/** `mergeSongs`: folds the songs prepared in the admin form into the bundled
    song list. Songs are keyed by `String(id)`; a later song replaces an
    earlier one under the same key, the admin's songs winning over the
    bundled ones; the result is ordered by `Number(id) || 0`. */
module Merge {
  import opened Options
  import opened Songs

  /** Ascending by `Number(id) || 0`. */
  predicate SortedById(songs: seq<Song>)
  {
    forall i, j :: 0 <= i < j < |songs| ==> SortKey(songs[i].id) <= SortKey(songs[j].id)
  }

  /** The last song under key `k` in a list (missing entries skipped), which
      is the one a map keeps when the list is written into it in order. */
  function LastWithKey(entries: seq<Option<Song>>, k: string): (r: Option<Song>)
    ensures r.Some? ==> Key(r.value.id) == k && r in entries
  {
    if entries == [] then None
    else
      var last := entries[|entries| - 1];
      if last.Some? && Key(last.value.id) == k then last
      else
        var r := LastWithKey(entries[..|entries| - 1], k);
        assert r.Some? ==> r in entries[..|entries| - 1];
        r
  }

  /** The song the merge keeps for key `k`: the last addition under it, or
      else the last existing song under it, or none. */
  function Winner(existing: seq<Option<Song>>, additions: seq<Option<Song>>, k: string): (r: Option<Song>)
    ensures r.Some? ==> Key(r.value.id) == k
  {
    if LastWithKey(additions, k).Some? then LastWithKey(additions, k) else LastWithKey(existing, k)
  }

  lemma LastWithKeyStep(entries: seq<Option<Song>>, e: Option<Song>, k: string)
    ensures LastWithKey(entries + [e], k) ==
      if e.Some? && Key(e.value.id) == k then e else LastWithKey(entries, k)
  {
    assert (entries + [e])[..|entries|] == entries;
  }

  /** What a map holds under key `k`. */
  function Lookup(m: map<string, Song>, k: string): Option<Song>
  {
    if k in m then Some(m[k]) else None
  }

  /** Every song that is present under its key shows up as a winner: nothing
      present in either input is lost. */
  lemma {:induction false} PresentHasLast(entries: seq<Option<Song>>, i: nat)
    requires i < |entries| && entries[i].Some?
    ensures LastWithKey(entries, Key(entries[i].value.id)).Some?
    decreases |entries|
  {
    var k := Key(entries[i].value.id);
    var last := entries[|entries| - 1];
    if !(last.Some? && Key(last.value.id) == k) {
      assert i < |entries| - 1;
      assert entries[..|entries| - 1][i] == entries[i];
      PresentHasLast(entries[..|entries| - 1], i);
    }
  }

  /** Every key of either input is kept. */
  lemma EveryKeyKept(existing: seq<Option<Song>>, additions: seq<Option<Song>>, k: string)
    ensures Winner(existing, additions, k).Some? <==>
      (exists i :: 0 <= i < |existing| && existing[i].Some? && Key(existing[i].value.id) == k)
      || (exists i :: 0 <= i < |additions| && additions[i].Some? && Key(additions[i].value.id) == k)
  {
    if exists i :: 0 <= i < |existing| && existing[i].Some? && Key(existing[i].value.id) == k {
      var i :| 0 <= i < |existing| && existing[i].Some? && Key(existing[i].value.id) == k;
      PresentHasLast(existing, i);
    }
    if exists i :: 0 <= i < |additions| && additions[i].Some? && Key(additions[i].value.id) == k {
      var i :| 0 <= i < |additions| && additions[i].Some? && Key(additions[i].value.id) == k;
      PresentHasLast(additions, i);
    }
    var w := Winner(existing, additions, k);
    if w.Some? {
      if LastWithKey(additions, k).Some? {
        var i :| 0 <= i < |additions| && additions[i] == w;
      } else {
        var i :| 0 <= i < |existing| && existing[i] == w;
      }
    }
  }

  /** The admin's version wins: a song that is the last addition under its
      key is the one kept, whatever the bundled list holds. */
  lemma {:induction false} LastAdditionWins(existing: seq<Option<Song>>, additions: seq<Option<Song>>, i: nat)
    requires i < |additions| && additions[i].Some?
    requires forall j :: i < j < |additions| && additions[j].Some? ==>
      Key(additions[j].value.id) != Key(additions[i].value.id)
    ensures Winner(existing, additions, Key(additions[i].value.id)) == additions[i]
    decreases |additions|
  {
    var k := Key(additions[i].value.id);
    if i < |additions| - 1 {
      var front := additions[..|additions| - 1];
      assert front[i] == additions[i];
      LastAdditionWins(existing, front, i);
    }
  }

  // ----- the stable sort -----

  /** Puts `x` before the first song whose sort value is not below its own. */
  function InsertById(x: Song, sorted: seq<Song>): (r: seq<Song>)
    ensures multiset(r) == multiset(sorted) + multiset{x}
    ensures forall y :: y in r <==> y == x || y in sorted
  {
    if sorted == [] || SortKey(x.id) <= SortKey(sorted[0].id) then [x] + sorted
    else
      assert sorted == [sorted[0]] + sorted[1..];
      [sorted[0]] + InsertById(x, sorted[1..])
  }

  lemma {:induction false} InsertKeepsSorted(x: Song, sorted: seq<Song>)
    requires SortedById(sorted)
    ensures SortedById(InsertById(x, sorted))
  {
    if !(sorted == [] || SortKey(x.id) <= SortKey(sorted[0].id)) {
      var rest := InsertById(x, sorted[1..]);
      InsertKeepsSorted(x, sorted[1..]);
      var r := [sorted[0]] + rest;
      forall j | 0 < j < |r| ensures SortKey(r[0].id) <= SortKey(r[j].id) {
        assert r[j] == rest[j - 1];
        if rest[j - 1] != x {
          assert rest[j - 1] in sorted[1..];
          var m :| 0 <= m < |sorted[1..]| && sorted[1..][m] == rest[j - 1];
          assert sorted[m + 1] == rest[j - 1];
        }
      }
      forall i, j | 0 < i < j < |r| ensures SortKey(r[i].id) <= SortKey(r[j].id) {
        assert r[i] == rest[i - 1] && r[j] == rest[j - 1];
      }
    }
  }

  /** A sort by `Number(id) || 0`: the same songs, in ascending order. */
  function SortById(songs: seq<Song>): (r: seq<Song>)
    ensures multiset(r) == multiset(songs)
    ensures forall y :: y in r <==> y in songs
    ensures SortedById(r)
  {
    if songs == [] then []
    else
      assert songs == [songs[0]] + songs[1..];
      InsertKeepsSorted(songs[0], SortById(songs[1..]));
      InsertById(songs[0], SortById(songs[1..]))
  }

  /** A song whose key none of a distinct list has can go in front of it. */
  lemma ConsKeepsKeysDistinct(h: Song, rest: seq<Song>)
    requires DistinctKeys(rest)
    requires forall j :: 0 <= j < |rest| ==> Key(rest[j].id) != Key(h.id)
    ensures DistinctKeys([h] + rest)
  {
    var r := [h] + rest;
    forall i, j | 0 <= i < j < |r| ensures Key(r[i].id) != Key(r[j].id) {
      assert r[j] == rest[j - 1];
      if i > 0 {
        assert r[i] == rest[i - 1];
      }
    }
  }

  lemma {:induction false} InsertKeepsKeysDistinct(x: Song, sorted: seq<Song>)
    requires DistinctKeys(sorted)
    requires forall j :: 0 <= j < |sorted| ==> Key(sorted[j].id) != Key(x.id)
    ensures DistinctKeys(InsertById(x, sorted))
  {
    if sorted == [] || SortKey(x.id) <= SortKey(sorted[0].id) {
      ConsKeepsKeysDistinct(x, sorted);
    } else {
      var h, tail := sorted[0], sorted[1..];
      assert DistinctKeys(tail) by {
        forall i, j | 0 <= i < j < |tail| ensures Key(tail[i].id) != Key(tail[j].id) {
          assert tail[i] == sorted[i + 1] && tail[j] == sorted[j + 1];
        }
      }
      assert forall j :: 0 <= j < |tail| ==> tail[j] == sorted[j + 1];
      InsertKeepsKeysDistinct(x, tail);
      var rest := InsertById(x, tail);
      assert InsertById(x, sorted) == [h] + rest;
      forall j | 0 <= j < |rest| ensures Key(rest[j].id) != Key(h.id) {
        InsertedFrom(x, tail, j);
        if rest[j] != x {
          var m :| 0 <= m < |tail| && tail[m] == rest[j];
          assert sorted[m + 1] == rest[j];
        }
      }
      ConsKeepsKeysDistinct(h, rest);
    }
  }

  lemma InsertedFrom(x: Song, sorted: seq<Song>, j: nat)
    requires j < |InsertById(x, sorted)|
    ensures InsertById(x, sorted)[j] == x
      || exists m :: 0 <= m < |sorted| && sorted[m] == InsertById(x, sorted)[j]
  {
    assert InsertById(x, sorted)[j] in InsertById(x, sorted);
  }

  /** Sorting keeps a list free of duplicate keys. */
  lemma {:induction false} SortKeepsKeysDistinct(songs: seq<Song>)
    requires DistinctKeys(songs)
    ensures DistinctKeys(SortById(songs))
  {
    if songs != [] {
      SortKeepsKeysDistinct(songs[1..]);
      var sortedTail := SortById(songs[1..]);
      forall j | 0 <= j < |sortedTail| ensures Key(sortedTail[j].id) != Key(songs[0].id) {
        assert sortedTail[j] in songs[1..];
        var m :| 0 <= m < |songs[1..]| && songs[1..][m] == sortedTail[j];
        assert songs[m + 1] == sortedTail[j];
      }
      InsertKeepsKeysDistinct(songs[0], SortById(songs[1..]));
    }
  }

  // ----- the merge -----

  /** Writing two lists into a map one after the other keeps, for each key,
      the last song of the concatenation: the winner. */
  lemma {:induction false} WinnerIsLastOfBoth(existing: seq<Option<Song>>, additions: seq<Option<Song>>, k: string)
    ensures Winner(existing, additions, k) == LastWithKey(existing + additions, k)
    decreases |additions|
  {
    if additions == [] {
      assert existing + additions == existing;
    } else {
      var front := additions[..|additions| - 1];
      var x := additions[|additions| - 1];
      assert additions == front + [x];
      assert existing + additions == (existing + front) + [x];
      LastWithKeyStep(existing + front, x, k);
      LastWithKeyStep(front, x, k);
      WinnerIsLastOfBoth(existing, front, k);
    }
  }

  /** One `map.set(String(s.id), s)` for a present entry; a missing one is skipped. */
  lemma WriteStep(m: map<string, Song>, written: seq<Option<Song>>, entry: Option<Song>)
    requires forall k :: Lookup(m, k) == LastWithKey(written, k)
    ensures var m' := if entry.Some? then m[Key(entry.value.id) := entry.value] else m;
      forall k :: Lookup(m', k) == LastWithKey(written + [entry], k)
  {
    var m' := if entry.Some? then m[Key(entry.value.id) := entry.value] else m;
    forall k ensures Lookup(m', k) == LastWithKey(written + [entry], k) {
      LastWithKeyStep(written, entry, k);
    }
  }

  /** The map's songs in insertion order. */
  function InOrder(m: map<string, Song>, order: seq<string>): (values: seq<Song>)
    requires forall k :: k in order ==> k in m
    ensures |values| == |order|
    ensures forall t :: 0 <= t < |order| ==> values[t] == m[order[t]]
  {
    if order == [] then [] else [m[order[0]]] + InOrder(m, order[1..])
  }

  /** The map's songs in insertion order carry the keys in that order. */
  lemma InOrderKeys(m: map<string, Song>, order: seq<string>, written: seq<Option<Song>>)
    requires forall k :: Lookup(m, k) == LastWithKey(written, k)
    requires forall k :: k in m <==> k in order
    requires forall a, b :: 0 <= a < b < |order| ==> order[a] != order[b]
    ensures forall t :: 0 <= t < |order| ==> Key(InOrder(m, order)[t].id) == order[t]
    ensures DistinctKeys(InOrder(m, order))
  {
    var values := InOrder(m, order);
    forall t | 0 <= t < |values| ensures Key(values[t].id) == order[t] {
      assert Lookup(m, order[t]) == Some(values[t]);
    }
  }

  /** Each song of the map is the winner for its key. */
  lemma SortedValuesWin(existing: seq<Option<Song>>, additions: seq<Option<Song>>,
                        m: map<string, Song>, order: seq<string>)
    requires forall k :: Lookup(m, k) == LastWithKey(existing + additions, k)
    requires forall k :: k in m <==> k in order
    ensures var merged := SortById(InOrder(m, order));
      forall t :: 0 <= t < |merged| ==> Winner(existing, additions, Key(merged[t].id)) == Some(merged[t])
  {
    var values := InOrder(m, order);
    var merged := SortById(values);
    forall t | 0 <= t < |merged|
      ensures Winner(existing, additions, Key(merged[t].id)) == Some(merged[t])
    {
      assert merged[t] in values;
      var u :| 0 <= u < |values| && values[u] == merged[t];
      assert Lookup(m, order[u]) == Some(values[u]);
      WinnerIsLastOfBoth(existing, additions, order[u]);
    }
  }

  /** Every winner is among the sorted songs. */
  lemma SortedValuesComplete(existing: seq<Option<Song>>, additions: seq<Option<Song>>,
                             m: map<string, Song>, order: seq<string>, merged: seq<Song>)
    requires forall k :: Lookup(m, k) == LastWithKey(existing + additions, k)
    requires forall k :: k in m <==> k in order
    requires merged == SortById(InOrder(m, order))
    ensures forall k :: Winner(existing, additions, k).Some? ==>
      exists t :: 0 <= t < |merged| && Key(merged[t].id) == k
  {
    var values := InOrder(m, order);
    forall k | Winner(existing, additions, k).Some?
      ensures exists t :: 0 <= t < |merged| && Key(merged[t].id) == k
    {
      WinnerIsLastOfBoth(existing, additions, k);
      assert Lookup(m, k).Some?;
      var u :| 0 <= u < |order| && order[u] == k;
      var w := LastWithKey(existing + additions, k);
      assert w == Some(values[u]);
      assert values[u] in merged;
      var t :| 0 <= t < |merged| && merged[t] == values[u];
      assert Key(merged[t].id) == k;
    }
  }

  /** `mergeSongs`: both lists are written into a map in order (missing
      entries skipped), then the map's songs, in insertion order, are sorted
      by their numeric id. The result has one song per key, that song is the
      winner for its key, every key present in either input is there, and the
      order is ascending. */
  method MergeSongs(existing: seq<Option<Song>>, additions: seq<Option<Song>>) returns (merged: seq<Song>)
    ensures DistinctKeys(merged)
    ensures SortedById(merged)
    ensures forall t :: 0 <= t < |merged| ==> Winner(existing, additions, Key(merged[t].id)) == Some(merged[t])
    ensures forall k :: Winner(existing, additions, k).Some? ==>
      exists t :: 0 <= t < |merged| && Key(merged[t].id) == k
  {
    var m: map<string, Song> := map[];
    var order: seq<string> := [];
    var i := 0;
    while i < |existing|
      invariant 0 <= i <= |existing|
      invariant forall k :: Lookup(m, k) == LastWithKey(existing[..i], k)
      invariant forall k :: k in m <==> k in order
      invariant forall a, b :: 0 <= a < b < |order| ==> order[a] != order[b]
    {
      var entry := existing[i];
      WriteStep(m, existing[..i], entry);
      assert existing[..i + 1] == existing[..i] + [entry];
      if entry.Some? {
        var k := Key(entry.value.id);
        if k !in m {
          order := order + [k];
        }
        m := m[k := entry.value];
      }
      i := i + 1;
    }
    assert existing[..i] == existing;
    assert existing + additions[..0] == existing;
    var j := 0;
    while j < |additions|
      invariant 0 <= j <= |additions|
      invariant forall k :: Lookup(m, k) == LastWithKey(existing + additions[..j], k)
      invariant forall k :: k in m <==> k in order
      invariant forall a, b :: 0 <= a < b < |order| ==> order[a] != order[b]
    {
      var entry := additions[j];
      WriteStep(m, existing + additions[..j], entry);
      assert existing + additions[..j + 1] == (existing + additions[..j]) + [entry];
      if entry.Some? {
        var k := Key(entry.value.id);
        if k !in m {
          order := order + [k];
        }
        m := m[k := entry.value];
      }
      j := j + 1;
    }
    assert additions[..j] == additions;
    InOrderKeys(m, order, existing + additions);
    SortKeepsKeysDistinct(InOrder(m, order));
    SortedValuesWin(existing, additions, m, order);
    merged := SortById(InOrder(m, order));
    SortedValuesComplete(existing, additions, m, order, merged);
  }
}
