/** The working set of songs the admin form keeps between sessions
    (`upsertSongInSet`, `removeSongFromSet`, `clearSet`) and the id
    generator (`maxIdFromArray`, `getNextId`). The stored list is the field
    `songs` of a `SongStore`; every operation rewrites it and returns it. */
module SongStore {
  import opened Options
  import opened Songs

  // ----- the list operations the store performs -----

  /** `findIndex(s => String(s.id) === key)`: the first position holding the
      key, or -1 when none does. */
  function IndexOfKey(songs: seq<Song>, key: string): (i: int)
    ensures -1 <= i < |songs|
    ensures i >= 0 ==> Key(songs[i].id) == key
    ensures forall j :: 0 <= j < |songs| && (i < 0 || j < i) ==> Key(songs[j].id) != key
  {
    if songs == [] then -1
    else if Key(songs[0].id) == key then 0
    else
      var i := IndexOfKey(songs[1..], key);
      if i < 0 then -1 else i + 1
  }

  /** The set after an upsert: the first song with the same key is replaced
      in place, or the song is appended when there is none. */
  function Upserted(songs: seq<Song>, song: Song): (r: seq<Song>)
    ensures song in r
    ensures |r| == |songs| || r == songs + [song]
  {
    var i := IndexOfKey(songs, Key(song.id));
    if i >= 0 then
      assert songs[i := song][i] == song;
      songs[i := song]
    else songs + [song]
  }

  /** `filter(s => String(s.id) !== key)`: the songs under other keys, in order. */
  function WithoutKey(songs: seq<Song>, key: string): (r: seq<Song>)
    ensures |r| <= |songs|
    ensures forall s :: s in r <==> s in songs && Key(s.id) != key
  {
    if songs == [] then []
    else (if Key(songs[0].id) == key then [] else [songs[0]]) + WithoutKey(songs[1..], key)
  }

  /** A song whose key is new goes to the end of the set. */
  lemma UpsertNewKeyAppends(songs: seq<Song>, song: Song)
    requires forall j :: 0 <= j < |songs| ==> Key(songs[j].id) != Key(song.id)
    ensures Upserted(songs, song) == songs + [song]
  {
  }

  /** A song whose key is present replaces the first song with that key, at
      its position; the other songs stay where they were. */
  lemma UpsertKnownKeyReplaces(songs: seq<Song>, song: Song, k: nat)
    requires k < |songs| && Key(songs[k].id) == Key(song.id)
    requires forall j :: 0 <= j < k ==> Key(songs[j].id) != Key(song.id)
    ensures Upserted(songs, song) == songs[k := song]
  {
    assert IndexOfKey(songs, Key(song.id)) == k;
  }

  /** Upserting keeps a set free of duplicate keys. */
  lemma UpsertKeepsKeysDistinct(songs: seq<Song>, song: Song)
    requires DistinctKeys(songs)
    ensures DistinctKeys(Upserted(songs, song))
  {
  }

  /** Upserting the same song twice is the same as once. */
  lemma UpsertIdempotent(songs: seq<Song>, song: Song)
    ensures Upserted(Upserted(songs, song), song) == Upserted(songs, song)
  {
    var once := Upserted(songs, song);
    var i := IndexOfKey(songs, Key(song.id));
    if i >= 0 {
      UpsertKnownKeyReplaces(once, song, i);
    } else {
      UpsertKnownKeyReplaces(once, song, |songs|);
    }
  }

  /** Removing a key nobody has leaves the set as it was. */
  lemma {:induction false} RemoveMissingKeyKeepsSet(songs: seq<Song>, key: string)
    requires forall j :: 0 <= j < |songs| ==> Key(songs[j].id) != key
    ensures WithoutKey(songs, key) == songs
  {
    if songs != [] {
      RemoveMissingKeyKeepsSet(songs[1..], key);
      assert songs == [songs[0]] + songs[1..];
    }
  }

  /** Removal keeps the order of the remaining songs: it works piece by piece. */
  lemma {:induction false} RemoveKeepsOrder(a: seq<Song>, b: seq<Song>, key: string)
    ensures WithoutKey(a + b, key) == WithoutKey(a, key) + WithoutKey(b, key)
  {
    if a == [] {
      assert a + b == b;
    } else {
      var ab := a + b;
      assert ab[0] == a[0] && ab[1..] == a[1..] + b;
      RemoveKeepsOrder(a[1..], b, key);
      var h := if Key(a[0].id) == key then [] else [a[0]];
      calc {
        WithoutKey(ab, key);
        h + WithoutKey(a[1..] + b, key);
        h + (WithoutKey(a[1..], key) + WithoutKey(b, key));
        (h + WithoutKey(a[1..], key)) + WithoutKey(b, key);
      }
    }
  }

  /** Removal keeps a set free of duplicate keys. */
  lemma {:induction false} RemoveKeepsKeysDistinct(songs: seq<Song>, key: string)
    requires DistinctKeys(songs)
    ensures DistinctKeys(WithoutKey(songs, key))
  {
    if songs != [] {
      RemoveKeepsKeysDistinct(songs[1..], key);
      var tail := WithoutKey(songs[1..], key);
      if Key(songs[0].id) != key {
        forall j | 0 <= j < |tail| ensures Key(songs[0].id) != Key(tail[j].id) {
          assert tail[j] in songs[1..];
        }
      }
    }
  }

  /** Removing a key right after upserting a song under it gives the same set
      as removing the key alone: the upsert leaves no trace. */
  lemma RemoveUndoesUpsert(songs: seq<Song>, song: Song)
    ensures WithoutKey(Upserted(songs, song), Key(song.id)) == WithoutKey(songs, Key(song.id))
  {
    var key := Key(song.id);
    var i := IndexOfKey(songs, key);
    if i >= 0 {
      RemoveReplacedSame(songs, i, song, key);
    } else {
      RemoveKeepsOrder(songs, [song], key);
      assert WithoutKey([song], key) == [];
    }
  }

  lemma {:induction false} RemoveReplacedSame(songs: seq<Song>, i: nat, song: Song, key: string)
    requires i < |songs| && Key(songs[i].id) == key && Key(song.id) == key
    ensures WithoutKey(songs[i := song], key) == WithoutKey(songs, key)
  {
    if i > 0 {
      RemoveReplacedSame(songs[1..], i - 1, song, key);
      assert songs[i := song][1..] == songs[1..][i - 1 := song];
    }
  }

  // ----- ids -----

  /** The contribution of one entry to the running maximum: a numeric id
      counts, an entry that is missing or has a non-numeric id does not. */
  function MaxWith(acc: int, entry: Option<Song>): int
  {
    if entry.Some? && entry.value.id.Num? && entry.value.id.n > acc then entry.value.id.n else acc
  }

  predicate HasNumId(entry: Option<Song>, n: int)
  {
    entry.Some? && entry.value.id == Num(n)
  }

  /** `arr.reduce((mx, s) => Number.isFinite(Number(s?.id)) ? Math.max(mx, …) : mx, acc)`:
      at least `acc`, at least every numeric id, and either `acc` itself or
      one of the ids. */
  function MaxIdFrom(entries: seq<Option<Song>>, acc: int): (mx: int)
    ensures mx >= acc
    ensures forall i :: 0 <= i < |entries| && entries[i].Some? && entries[i].value.id.Num? ==>
      entries[i].value.id.n <= mx
    ensures mx == acc || exists i :: 0 <= i < |entries| && HasNumId(entries[i], mx)
  {
    if entries == [] then acc
    else
      var mx := MaxIdFrom(entries[1..], MaxWith(acc, entries[0]));
      assert forall i :: 1 <= i < |entries| ==> entries[i] == entries[1..][i - 1];
      mx
  }

  /** `maxIdFromArray`: the largest numeric id, or 0 when there is none or
      all are negative. */
  function MaxIdFromArray(entries: seq<Option<Song>>): (mx: int)
    ensures mx >= 0
    ensures forall i :: 0 <= i < |entries| && entries[i].Some? && entries[i].value.id.Num? ==>
      entries[i].value.id.n <= mx
    ensures mx == 0 || exists i :: 0 <= i < |entries| && HasNumId(entries[i], mx)
  {
    MaxIdFrom(entries, 0)
  }

  /** The stored set as the entries `maxIdFromArray` walks over. */
  function Entries(songs: seq<Song>): (entries: seq<Option<Song>>)
    ensures |entries| == |songs|
    ensures forall i :: 0 <= i < |songs| ==> entries[i] == Some(songs[i])
  {
    if songs == [] then [] else [Some(songs[0])] + Entries(songs[1..])
  }

  /** The store itself: the list kept under the set's storage key. */
  class SongStore {
    var songs: seq<Song>

    /** `loadSet`: the stored list, or an empty one when nothing readable is
        stored (missing, not JSON, not an array). */
    constructor Load(stored: Option<seq<Song>>)
      ensures songs == if stored.Some? then stored.value else []
    {
      songs := if stored.Some? then stored.value else [];
    }

    /** `upsertSongInSet`: finds the first song with the same key, replaces it
        or appends the song, saves and returns the set. */
    method Upsert(song: Song) returns (current: seq<Song>)
      modifies this
      ensures songs == Upserted(old(songs), song)
      ensures current == songs
    {
      var idx := 0;
      while idx < |songs| && Key(songs[idx].id) != Key(song.id)
        invariant 0 <= idx <= |songs|
        invariant forall j :: 0 <= j < idx ==> Key(songs[j].id) != Key(song.id)
      {
        idx := idx + 1;
      }
      if idx < |songs| {
        UpsertKnownKeyReplaces(songs, song, idx);
        songs := songs[idx := song];
      } else {
        songs := songs + [song];
      }
      current := songs;
    }

    /** `removeSongFromSet`: drops every song whose key is `String(id)`. */
    method Remove(key: string) returns (current: seq<Song>)
      modifies this
      ensures songs == WithoutKey(old(songs), key)
      ensures current == songs
    {
      songs := WithoutKey(songs, key);
      current := songs;
    }

    /** `clearSet`. */
    method Clear() returns (current: seq<Song>)
      modifies this
      ensures songs == [] && current == []
    {
      songs := [];
      current := [];
    }

    /** `getNextId`, with `external` standing for the bundled song list (an
        empty list when the page has none): one more than the largest numeric
        id in either list, so it is at least 1, above every numeric id, and
        follows one of them unless none is positive. */
    function NextId(external: seq<Option<Song>>): (next: int)
      reads this
      ensures next >= 1
      ensures forall i :: 0 <= i < |songs| && songs[i].id.Num? ==> songs[i].id.n < next
      ensures forall i :: 0 <= i < |external| && external[i].Some? && external[i].value.id.Num? ==>
        external[i].value.id.n < next
      ensures next == 1
        || (exists i :: 0 <= i < |songs| && songs[i].id == Num(next - 1))
        || (exists i :: 0 <= i < |external| && HasNumId(external[i], next - 1))
    {
      var inSet := MaxIdFromArray(Entries(songs));
      var inExternal := MaxIdFromArray(external);
      assert forall i :: 0 <= i < |songs| ==> Entries(songs)[i] == Some(songs[i]);
      (if inSet > inExternal then inSet else inExternal) + 1
    }
  }
}
