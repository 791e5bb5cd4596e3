/** `safeSlug`: turns a song title into a file-name slug of lower-case
    letters, digits and single dashes, for ASCII text. */
module Slug {
  import opened Strings

  /** `toLowerCase` on ASCII letters. */
  function LowerAscii(s: string): (r: string)
    ensures |r| == |s|
    ensures forall i :: 0 <= i < |s| ==> r[i] == LowerChar(s[i])
  {
    if s == [] then [] else [LowerChar(s[0])] + LowerAscii(s[1..])
  }

  function LowerChar(c: char): char
  {
    if 'A' <= c <= 'Z' then (c as int + 32) as char else c
  }

  /** `[a-z0-9]`: what survives in a slug. */
  predicate IsSlugChar(c: char)
  {
    ('a' <= c <= 'z') || ('0' <= c <= '9')
  }

  /** A well-formed slug: only `[a-z0-9-]`, no two dashes in a row. */
  predicate DashesSingle(s: string)
  {
    (forall i :: 0 <= i < |s| ==> IsSlugChar(s[i]) || s[i] == '-')
    && (forall i :: 0 <= i < |s| - 1 ==> !(s[i] == '-' && s[i + 1] == '-'))
  }

  /** The letters and digits of a text, in order. */
  function SlugChars(s: string): (r: string)
    ensures |r| <= |s|
  {
    if s == [] then [] else (if IsSlugChar(s[0]) then [s[0]] else []) + SlugChars(s[1..])
  }

  /** Drops the run of characters outside `[a-z0-9]` that starts `s`. */
  function DropRun(s: string): (r: string)
    ensures |r| <= |s|
    ensures r == [] || IsSlugChar(r[0])
    ensures SlugChars(r) == SlugChars(s)
  {
    if s != [] && !IsSlugChar(s[0]) then DropRun(s[1..]) else s
  }

  /** `.replace(/[^a-z0-9]+/g, "-")`: each maximal run of other characters
      becomes a single dash. `CollapseWord`, `CollapseGap` and
      `CollapseSpaced` below say where the dashes go, `CollapseRunsShape` what
      the result is made of. */
  function CollapseRuns(s: string): (r: string)
    ensures |r| <= |s|
    decreases |s|
  {
    if s == [] then []
    else if IsSlugChar(s[0]) then [s[0]] + CollapseRuns(s[1..])
    else
      var rest := DropRun(s[1..]);
      "-" + CollapseRuns(rest)
  }

  /** The collapsed text has only `[a-z0-9-]` with no two dashes in a row,
      starts with a dash only when the text starts with a run of other
      characters, and keeps every letter and digit in order. */
  lemma {:induction false} CollapseRunsShape(s: string)
    ensures var r := CollapseRuns(s);
      DashesSingle(r)
      && (r != [] && r[0] == '-' ==> s != [] && !IsSlugChar(s[0]))
      && SlugChars(r) == SlugChars(s)
    decreases |s|
  {
    if s == [] {
    } else if IsSlugChar(s[0]) {
      CollapseRunsShape(s[1..]);
    } else {
      CollapseRunsShape(DropRun(s[1..]));
    }
  }

  /** `.replace(/(^-|-$)/g, "")`: one dash at the start and one at the end go. */
  function StripEdgeDashes(s: string): string
  {
    var t := if s != [] && s[0] == '-' then s[1..] else s;
    if t != [] && t[|t| - 1] == '-' then t[..|t| - 1] else t
  }

  /** `safeSlug`: an empty title counts as "song". The slug holds only
      lower-case letters, digits and single dashes, neither starts nor ends
      with a dash, and keeps every letter and digit of the lower-cased title,
      in order. */
  function SafeSlug(s: string): (r: string)
    ensures DashesSingle(r)
    ensures r == [] || (r[0] != '-' && r[|r| - 1] != '-')
    ensures SlugChars(r) == SlugChars(LowerAscii(if s == [] then "song" else s))
  {
    var c := CollapseRuns(LowerAscii(if s == [] then "song" else s));
    CollapseRunsShape(LowerAscii(if s == [] then "song" else s));
    StripEdgeFacts(c);
    StripEdgeDashes(c)
  }

  lemma StripEdgeFacts(s: string)
    requires DashesSingle(s)
    ensures var r := StripEdgeDashes(s);
      DashesSingle(r) && (r == [] || (r[0] != '-' && r[|r| - 1] != '-')) && SlugChars(r) == SlugChars(s)
  {
    var t := if s != [] && s[0] == '-' then s[1..] else s;
    if s != [] && s[0] == '-' {
      DropLeadingDash(s);
    }
    if t != [] && t[|t| - 1] == '-' {
      DropTrailingDash(t);
    }
  }

  /** Dropping a leading dash leaves a well-formed slug that does not start
      with a dash and has the same letters and digits. */
  lemma DropLeadingDash(s: string)
    requires DashesSingle(s) && s != [] && s[0] == '-'
    ensures var t := s[1..];
      DashesSingle(t) && (t == [] || t[0] != '-') && SlugChars(t) == SlugChars(s)
  {
    var t := s[1..];
    forall i | 0 <= i < |t| ensures IsSlugChar(t[i]) || t[i] == '-' {
      assert t[i] == s[i + 1];
    }
    forall i | 0 <= i < |t| - 1 ensures !(t[i] == '-' && t[i + 1] == '-') {
      assert t[i] == s[i + 1] && t[i + 1] == s[i + 2];
    }
    if t != [] {
      assert t[0] == s[1];
      assert !(s[0] == '-' && s[1] == '-');
    }
  }

  /** Dropping a trailing dash from a slug that does not start with one
      leaves a well-formed slug with no dash at either end and the same
      letters and digits. */
  lemma DropTrailingDash(t: string)
    requires DashesSingle(t) && t != [] && t[|t| - 1] == '-'
    ensures var r := t[..|t| - 1];
      DashesSingle(r) && (r == [] || r[|r| - 1] != '-') && (r != [] && t[0] != '-' ==> r[0] != '-')
      && SlugChars(r) == SlugChars(t)
  {
    var r := t[..|t| - 1];
    assert t == r + "-";
    SlugCharsAppend(r, "-");
    assert SlugChars("-") == [];
    forall i | 0 <= i < |r| ensures IsSlugChar(r[i]) || r[i] == '-' {
      assert r[i] == t[i];
    }
    forall i | 0 <= i < |r| - 1 ensures !(r[i] == '-' && r[i + 1] == '-') {
      assert r[i] == t[i] && r[i + 1] == t[i + 1];
    }
    if r != [] {
      assert r[0] == t[0];
      assert r[|r| - 1] == t[|t| - 2];
    }
  }

  lemma {:induction false} SlugCharsAppend(a: string, b: string)
    ensures SlugChars(a + b) == SlugChars(a) + SlugChars(b)
  {
    if a == [] {
      assert a + b == b;
    } else {
      var ab := a + b;
      assert ab[0] == a[0] && ab[1..] == a[1..] + b;
      SlugCharsAppend(a[1..], b);
      var h := if IsSlugChar(a[0]) then [a[0]] else [];
      calc {
        SlugChars(ab);
        h + SlugChars(a[1..] + b);
        h + (SlugChars(a[1..]) + SlugChars(b));
        (h + SlugChars(a[1..])) + SlugChars(b);
      }
    }
  }

  // ----- where the dashes go -----

  /** A word of a slug: a non-empty run of `[a-z0-9]`. */
  predicate IsWord(w: string)
  {
    w != [] && forall i :: 0 <= i < |w| ==> IsSlugChar(w[i])
  }

  /** A gap between words: a non-empty run of characters outside `[a-z0-9]`. */
  predicate IsGap(g: string)
  {
    g != [] && forall i :: 0 <= i < |g| ==> !IsSlugChar(g[i])
  }

  /** Words with a gap between each two: `ws[0] + gaps[0] + ws[1] + …`. */
  function Spaced(ws: seq<string>, gaps: seq<string>): string
    requires |ws| >= 1 && |gaps| == |ws| - 1
  {
    if |ws| == 1 then ws[0] else ws[0] + gaps[0] + Spaced(ws[1..], gaps[1..])
  }

  /** Letters and digits pass through the collapse unchanged. */
  lemma {:induction false} CollapseWord(w: string, t: string)
    requires forall i :: 0 <= i < |w| ==> IsSlugChar(w[i])
    ensures CollapseRuns(w + t) == w + CollapseRuns(t)
  {
    if w == [] {
      assert w + t == t;
    } else {
      assert IsSlugChar(w[0]);
      CollapseWord(w[1..], t);
      CollapseWordStep(w, t);
    }
  }

  /** One letter or digit more in front of a word that collapses to itself. */
  lemma CollapseWordStep(w: string, t: string)
    requires w != [] && IsSlugChar(w[0])
    requires CollapseRuns(w[1..] + t) == w[1..] + CollapseRuns(t)
    ensures CollapseRuns(w + t) == w + CollapseRuns(t)
  {
    FrontSplit(w, t);
    CollapseSlugChar(w + t);
  }

  /** Taking the first character off `w + t`. */
  lemma FrontSplit(w: string, t: string)
    requires w != []
    ensures (w + t)[0] == w[0] && (w + t)[1..] == w[1..] + t
    ensures forall u :: [w[0]] + (w[1..] + u) == w + u
  {
    forall u ensures [w[0]] + (w[1..] + u) == w + u {
      assert w == [w[0]] + w[1..];
    }
  }

  /** A letter or digit at the front is kept as it is. */
  lemma CollapseSlugChar(s: string)
    requires s != [] && IsSlugChar(s[0])
    ensures CollapseRuns(s) == [s[0]] + CollapseRuns(s[1..])
  {
  }

  /** The whole of a gap is skipped when a letter, a digit or the end follows it. */
  lemma {:induction false} DropGap(g: string, t: string)
    requires forall i :: 0 <= i < |g| ==> !IsSlugChar(g[i])
    requires t == [] || IsSlugChar(t[0])
    ensures DropRun(g + t) == t
  {
    if g == [] {
      assert g + t == t;
    } else {
      var gt := g + t;
      assert gt[0] == g[0] && gt[1..] == g[1..] + t;
      DropGap(g[1..], t);
    }
  }

  /** A whole gap becomes one dash. */
  lemma CollapseGap(g: string, t: string)
    requires IsGap(g)
    requires t == [] || IsSlugChar(t[0])
    ensures CollapseRuns(g + t) == "-" + CollapseRuns(t)
  {
    var gt := g + t;
    assert gt[0] == g[0] && gt[1..] == g[1..] + t;
    DropGap(g[1..], t);
  }

  /** Words separated by gaps, with an optional gap after them, collapse to
      the words joined by single dashes (and one more dash for the final gap). */
  lemma {:induction false} CollapseSpaced(ws: seq<string>, gaps: seq<string>, trail: string)
    requires |ws| >= 1 && |gaps| == |ws| - 1
    requires forall i :: 0 <= i < |ws| ==> IsWord(ws[i])
    requires forall i :: 0 <= i < |gaps| ==> IsGap(gaps[i])
    requires trail == [] || IsGap(trail)
    ensures CollapseRuns(Spaced(ws, gaps) + trail) == Join(ws, "-") + TrailDash(trail)
  {
    if |ws| == 1 {
      assert IsWord(ws[0]);
      CollapseWord(ws[0], trail);
      CollapseTrail(trail);
    } else {
      assert IsWord(ws[0]) && IsWord(ws[1]) && IsGap(gaps[0]);
      CollapseSpaced(ws[1..], gaps[1..], trail);
      SpacedStart(ws[1..], gaps[1..]);
      CollapseSpacedStep(ws[0], gaps[0], Spaced(ws[1..], gaps[1..]), trail, Join(ws[1..], "-"));
    }
  }

  /** The dash a final gap leaves. */
  function TrailDash(trail: string): string
  {
    if trail == [] then "" else "-"
  }

  lemma CollapseTrail(trail: string)
    requires trail == [] || IsGap(trail)
    ensures CollapseRuns(trail) == TrailDash(trail)
  {
    if trail != [] {
      CollapseGap(trail, []);
      assert trail + [] == trail;
    }
  }

  /** One more word and gap in front of spaced words. */
  lemma CollapseSpacedStep(w: string, g: string, more: string, trail: string, joined: string)
    requires IsWord(w) && IsGap(g) && more != [] && IsSlugChar(more[0])
    requires CollapseRuns(more + trail) == joined + TrailDash(trail)
    ensures CollapseRuns(w + g + more + trail) == w + "-" + joined + TrailDash(trail)
  {
    var rest := more + trail;
    assert rest[0] == more[0];
    assert w + g + more + trail == w + (g + rest);
    CollapseWord(w, g + rest);
    CollapseGap(g, rest);
  }

  /** Spaced words start with the first word's first letter. */
  lemma SpacedStart(ws: seq<string>, gaps: seq<string>)
    requires |ws| >= 1 && |gaps| == |ws| - 1 && ws[0] != []
    ensures Spaced(ws, gaps) != [] && Spaced(ws, gaps)[0] == ws[0][0]
  {
  }

  /** Words joined by dashes start and end with a letter or a digit. */
  lemma {:induction false} JoinedWordsEnds(ws: seq<string>)
    requires |ws| >= 1
    requires forall i :: 0 <= i < |ws| ==> IsWord(ws[i])
    ensures var j := Join(ws, "-");
      j != [] && IsSlugChar(j[0]) && IsSlugChar(j[|j| - 1])
  {
    assert IsWord(ws[0]);
    if |ws| > 1 {
      JoinedWordsEnds(ws[1..]);
      var more := Join(ws[1..], "-");
      var j := ws[0] + "-" + more;
      assert Join(ws, "-") == j;
      assert j[0] == ws[0][0] && j[|j| - 1] == more[|more| - 1];
    }
  }

  /** `safeSlug` of a title: once lower-cased, a title is an optional gap,
      words separated by gaps, and an optional gap; its slug is exactly those
      words joined by single dashes. */
  lemma SafeSlugJoinsWords(s: string, lead: string, ws: seq<string>, gaps: seq<string>, trail: string)
    requires s != []
    requires |ws| >= 1 && |gaps| == |ws| - 1
    requires forall i :: 0 <= i < |ws| ==> IsWord(ws[i])
    requires forall i :: 0 <= i < |gaps| ==> IsGap(gaps[i])
    requires lead == [] || IsGap(lead)
    requires trail == [] || IsGap(trail)
    requires LowerAscii(s) == lead + Spaced(ws, gaps) + trail
    ensures SafeSlug(s) == Join(ws, "-")
  {
    SpacedSlug(lead, ws, gaps, trail);
    SafeSlugOfLowered(s, lead + Spaced(ws, gaps) + trail, Join(ws, "-"));
  }

  /** Words with gaps between them and optional gaps at both ends collapse
      and strip to the words joined by single dashes. */
  lemma SpacedSlug(lead: string, ws: seq<string>, gaps: seq<string>, trail: string)
    requires |ws| >= 1 && |gaps| == |ws| - 1
    requires forall i :: 0 <= i < |ws| ==> IsWord(ws[i])
    requires forall i :: 0 <= i < |gaps| ==> IsGap(gaps[i])
    requires lead == [] || IsGap(lead)
    requires trail == [] || IsGap(trail)
    ensures StripEdgeDashes(CollapseRuns(lead + Spaced(ws, gaps) + trail)) == Join(ws, "-")
  {
    var body := Spaced(ws, gaps) + trail;
    var j := Join(ws, "-");
    SpacedCollapse(ws, gaps, trail);
    StripCollapsed(lead, body, j + TrailDash(trail), j, trail);
    assert lead + Spaced(ws, gaps) + trail == lead + body;
  }

  /** A non-empty title's slug is its lower-cased text, collapsed and stripped. */
  lemma SafeSlugOfLowered(s: string, lowered: string, j: string)
    requires s != [] && LowerAscii(s) == lowered
    requires StripEdgeDashes(CollapseRuns(lowered)) == j
    ensures SafeSlug(s) == j
  {
  }

  /** What words with gaps between them collapse to, and how they start and end. */
  lemma SpacedCollapse(ws: seq<string>, gaps: seq<string>, trail: string)
    requires |ws| >= 1 && |gaps| == |ws| - 1
    requires forall i :: 0 <= i < |ws| ==> IsWord(ws[i])
    requires forall i :: 0 <= i < |gaps| ==> IsGap(gaps[i])
    requires trail == [] || IsGap(trail)
    ensures var body := Spaced(ws, gaps) + trail;
      var j := Join(ws, "-");
      body != [] && IsSlugChar(body[0]) && CollapseRuns(body) == j + TrailDash(trail)
      && j != [] && IsSlugChar(j[0]) && IsSlugChar(j[|j| - 1])
  {
    CollapseSpaced(ws, gaps, trail);
    assert IsWord(ws[0]);
    SpacedStart(ws, gaps);
    JoinedWordsEnds(ws);
    var body := Spaced(ws, gaps) + trail;
    assert body[0] == ws[0][0];
  }

  /** Stripping the edge dashes of what a lead gap and the spaced words
      collapse to leaves the joined words. */
  lemma StripCollapsed(lead: string, body: string, collapsed: string, j: string, trail: string)
    requires lead == [] || IsGap(lead)
    requires body != [] && IsSlugChar(body[0])
    requires CollapseRuns(body) == collapsed && collapsed == j + TrailDash(trail)
    requires j != [] && IsSlugChar(j[0]) && IsSlugChar(j[|j| - 1])
    ensures StripEdgeDashes(CollapseRuns(lead + body)) == j
  {
    if lead == [] {
      assert lead + body == body;
    } else {
      CollapseGap(lead, body);
      assert ("-" + collapsed)[1..] == collapsed;
    }
    assert collapsed[0] == j[0];
    if trail != [] {
      assert collapsed[..|collapsed| - 1] == j;
    }
  }

  /** A non-empty title with no letter or digit at all gives the empty slug. */
  lemma SafeSlugOfGap(s: string)
    requires s != [] && IsGap(LowerAscii(s))
    ensures SafeSlug(s) == ""
  {
    CollapseGap(LowerAscii(s), []);
    assert LowerAscii(s) + [] == LowerAscii(s);
  }
}
