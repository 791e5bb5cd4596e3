/** `extractYouTubeId`: turns what the editor pasted (a bare video id or a
    link) into a video id, and `youtubeCoverUrl`, the thumbnail address
    derived from it. */
module YouTube {
  import opened Strings
  import opened Options

  /** `/^[a-zA-Z0-9_-]{6,20}$/`: the shape of a bare video id. */
  predicate IsBareId(s: string)
  {
    6 <= |s| <= 20 && forall i :: 0 <= i < |s| ==> IsIdChar(s[i])
  }

  /** How many id characters start `s`, taking no more than `cap` of them:
      the greedy `[a-zA-Z0-9_-]{6,20}` takes the longest run up to 20. */
  function IdRun(s: string, cap: nat): (n: nat)
    ensures n <= cap && n <= |s|
    ensures forall i :: 0 <= i < n ==> IsIdChar(s[i])
    ensures n < cap && n < |s| ==> !IsIdChar(s[n])
  {
    if cap == 0 || s == [] || !IsIdChar(s[0]) then 0 else 1 + IdRun(s[1..], cap - 1)
  }

  /** The pattern `v=([a-zA-Z0-9_-]{6,20})` matches at position `i`. */
  predicate VMatchAt(s: string, i: nat)
  {
    i + 2 <= |s| && s[i] == 'v' && s[i + 1] == '=' && IdRun(s[i + 2..], 20) >= 6
  }

  /** The captured id of a match at `i`. */
  function Capture(s: string, i: nat): string
    requires VMatchAt(s, i)
  {
    s[i + 2..i + 2 + IdRun(s[i + 2..], 20)]
  }

  /** The leftmost match at or after `from`, or -1. */
  function FirstVMatch(s: string, from: nat): (i: int)
    ensures i == -1 || (from <= i < |s| && VMatchAt(s, i))
    ensures forall j :: from <= j < |s| && (i == -1 || j < i) ==> !VMatchAt(s, j)
    decreases |s| - from
  {
    if from >= |s| then -1
    else if VMatchAt(s, from) then from
    else FirstVMatch(s, from + 1)
  }

  /** `raw.match(/v=([a-zA-Z0-9_-]{6,20})/)`, giving its capture group: the
      regular expression engine tries positions from the left, so the result
      is the id after the leftmost `v=` followed by at least six id
      characters, taking as many of them as it can, up to twenty. */
  function VParam(s: string): (m: Option<string>)
    ensures m.None? <==> forall i :: 0 <= i < |s| ==> !VMatchAt(s, i)
    ensures m.Some? ==> IsBareId(m.value)
    ensures m.Some? ==> exists i :: 0 <= i < |s| && VMatchAt(s, i) && m.value == Capture(s, i)
                          && forall j :: 0 <= j < i ==> !VMatchAt(s, j)
  {
    var i := FirstVMatch(s, 0);
    if i < 0 then None else Some(Capture(s, i))
  }

  /** `extractYouTubeId`. The `new URL(raw)` step (query parameter `v`, a
      `youtu.be` path, a `shorts` or `embed` path segment) relies on the
      platform's URL parser, so it comes in as `urlLookup`: `None` when the
      parser threw or no rule applied. The steps, in order:
      blank input gives ""; a bare id without "http" comes back as it is; then
      the URL rules; then the leftmost `v=` id anywhere in the text; and when
      nothing matched the trimmed input comes back unchanged, not "". */
  function ExtractYouTubeId(input: string, urlLookup: string -> Option<string>): (id: string)
    ensures IsBlank(input) ==> id == ""
    ensures var raw := Trim(input);
      IsBareId(raw) && !Contains(raw, "http") ==> id == raw
    ensures var raw := Trim(input);
      !IsBlank(input) && !(IsBareId(raw) && !Contains(raw, "http")) ==>
        id == match urlLookup(raw)
              case Some(v) => v
              case None => if VParam(raw).Some? then VParam(raw).value else raw
  {
    var raw := Trim(input);
    if raw == "" then ""
    else if IsBareId(raw) && !Contains(raw, "http") then raw
    else match urlLookup(raw)
      case Some(v) => v
      case None =>
        match VParam(raw)
        case Some(m) => m
        case None => raw
  }

  /** Without a URL rule and without a `v=` id, the trimmed input is passed
      through instead of being blanked, so the field is never silently emptied. */
  lemma UnresolvedInputPassesThrough(input: string, urlLookup: string -> Option<string>)
    requires urlLookup(Trim(input)).None?
    requires forall i :: 0 <= i < |Trim(input)| ==> !VMatchAt(Trim(input), i)
    ensures ExtractYouTubeId(input, urlLookup) == Trim(input)
  {
  }

  /** An id found by the `v=` fallback always has the shape of a bare id, so
      it passes the validator's length rule. */
  lemma FallbackIdIsBare(input: string, urlLookup: string -> Option<string>)
    requires !IsBlank(input)
    requires urlLookup(Trim(input)).None?
    requires VParam(Trim(input)).Some?
    ensures IsBareId(ExtractYouTubeId(input, urlLookup))
    ensures Utf16Length(Trim(ExtractYouTubeId(input, urlLookup))) >= 6
  {
    var raw := Trim(input);
    MatchedIsNotBare(raw);
    var m := VParam(raw).value;
    assert ExtractYouTubeId(input, urlLookup) == m;
    BareIdIsTrimmed(m);
  }

  /** Text holding a `v=` match contains '=', so it is never a bare id. */
  lemma MatchedIsNotBare(raw: string)
    requires VParam(raw).Some?
    ensures !IsBareId(raw)
  {
    var i := FirstVMatch(raw, 0);
    assert !IsIdChar(raw[i + 1]);
  }

  /** A bare id has no white space at its ends. */
  lemma BareIdIsTrimmed(m: string)
    requires IsBareId(m)
    ensures Trim(m) == m
    ensures Utf16Length(m) >= 6
  {
    assert IsIdChar(m[0]) && IsIdChar(m[|m| - 1]);
  }

  /** `youtubeCoverUrl`: the thumbnail address of a video, or "" for no id. */
  function CoverUrl(id: string): (url: string)
    ensures url == "" <==> id == ""
    ensures id != "" ==> CoverId(url) == id
  {
    if id == "" then "" else CoverPrefix + id + CoverSuffix
  }

  const CoverPrefix: string := "https://img.youtube.com/vi/"
  const CoverSuffix: string := "/mqdefault.jpg"

  /** Reads the video id back out of a thumbnail address. */
  function CoverId(url: string): string
  {
    if |url| >= |CoverPrefix| + |CoverSuffix| then url[|CoverPrefix|..|url| - |CoverSuffix|] else ""
  }
}
