/** The string operations the admin form's JavaScript relies on, stated once:
    `String.prototype.trim`, `split` on a one-character separator,
    `Array.prototype.join`, `includes`, and the decimal text of an integer
    (`String(n)` for the integers the model uses as ids and row indexes). */
module Strings {

  /** The code points ECMAScript counts as WhiteSpace or LineTerminator, i.e.
      exactly those that `trim` removes. */
  predicate IsSpace(c: char)
  {
    c == ' ' || c == '\t' || c == '\n' || c == '\r' || c == '\U{000B}' || c == '\U{000C}'
    || c == '\U{00A0}' || c == '\U{1680}' || ('\U{2000}' <= c <= '\U{200A}')
    || c == '\U{2028}' || c == '\U{2029}' || c == '\U{202F}' || c == '\U{205F}'
    || c == '\U{3000}' || c == '\U{FEFF}'
  }

  /** A string with no white space at either end: what `trim` returns. */
  predicate IsTrimmed(s: string)
  {
    s == [] || (!IsSpace(s[0]) && !IsSpace(s[|s| - 1]))
  }

  predicate IsBlank(s: string)
  {
    forall i :: 0 <= i < |s| ==> IsSpace(s[i])
  }

  /** `r` is `s` with blank text removed from its ends, and nothing else. */
  predicate EdgesCut(s: string, r: string)
  {
    exists a, b :: 0 <= a <= b <= |s| && r == s[a..b] && IsBlank(s[..a]) && IsBlank(s[b..])
  }

  /** `s.trim()`: white space goes from both ends. The result is `s` with
      blank ends cut off and has no white space at its ends, which together
      fix it; it is empty exactly when `s` is blank, and a trimmed string is
      left alone. */
  function Trim(s: string): (r: string)
    ensures IsTrimmed(r)
    ensures EdgesCut(s, r)
    ensures |r| <= |s|
    ensures forall c :: c in r ==> c in s
    ensures r == [] <==> IsBlank(s)
    ensures IsTrimmed(s) ==> r == s
    decreases |s|
  {
    if s == [] then
      assert s[0..0] == [] && s[..0] == [] && s[0..] == [];
      []
    else if IsSpace(s[0]) then
      var t := s[1..];
      assert IsBlank(s) <==> IsBlank(t) by {
        if IsBlank(t) {
          forall i | 0 <= i < |s| ensures IsSpace(s[i]) {
            if i > 0 { assert s[i] == t[i - 1]; }
          }
        }
      }
      var r := Trim(t);
      CutAfterLeadingSpace(s, r);
      r
    else if IsSpace(s[|s| - 1]) then
      var t := s[..|s| - 1];
      assert t[0] == s[0];
      var r := Trim(t);
      CutBeforeTrailingSpace(s, r);
      r
    else
      assert s[0..|s|] == s && s[..0] == [] && s[|s|..] == [];
      s
  }

  /** Cutting the ends of `s` without its leading space cuts the ends of `s`. */
  lemma CutAfterLeadingSpace(s: string, r: string)
    requires |s| >= 1 && IsSpace(s[0]) && EdgesCut(s[1..], r)
    ensures EdgesCut(s, r)
  {
    var t := s[1..];
    var a, b :| 0 <= a <= b <= |t| && r == t[a..b] && IsBlank(t[..a]) && IsBlank(t[b..]);
    BlankAfterSpace(s, a);
    assert s[a + 1..b + 1] == t[a..b] && s[b + 1..] == t[b..];
    CutAt(s, r, a + 1, b + 1);
  }

  /** A space followed by a blank prefix is a blank prefix. */
  lemma BlankAfterSpace(s: string, a: nat)
    requires a < |s| && IsSpace(s[0]) && IsBlank(s[1..][..a])
    ensures IsBlank(s[..a + 1])
  {
    var p := s[..a + 1];
    forall i | 0 <= i < |p| ensures IsSpace(p[i]) {
      if i > 0 { assert p[i] == s[1..][..a][i - 1]; }
    }
  }

  /** Cutting blank ends at `a` and `b`. */
  lemma CutAt(s: string, r: string, a: nat, b: nat)
    requires a <= b <= |s| && r == s[a..b] && IsBlank(s[..a]) && IsBlank(s[b..])
    ensures EdgesCut(s, r)
  {
  }

  /** Cutting the ends of `s` without its trailing space cuts the ends of `s`. */
  lemma CutBeforeTrailingSpace(s: string, r: string)
    requires |s| >= 1 && IsSpace(s[|s| - 1]) && EdgesCut(s[..|s| - 1], r)
    ensures EdgesCut(s, r)
  {
    var t := s[..|s| - 1];
    var a, b :| 0 <= a <= b <= |t| && r == t[a..b] && IsBlank(t[..a]) && IsBlank(t[b..]);
    BlankBeforeSpace(s, b);
    assert s[a..b] == t[a..b] && s[..a] == t[..a];
    CutAt(s, r, a, b);
  }

  /** A blank suffix followed by a space is a blank suffix. */
  lemma BlankBeforeSpace(s: string, b: nat)
    requires b < |s| && IsSpace(s[|s| - 1]) && IsBlank(s[..|s| - 1][b..])
    ensures IsBlank(s[b..])
  {
    var p := s[b..];
    var q := s[..|s| - 1][b..];
    forall i | 0 <= i < |p| ensures IsSpace(p[i]) {
      if i < |q| { assert p[i] == q[i]; }
    }
  }

  /** Only one trimmed string is `s` with blank ends cut off, so `Trim`'s
      contract fixes its result: any such string is `Trim(s)`. */
  lemma TrimIsTheOnlyCut(s: string, r: string)
    requires EdgesCut(s, r) && IsTrimmed(r)
    ensures r == Trim(s)
  {
    CutsAgree(s, r, Trim(s));
  }

  /** Two trimmed cuts of the same text are the same text. */
  lemma CutsAgree(s: string, r: string, t: string)
    requires EdgesCut(s, r) && IsTrimmed(r)
    requires EdgesCut(s, t) && IsTrimmed(t)
    ensures r == t
  {
    var a1, b1 :| 0 <= a1 <= b1 <= |s| && r == s[a1..b1] && IsBlank(s[..a1]) && IsBlank(s[b1..]);
    var a2, b2 :| 0 <= a2 <= b2 <= |s| && t == s[a2..b2] && IsBlank(s[..a2]) && IsBlank(s[b2..]);
    CutsAgreeAt(s, r, t, a1, b1, a2, b2);
  }

  lemma CutsAgreeAt(s: string, r: string, t: string, a1: nat, b1: nat, a2: nat, b2: nat)
    requires a1 <= b1 <= |s| && r == s[a1..b1] && IsBlank(s[..a1]) && IsBlank(s[b1..]) && IsTrimmed(r)
    requires a2 <= b2 <= |s| && t == s[a2..b2] && IsBlank(s[..a2]) && IsBlank(s[b2..]) && IsTrimmed(t)
    ensures r == t
  {
    if r == [] || t == [] {
      CutOfBlank(s, r, a1, b1);
      CutOfBlank(s, t, a2, b2);
    } else {
      SameStart(s, a1, b1, a2);
      SameStart(s, a2, b2, a1);
      SameEnd(s, a1, b1, b2);
      SameEnd(s, a2, b2, b1);
    }
  }

  /** When one cut is empty the text is blank, so every trimmed cut is empty. */
  lemma CutOfBlank(s: string, r: string, a: nat, b: nat)
    requires a <= b <= |s| && r == s[a..b] && IsBlank(s[..a]) && IsBlank(s[b..]) && IsTrimmed(r)
    ensures r == [] <==> IsBlank(s)
  {
    if r == [] {
      assert a == b;
      forall i | 0 <= i < |s| ensures IsSpace(s[i]) {
        if i < a { assert s[i] == s[..a][i]; } else { assert s[i] == s[b..][i - b]; }
      }
    }
  }

  /** A blank prefix ends no later than a non-empty trimmed cut starts. */
  lemma SameStart(s: string, a: nat, b: nat, a': nat)
    requires a < b <= |s| && IsTrimmed(s[a..b]) && a' <= |s| && IsBlank(s[..a'])
    ensures a' <= a
  {
    assert s[a..b][0] == s[a];
  }

  /** A blank suffix starts no earlier than a non-empty trimmed cut ends. */
  lemma SameEnd(s: string, a: nat, b: nat, b': nat)
    requires a < b <= |s| && IsTrimmed(s[a..b]) && b' <= |s| && IsBlank(s[b'..])
    ensures b' >= b
  {
    assert s[a..b][b - 1 - a] == s[b - 1];
  }

  /** `s.includes(t)`. */
  predicate Contains(s: string, t: string)
    decreases |s|
  {
    (|t| <= |s| && s[..|t|] == t) || (|s| > 0 && Contains(s[1..], t))
  }

  /** `s.split(sep)` for a one-character separator: like JavaScript, it always
      yields at least one part (`"".split(",")` is `[""]`). */
  function Split(s: string, sep: char): (parts: seq<string>)
    ensures |parts| >= 1
    ensures forall i :: 0 <= i < |parts| ==> sep !in parts[i]
  {
    if |s| == 0 then [""]
    else
      var rest := Split(s[1..], sep);
      if s[0] == sep then [""] + rest else [[s[0]] + rest[0]] + rest[1..]
  }

  /** `parts.join(sep)`; the empty array joins to the empty string. */
  function Join(parts: seq<string>, sep: string): string
  {
    if |parts| == 0 then ""
    else if |parts| == 1 then parts[0]
    else parts[0] + sep + Join(parts[1..], sep)
  }

  /** Splitting and joining back on the same separator gives the text back. */
  lemma {:induction false} JoinSplit(s: string, sep: char)
    ensures Join(Split(s, sep), [sep]) == s
  {
    if |s| > 0 {
      var tail := s[1..];
      var rest := Split(tail, sep);
      JoinSplit(tail, sep);
      assert s == [s[0]] + tail;
      if s[0] == sep {
        var parts := [""] + rest;
        assert Split(s, sep) == parts;
        assert parts[1..] == rest;
        assert Join(parts, [sep]) == "" + [sep] + Join(rest, [sep]);
      } else {
        var parts := [[s[0]] + rest[0]] + rest[1..];
        assert Split(s, sep) == parts;
        if |rest| == 1 {
          assert Join(parts, [sep]) == [s[0]] + rest[0];
        } else {
          var more := Join(rest[1..], [sep]);
          assert parts[1..] == rest[1..];
          assert Join(parts, [sep]) == ([s[0]] + rest[0]) + [sep] + more;
          assert Join(rest, [sep]) == rest[0] + [sep] + more;
          assert ([s[0]] + rest[0]) + [sep] + more == [s[0]] + (rest[0] + [sep] + more);
        }
      }
    }
  }

  /** A piece with no separator splits into itself. */
  lemma {:induction false} SplitNoSeparator(s: string, sep: char)
    requires sep !in s
    ensures Split(s, sep) == [s]
  {
    if |s| > 0 {
      assert sep !in s[1..] by {
        forall c | c in s[1..] ensures c != sep { assert c in s; }
      }
      SplitNoSeparator(s[1..], sep);
      assert s == [s[0]] + s[1..];
    }
  }

  /** A separator splits the text into the parts before it followed by the
      parts after it. */
  lemma {:induction false} SplitAppend(a: string, b: string, sep: char)
    ensures Split(a + [sep] + b, sep) == Split(a, sep) + Split(b, sep)
  {
    var s := a + [sep] + b;
    if |a| == 0 {
      assert s[1..] == b;
    } else {
      assert s[1..] == a[1..] + [sep] + b;
      SplitAppend(a[1..], b, sep);
    }
  }

  /** The text has exactly one part when it holds no separator. */
  lemma {:induction false} SplitSinglePart(s: string, sep: char)
    ensures |Split(s, sep)| == 1 <==> sep !in s
  {
    if sep !in s {
      SplitNoSeparator(s, sep);
    } else {
      var k :| 0 <= k < |s| && s[k] == sep;
      assert s == s[..k] + [sep] + s[k + 1..];
      SplitAppend(s[..k], s[k + 1..], sep);
    }
  }

  /** Joining parts that hold no separator and splitting again gives the parts back. */
  lemma {:induction false} SplitJoin(parts: seq<string>, sep: char)
    requires |parts| >= 1
    requires forall i :: 0 <= i < |parts| ==> sep !in parts[i]
    ensures Split(Join(parts, [sep]), sep) == parts
  {
    if |parts| == 1 {
      SplitNoSeparator(parts[0], sep);
    } else {
      SplitJoin(parts[1..], sep);
      SplitNoSeparator(parts[0], sep);
      SplitAppend(parts[0], Join(parts[1..], [sep]), sep);
      assert parts == [parts[0]] + parts[1..];
    }
  }

  /** One decimal digit. */
  function DigitChar(d: nat): (c: char)
    requires d < 10
    ensures '0' <= c <= '9' && c as int - '0' as int == d
  {
    (d + '0' as int) as char
  }

  /** The value of a string of decimal digits (the reading direction of `String(n)`). */
  function DigitsValue(s: string): nat
  {
    if s == [] then 0
    else
      var d := s[|s| - 1] as int - '0' as int;
      DigitsValue(s[..|s| - 1]) * 10 + (if 0 <= d < 10 then d else 0)
  }

  predicate IsDigits(s: string)
  {
    forall i :: 0 <= i < |s| ==> '0' <= s[i] <= '9'
  }

  /** `String(n)` for a natural number: non-empty, digits only, no leading zero. */
  function NatToString(n: nat): (r: string)
    ensures |r| >= 1 && IsDigits(r)
    ensures r[0] == '0' ==> n == 0
    decreases n
  {
    if n < 10 then [DigitChar(n)] else NatToString(n / 10) + [DigitChar(n % 10)]
  }

  /** Reading back the digits of `String(n)` gives `n`. */
  lemma {:induction false} NatToStringRoundTrip(n: nat)
    ensures DigitsValue(NatToString(n)) == n
    decreases n
  {
    if n >= 10 {
      var s := NatToString(n / 10) + [DigitChar(n % 10)];
      assert s[..|s| - 1] == NatToString(n / 10);
      NatToStringRoundTrip(n / 10);
    }
  }

  /** `String(n)` for an integer. */
  function IntToString(n: int): (r: string)
    ensures |r| >= 1
    ensures n >= 0 ==> IsDigits(r)
    ensures n < 0 ==> r[0] == '-' && IsDigits(r[1..])
  {
    if n < 0 then "-" + NatToString(-n) else NatToString(n)
  }

  /** The text of an integer starts with a minus sign exactly when it is negative. */
  lemma IntToStringSign(n: int)
    ensures IntToString(n)[0] == '-' <==> n < 0
  {
    if n >= 0 {
      assert '0' <= IntToString(n)[0] <= '9';
    }
  }

  /** Distinct natural numbers have distinct decimal texts. */
  lemma NatToStringInjective(a: nat, b: nat)
    requires NatToString(a) == NatToString(b)
    ensures a == b
  {
    NatToStringRoundTrip(a);
    NatToStringRoundTrip(b);
  }

  /** Distinct integers have distinct decimal texts, so comparing ids by their
      text (as `String(id)` does) agrees with comparing the numbers. */
  lemma IntToStringInjective(m: int, n: int)
    requires IntToString(m) == IntToString(n)
    ensures m == n
  {
    IntToStringSign(m);
    IntToStringSign(n);
    if m < 0 {
      var a, b := NatToString(-m), NatToString(-n);
      assert IntToString(m) == "-" + a && IntToString(n) == "-" + b;
      assert ("-" + a)[1..] == a;
      assert ("-" + b)[1..] == b;
      NatToStringInjective(-m, -n);
    } else {
      NatToStringInjective(m, n);
    }
  }

  /** `s.length` in JavaScript: the number of UTF-16 code units, where a
      character above U+FFFF takes two. */
  function Utf16Length(s: string): (n: nat)
    ensures |s| <= n <= 2 * |s|
    ensures (forall i :: 0 <= i < |s| ==> s[i] as int <= 0xFFFF) ==> n == |s|
  {
    if s == [] then 0 else (if s[0] as int > 0xFFFF then 2 else 1) + Utf16Length(s[1..])
  }

  /** Three emoji are six code units long, as JavaScript counts them. */
  lemma {:induction false} Utf16LengthOfEmoji()
    ensures Utf16Length("\U{1F600}\U{1F600}\U{1F600}") == 6
  {
    var e := "\U{1F600}\U{1F600}\U{1F600}";
    assert e[1..][1..][1..] == [];
  }

  /** `[a-zA-Z0-9_-]`, the characters of a YouTube video id. */
  predicate IsIdChar(c: char)
  {
    ('a' <= c <= 'z') || ('A' <= c <= 'Z') || ('0' <= c <= '9') || c == '_' || c == '-'
  }
}
