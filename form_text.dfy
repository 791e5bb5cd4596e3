/** The parsers that turn the text of a form field into lists: `linesToArray`
    (one entry per line), `csvToArray` (one entry per comma-separated item)
    and `parseLyrics` (one `time | text` pair per line). Each entry is
    trimmed and blank entries are dropped. */
module FormText {
  import opened Strings

  /** `.map(s => s.trim()).filter(Boolean)`. */
  function TrimNonBlank(parts: seq<string>): (r: seq<string>)
    ensures |r| <= |parts|
    ensures forall i :: 0 <= i < |r| ==> r[i] != [] && IsTrimmed(r[i])
  {
    if parts == [] then []
    else (if Trim(parts[0]) == [] then [] else [Trim(parts[0])]) + TrimNonBlank(parts[1..])
  }

  /** `(text || "").split(sep).map(s => s.trim()).filter(Boolean)`. */
  function Tokens(text: string, sep: char): (r: seq<string>)
    ensures forall i :: 0 <= i < |r| ==> r[i] != [] && IsTrimmed(r[i])
  {
    TrimNonBlank(Split(text, sep))
  }

  /** `linesToArray`. */
  function LinesToArray(text: string): (r: seq<string>)
    ensures forall i :: 0 <= i < |r| ==> r[i] != [] && IsTrimmed(r[i]) && '\n' !in r[i]
  {
    TokensHoldNoSeparator(text, '\n');
    Tokens(text, '\n')
  }

  /** `csvToArray`. */
  function CsvToArray(text: string): (r: seq<string>)
    ensures forall i :: 0 <= i < |r| ==> r[i] != [] && IsTrimmed(r[i]) && ',' !in r[i]
  {
    TokensHoldNoSeparator(text, ',');
    Tokens(text, ',')
  }

  lemma {:induction false} TrimNonBlankAppend(a: seq<string>, b: seq<string>)
    ensures TrimNonBlank(a + b) == TrimNonBlank(a) + TrimNonBlank(b)
  {
    if a != [] {
      assert (a + b)[1..] == a[1..] + b;
      TrimNonBlankAppend(a[1..], b);
    } else {
      assert a + b == b;
    }
  }

  lemma {:induction false} TrimNonBlankKeepsOut(parts: seq<string>, c: char)
    requires forall i :: 0 <= i < |parts| ==> c !in parts[i]
    ensures forall i :: 0 <= i < |TrimNonBlank(parts)| ==> c !in TrimNonBlank(parts)[i]
  {
    if parts != [] {
      TrimNonBlankKeepsOut(parts[1..], c);
    }
  }

  /** No entry holds the separator it was split on. */
  lemma TokensHoldNoSeparator(text: string, sep: char)
    ensures forall i :: 0 <= i < |Tokens(text, sep)| ==> sep !in Tokens(text, sep)[i]
  {
    TrimNonBlankKeepsOut(Split(text, sep), sep);
  }

  /** Entries come in the order of the pieces: the entries of a text made of
      two pieces and a separator are those of the first piece followed by those
      of the second. */
  lemma TokensAppend(a: string, b: string, sep: char)
    ensures Tokens(a + [sep] + b, sep) == Tokens(a, sep) + Tokens(b, sep)
  {
    SplitAppend(a, b, sep);
    TrimNonBlankAppend(Split(a, sep), Split(b, sep));
  }

  /** A single piece gives one trimmed entry, or none when it is blank. */
  lemma TokensOfPiece(piece: string, sep: char)
    requires sep !in piece
    ensures Tokens(piece, sep) == if IsBlank(piece) then [] else [Trim(piece)]
  {
    SplitNoSeparator(piece, sep);
  }

  /** Entries that are already clean (non-empty, trimmed, free of the
      separator) survive being joined and parsed again unchanged. */
  lemma TokensOfJoin(entries: seq<string>, sep: char)
    requires forall i :: 0 <= i < |entries| ==> entries[i] != [] && IsTrimmed(entries[i]) && sep !in entries[i]
    ensures Tokens(Join(entries, [sep]), sep) == entries
  {
    if entries == [] {
      assert Split("", sep) == [""];
    } else {
      SplitJoin(entries, sep);
      TrimNonBlankClean(entries);
    }
  }

  lemma {:induction false} TrimNonBlankClean(entries: seq<string>)
    requires forall i :: 0 <= i < |entries| ==> entries[i] != [] && IsTrimmed(entries[i])
    ensures TrimNonBlank(entries) == entries
  {
    if entries != [] {
      TrimNonBlankClean(entries[1..]);
      assert entries == [entries[0]] + entries[1..];
    }
  }

  // ----- lyrics -----

  /** One lyric line: a time label (possibly empty) and the sung text. */
  datatype Lyric = Lyric(time: string, text: string)

  /** One row of the lyrics field: split on `|`; with no `|` the whole row is
      the text, otherwise the first part is the time and the rest, joined back
      with `|`, is the text. */
  function ParseLyricRow(row: string): Lyric
  {
    var parts := Split(row, '|');
    if |parts| < 2 then Lyric("", Trim(row))
    else Lyric(Trim(parts[0]), Trim(Join(parts[1..], "|")))
  }

  /** `rows.map(ParseLyricRow)`. */
  function ParseLyricRows(rows: seq<string>): (r: seq<Lyric>)
    ensures |r| == |rows|
    ensures forall i :: 0 <= i < |rows| ==> r[i] == ParseLyricRow(rows[i])
  {
    if rows == [] then [] else [ParseLyricRow(rows[0])] + ParseLyricRows(rows[1..])
  }

  /** `parseLyrics`: one lyric per entry of `linesToArray`, in order. */
  function ParseLyrics(text: string): seq<Lyric>
  {
    ParseLyricRows(LinesToArray(text))
  }

  /** A row without `|` is all text, with an empty time. */
  lemma LyricRowWithoutBar(row: string)
    requires '|' !in row
    ensures ParseLyricRow(row) == Lyric("", Trim(row))
  {
    SplitNoSeparator(row, '|');
  }

  /** A row is cut at its FIRST `|`: the time is what comes before it and the
      text is everything after it, later `|` included, each trimmed. */
  lemma LyricRowAtFirstBar(row: string, k: nat)
    requires k < |row| && row[k] == '|' && '|' !in row[..k]
    ensures ParseLyricRow(row) == Lyric(Trim(row[..k]), Trim(row[k + 1..]))
  {
    assert row == row[..k] + ['|'] + row[k + 1..];
    SplitAppend(row[..k], row[k + 1..], '|');
    SplitNoSeparator(row[..k], '|');
    var parts := Split(row, '|');
    assert parts == [row[..k]] + Split(row[k + 1..], '|');
    assert parts[1..] == Split(row[k + 1..], '|');
    JoinSplit(row[k + 1..], '|');
  }

  /** Lyrics come in line order: lyrics of two pieces of text joined by a line
      feed are those of the first piece followed by those of the second. */
  lemma ParseLyricsAppend(a: string, b: string)
    ensures ParseLyrics(a + "\n" + b) == ParseLyrics(a) + ParseLyrics(b)
  {
    TokensAppend(a, b, '\n');
    ParseLyricRowsAppend(LinesToArray(a), LinesToArray(b));
  }

  lemma {:induction false} ParseLyricRowsAppend(a: seq<string>, b: seq<string>)
    ensures ParseLyricRows(a + b) == ParseLyricRows(a) + ParseLyricRows(b)
  {
    if a == [] {
      assert a + b == b;
    } else {
      assert (a + b)[1..] == a[1..] + b;
      ParseLyricRowsAppend(a[1..], b);
    }
  }

  /** A single line gives one lyric, or none when it is blank. */
  lemma ParseLyricsOfLine(line: string)
    requires '\n' !in line
    ensures ParseLyrics(line) == if IsBlank(line) then [] else [ParseLyricRow(Trim(line))]
  {
    TokensOfPiece(line, '\n');
  }
}
