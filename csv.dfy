/** The CSV writer of the admin form (`csvEscape`, `toCsv`), and a reader for
    the same dialect: section 2 of RFC 4180 (fields separated by commas,
    quoted fields with doubled inner quotes), with a line feed ending each
    record, as the writer emits. The reader is the writer's partner: reading
    what the writer wrote gives back the original fields. */
module Csv {
  import opened Strings

  /** The test `/[",\n\r;]/`: a field holding any of these characters is quoted.
      The semicolon is quoted too, for spreadsheet tools that split on it. */
  predicate NeedsQuotes(s: string)
  {
    '"' in s || ',' in s || '\n' in s || '\r' in s || ';' in s
  }

  /** `s.replace(/"/g, '""')`. */
  function DoubleQuotes(s: string): (r: string)
    ensures |r| >= |s|
    ensures '"' !in s ==> r == s
  {
    if s == [] then []
    else (if s[0] == '"' then "\"\"" else [s[0]]) + DoubleQuotes(s[1..])
  }

  /** `csvEscape`: a field is left alone exactly when it needs no quoting;
      otherwise it is wrapped in quotes with its inner quotes doubled. */
  function Escape(s: string): (r: string)
    ensures r == s <==> !NeedsQuotes(s)
    ensures NeedsQuotes(s) ==> |r| >= 2 && r[0] == '"' && r[|r| - 1] == '"'
  {
    var escaped := DoubleQuotes(s);
    if NeedsQuotes(s) then "\"" + escaped + "\"" else escaped
  }

  function EscapeAll(fields: seq<string>): (r: seq<string>)
    ensures |r| == |fields|
    ensures forall i :: 0 <= i < |fields| ==> r[i] == Escape(fields[i])
  {
    if fields == [] then [] else [Escape(fields[0])] + EscapeAll(fields[1..])
  }

  /** One record: the escaped fields joined by commas. */
  function Line(fields: seq<string>): string
  {
    Join(EscapeAll(fields), ",")
  }

  function Lines(rows: seq<seq<string>>): (r: seq<string>)
    ensures |r| == |rows|
    ensures forall i :: 0 <= i < |rows| ==> r[i] == Line(rows[i])
  {
    if rows == [] then [] else [Line(rows[0])] + Lines(rows[1..])
  }

  /** `toCsv`: the header record, a line feed, the data records separated by
      line feeds, and a final line feed. */
  function ToCsv(headers: seq<string>, rows: seq<seq<string>>): string
  {
    Line(headers) + "\n" + Join(Lines(rows), "\n") + "\n"
  }

  // ----- the reader -----

  /** What may follow a field: nothing, a comma or a line feed. */
  predicate EndsField(rest: string)
  {
    rest == [] || rest[0] == ',' || rest[0] == '\n'
  }

  /** An unquoted field: everything up to the next comma or line feed. */
  function ReadPlain(s: string): (r: (string, string))
    ensures r.0 + r.1 == s
    ensures EndsField(r.1)
  {
    if EndsField(s) then ("", s)
    else
      var (f, rest) := ReadPlain(s[1..]);
      ([s[0]] + f, rest)
  }

  /** The body of a quoted field, `s` starting just after the opening quote: a
      doubled quote stands for one quote and a single quote closes the field.
      An unterminated field runs to the end of the text. */
  function ReadQuoted(s: string): (r: (string, string))
    ensures |r.1| <= |s| && (s != [] ==> |r.1| < |s|)
  {
    if s == [] then ("", "")
    else if s[0] == '"' then
      if |s| > 1 && s[1] == '"' then
        var (f, rest) := ReadQuoted(s[2..]);
        ("\"" + f, rest)
      else ("", s[1..])
    else
      var (f, rest) := ReadQuoted(s[1..]);
      ([s[0]] + f, rest)
  }

  /** One field, quoted or not; returns its value and the text after it. */
  function ReadField(s: string): (r: (string, string))
    ensures |r.1| <= |s|
    ensures !EndsField(r.1) ==> |r.1| < |s|
  {
    if s != [] && s[0] == '"' then ReadQuoted(s[1..]) else ReadPlain(s)
  }

  /** One record: fields separated by commas, ended by a line feed or the end
      of the text (a stray character after a closing quote also ends it). */
  function ReadRecord(s: string): (r: (seq<string>, string))
    ensures |r.0| >= 1
    ensures |r.1| <= |s| && (s != [] ==> |r.1| < |s|)
    decreases |s|
  {
    var (f, rest) := ReadField(s);
    if rest != [] && rest[0] == ',' then
      var (fs, rest') := ReadRecord(rest[1..]);
      ([f] + fs, rest')
    else if rest != [] && rest[0] == '\n' then ([f], rest[1..])
    else ([f], rest)
  }

  /** All records of a CSV text. */
  function ReadCsv(s: string): seq<seq<string>>
    decreases |s|
  {
    if s == [] then [] else
      var (record, rest) := ReadRecord(s);
      [record] + ReadCsv(rest)
  }

  // ----- the writer and the reader agree -----

  lemma {:induction false} ReadPlainUnquoted(f: string, rest: string)
    requires ',' !in f && '\n' !in f
    requires EndsField(rest)
    ensures ReadPlain(f + rest) == (f, rest)
  {
    if f == [] {
      assert f + rest == rest;
    } else {
      assert f[0] in f;
      assert (f + rest)[1..] == f[1..] + rest;
      assert ',' !in f[1..] && '\n' !in f[1..] by {
        forall c | c in f[1..] ensures c in f { }
      }
      ReadPlainUnquoted(f[1..], rest);
      assert f == [f[0]] + f[1..];
    }
  }

  lemma {:induction false} ReadQuotedDoubled(f: string, rest: string)
    requires EndsField(rest)
    ensures ReadQuoted(DoubleQuotes(f) + "\"" + rest) == (f, rest)
  {
    if f == [] {
      assert DoubleQuotes(f) + "\"" + rest == "\"" + rest;
      ReadQuotedClose(rest);
    } else {
      ReadQuotedDoubled(f[1..], rest);
      ReadQuotedDoubledStep(f, rest);
    }
  }

  /** One step of the round trip: the first character of the field, doubled
      if it is a quote, is read back before the rest. */
  lemma ReadQuotedDoubledStep(f: string, rest: string)
    requires f != []
    requires ReadQuoted(DoubleQuotes(f[1..]) + "\"" + rest) == (f[1..], rest)
    ensures ReadQuoted(DoubleQuotes(f) + "\"" + rest) == (f, rest)
  {
    assert f == [f[0]] + f[1..];
    if f[0] == '"' {
      QuoteStep(f[1..], rest);
    } else {
      CharStep(f[0], f[1..], rest);
    }
  }

  lemma QuoteStep(g: string, rest: string)
    requires ReadQuoted(DoubleQuotes(g) + "\"" + rest) == (g, rest)
    ensures ReadQuoted(DoubleQuotes("\"" + g) + "\"" + rest) == ("\"" + g, rest)
  {
    var tail := DoubleQuotes(g) + "\"" + rest;
    assert DoubleQuotes("\"" + g) == "\"\"" + DoubleQuotes(g) by {
      assert ("\"" + g)[1..] == g;
    }
    assert DoubleQuotes("\"" + g) + "\"" + rest == "\"\"" + tail;
    ReadQuotedStepQuote(tail);
  }

  lemma CharStep(c: char, g: string, rest: string)
    requires c != '"'
    requires ReadQuoted(DoubleQuotes(g) + "\"" + rest) == (g, rest)
    ensures ReadQuoted(DoubleQuotes([c] + g) + "\"" + rest) == ([c] + g, rest)
  {
    var tail := DoubleQuotes(g) + "\"" + rest;
    assert DoubleQuotes([c] + g) == [c] + DoubleQuotes(g) by {
      assert ([c] + g)[1..] == g;
    }
    assert DoubleQuotes([c] + g) + "\"" + rest == [c] + tail;
    ReadQuotedStepChar(c, tail);
  }

  lemma ReadQuotedClose(rest: string)
    requires EndsField(rest)
    ensures ReadQuoted("\"" + rest) == ("", rest)
  {
    assert ("\"" + rest)[1..] == rest;
  }

  lemma ReadQuotedStepQuote(t: string)
    ensures ReadQuoted("\"\"" + t) == ("\"" + ReadQuoted(t).0, ReadQuoted(t).1)
  {
    assert ("\"\"" + t)[2..] == t;
  }

  lemma ReadQuotedStepChar(c: char, t: string)
    requires c != '"'
    ensures ReadQuoted([c] + t) == ([c] + ReadQuoted(t).0, ReadQuoted(t).1)
  {
    assert ([c] + t)[1..] == t;
  }

  /** Reading an escaped field gives the field back, whatever it holds, and
      stops exactly at its end. */
  lemma ReadFieldEscape(f: string, rest: string)
    requires EndsField(rest)
    ensures ReadField(Escape(f) + rest) == (f, rest)
  {
    if NeedsQuotes(f) {
      ReadQuotedField(f, rest);
    } else {
      ReadPlainField(f, rest);
    }
  }

  lemma ReadQuotedField(f: string, rest: string)
    requires EndsField(rest) && NeedsQuotes(f)
    ensures ReadField(Escape(f) + rest) == (f, rest)
  {
    var d := DoubleQuotes(f);
    var body := d + "\"" + rest;
    assert Escape(f) == "\"" + d + "\"";
    assert ("\"" + d + "\"") + rest == "\"" + body;
    ReadQuotedDoubled(f, rest);
    ReadFieldOpenQuote(body);
  }

  /** A field that starts with a quote is read as a quoted field. */
  lemma ReadFieldOpenQuote(body: string)
    ensures ReadField("\"" + body) == ReadQuoted(body)
  {
    assert ("\"" + body)[1..] == body;
  }

  lemma ReadPlainField(f: string, rest: string)
    requires EndsField(rest) && !NeedsQuotes(f)
    ensures ReadField(Escape(f) + rest) == (f, rest)
  {
    var s := f + rest;
    if f != [] {
      assert f[0] in f;
      assert s[0] == f[0];
    }
    assert ReadField(s) == ReadPlain(s);
    ReadPlainUnquoted(f, rest);
  }

  /** Reading one written record followed by a line feed gives its fields back. */
  lemma {:induction false} ReadRecordLine(fields: seq<string>, rest: string)
    requires |fields| >= 1
    ensures ReadRecord(Line(fields) + "\n" + rest) == (fields, rest)
  {
    var escaped := EscapeAll(fields);
    var s := Line(fields) + "\n" + rest;
    if |fields| == 1 {
      assert Line(fields) == Escape(fields[0]);
      assert s == Escape(fields[0]) + ("\n" + rest);
      ReadFieldEscape(fields[0], "\n" + rest);
      assert ("\n" + rest)[1..] == rest;
      assert fields == [fields[0]];
    } else {
      var tail := Line(fields[1..]) + "\n" + rest;
      assert EscapeAll(fields[1..]) == escaped[1..];
      assert Line(fields) == Escape(fields[0]) + "," + Line(fields[1..]);
      assert s == Escape(fields[0]) + ("," + tail);
      ReadFieldEscape(fields[0], "," + tail);
      assert ("," + tail)[1..] == tail;
      ReadRecordLine(fields[1..], rest);
      assert fields == [fields[0]] + fields[1..];
    }
  }

  /** Records written one per line, each ended by a line feed, read back as
      the same records. */
  lemma {:induction false} ReadCsvLines(rows: seq<seq<string>>)
    requires |rows| >= 1
    requires forall i :: 0 <= i < |rows| ==> |rows[i]| >= 1
    ensures ReadCsv(Join(Lines(rows), "\n") + "\n") == rows
  {
    var text := Join(Lines(rows), "\n") + "\n";
    if |rows| == 1 {
      assert text == Line(rows[0]) + "\n" + "";
      ReadRecordLine(rows[0], "");
    } else {
      var tail := Join(Lines(rows[1..]), "\n") + "\n";
      assert Lines(rows[1..]) == Lines(rows)[1..];
      assert text == Line(rows[0]) + "\n" + tail;
      ReadRecordLine(rows[0], tail);
      ReadCsvLines(rows[1..]);
      assert rows == [rows[0]] + rows[1..];
    }
  }

  /** The round trip of `toCsv`: a reader following the rules above gets back
      the header and every row, field for field, whatever the fields hold. A
      row needs at least one field (an empty row and a row of one empty field
      are written alike). */
  lemma ReadToCsv(headers: seq<string>, rows: seq<seq<string>>)
    requires |headers| >= 1
    requires |rows| >= 1
    requires forall i :: 0 <= i < |rows| ==> |rows[i]| >= 1
    ensures ReadCsv(ToCsv(headers, rows)) == [headers] + rows
  {
    var body := Join(Lines(rows), "\n") + "\n";
    assert ToCsv(headers, rows) == Line(headers) + "\n" + body;
    ReadRecordLine(headers, body);
    ReadCsvLines(rows);
  }

  /** With no rows, `toCsv` still writes the empty body between the two line
      feeds, so the table ends with a blank record after its header. */
  lemma EmptyTableEndsWithBlankRecord(headers: seq<string>)
    requires |headers| >= 1
    ensures ToCsv(headers, []) == Line(headers) + "\n\n"
    ensures ReadCsv(ToCsv(headers, [])) == [headers, [""]]
  {
    var text := ToCsv(headers, []);
    assert text == Line(headers) + "\n" + "\n";
    ReadRecordLine(headers, "\n");
    assert ReadRecord("\n") == ([""], "");
  }
}
