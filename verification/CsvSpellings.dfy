/** The files src/storage/storage.c reads: rows whose fields stand in quotes or without, lines that end in
    any number of carriage returns and a newline, and blank lines between them.
 */
module CsvSpellings {
  import opened Common
  import opened Text
  import opened Csv

  /** A stretch of a field, in quotes or without. */
  datatype Part = Part(text: string, quoted: bool)

  /** A field as a file may spell it. */
  type Field = seq<Part>

  /** The text with every quote written twice. */
  function Doubled(text: string): string {
    if text == "" then ""
    else
      var n := |text| - 1;
      Doubled(text[..n]) + (if text[n] == '"' then "\"\"" else [text[n]])
  }

  function ShowPart(p: Part): string {
    if p.quoted then "\"" + Doubled(p.text) + "\"" else p.text
  }

  function ShowField(f: Field): string {
    if f == [] then "" else ShowPart(f[0]) + ShowField(f[1..])
  }

  function ValueOf(f: Field): string {
    if f == [] then "" else f[0].text + ValueOf(f[1..])
  }

  /** Without quotes there is no quote, comma or line end. */
  predicate PartOk(p: Part) {
    && '\n' !in p.text && '\0' !in p.text
    && (!p.quoted ==> p.text != "" && '"' !in p.text && ',' !in p.text && '\r' !in p.text)
  }

  /** Two quoted stretches side by side would be one with a quote in it. */
  predicate FieldOk(f: Field) {
    && (forall i :: 0 <= i < |f| ==> PartOk(f[i]))
    && forall i :: 0 <= i < |f| - 1 ==> !f[i].quoted || !f[i + 1].quoted
  }

  predicate FieldsOk(fs: seq<Field>) {
    forall i :: 0 <= i < |fs| ==> FieldOk(fs[i])
  }

  function ShowFields(fs: seq<Field>): string {
    if fs == [] then ""
    else if |fs| == 1 then ShowField(fs[0])
    else ShowField(fs[0]) + "," + ShowFields(fs[1..])
  }

  function Values(fs: seq<Field>): (r: Row)
    ensures |r| == |fs|
  {
    seq(|fs|, i requires 0 <= i < |fs| => ValueOf(fs[i]))
  }

  // ---------------------------------------------------------------- what the writer writes

  lemma {:induction false} EscapedLast(text: string, c: char)
    ensures Escaped(text + [c]) == Escaped(text) + (if c == '"' then "\"\"" else [c])
    decreases |text|
  {
    var s := text + [c];
    if text == "" {
      assert s == [c] && s[1..] == "" && Escaped("") == "";
    } else {
      assert s[0] == text[0] && s[1..] == text[1..] + [c];
      EscapedLast(text[1..], c);
    }
  }

  lemma {:induction false} EscapedIsDoubled(text: string)
    ensures Escaped(text) == Doubled(text)
  {
    if text != "" {
      var n := |text| - 1;
      EscapedIsDoubled(text[..n]);
      EscapedLast(text[..n], text[n]);
      assert text == text[..n] + [text[n]];
    }
  }

  lemma QuotedIsShown(text: string)
    ensures Quoted(text) == "\"" + Doubled(text) + "\""
  {
    EscapedIsDoubled(text);
  }

  /** Every value as one quoted stretch. */
  function InQuotes(row: Row): (fs: seq<Field>)
    ensures |fs| == |row|
  {
    seq(|row|, i requires 0 <= i < |row| => [Part(row[i], true)])
  }

  /** append_csv_row writes every field in quotes, quotes in it twice, with commas between the fields. */
  lemma {:induction false} EncodedIsShown(row: Row)
    ensures EncodeRow(row) == ShowFields(InQuotes(row))
  {
    if row != [] {
      var fs := InQuotes(row);
      QuotedIsShown(row[0]);
      OnePart(Part(row[0], true));
      assert fs[1..] == InQuotes(row[1..]);
      EncodedIsShown(row[1..]);
    }
  }

  lemma OnePart(p: Part)
    ensures ShowField([p]) == ShowPart(p)
  {
    assert [p][1..] == [] && ShowField([]) == "" && ShowPart(p) + "" == ShowPart(p);
  }

  // ---------------------------------------------------------------- one line

  lemma ScanPart(p: Part, rest: string, buf: string, done: Row)
    requires PartOk(p) && (p.quoted ==> rest == "" || rest[0] != '"')
    ensures Scan(ShowPart(p) + rest, false, buf, done) == Scan(rest, false, buf + p.text, done)
  {
    if p.quoted {
      QuotedIsShown(p.text);
      ScanQuoted(p.text, rest, buf, done);
    } else {
      ScanPlain(p.text, rest, buf, done);
    }
  }

  /** A field that does not start with a quoted stretch does not start with a quote. */
  lemma FieldHead(f: Field, rest: string)
    requires FieldOk(f) && (f == [] || !f[0].quoted) && (rest == "" || rest[0] != '"')
    ensures ShowField(f) + rest == "" || (ShowField(f) + rest)[0] != '"'
  {
    if f == [] {
      assert ShowField(f) + rest == rest;
    } else {
      assert PartOk(f[0]);
      assert (ShowField(f) + rest)[0] == f[0].text[0];
    }
  }

  lemma {:induction false} ScanField(f: Field, rest: string, buf: string, done: Row)
    requires FieldOk(f) && (rest == "" || rest[0] != '"')
    ensures Scan(ShowField(f) + rest, false, buf, done) == Scan(rest, false, buf + ValueOf(f), done)
    decreases |f|
  {
    hide ShowPart, PartOk, Scan;
    if f == [] {
      assert ShowField(f) + rest == rest && buf + "" == buf;
    } else {
      var tail := f[1..];
      assert PartOk(f[0]) && FieldOk(tail);
      assert ShowField(f) + rest == ShowPart(f[0]) + (ShowField(tail) + rest);
      if f[0].quoted {
        FieldHead(tail, rest);
      }
      ScanPart(f[0], ShowField(tail) + rest, buf, done);
      ScanField(tail, rest, buf + f[0].text, done);
      assert buf + f[0].text + ValueOf(tail) == buf + (f[0].text + ValueOf(tail));
    }
  }

  lemma {:induction false} ScanFields(fs: seq<Field>, done: Row)
    requires fs != [] && FieldsOk(fs)
    ensures Scan(ShowFields(fs), false, "", done) == Some(done + TrimAll(Values(fs)))
    decreases |fs|
  {
    hide FieldOk, ShowField, Trim, ValueOf;
    var f := fs[0];
    assert FieldOk(f);
    if |fs| == 1 {
      ScanField(f, "", "", done);
      assert "" + ValueOf(f) == ValueOf(f);
      assert ShowField(f) + "" == ShowField(f);
      assert TrimAll(Values(fs)) == [Trim(ValueOf(f))];
    } else {
      var tail := fs[1..];
      var rest := "," + ShowFields(tail);
      assert ShowFields(fs) == ShowField(f) + rest;
      ScanField(f, rest, "", done);
      assert "" + ValueOf(f) == ValueOf(f);
      assert rest[1..] == ShowFields(tail);
      ScanFields(tail, done + [Trim(ValueOf(f))]);
      assert TrimAll(Values(fs)) == [Trim(ValueOf(f))] + TrimAll(Values(tail));
      assert done + [Trim(ValueOf(f))] + TrimAll(Values(tail)) == done + TrimAll(Values(fs));
    }
  }

  /** Any mixture of quoted and bare fields is read as the fields, trimmed. */
  lemma FieldsParse(fs: seq<Field>)
    requires fs != [] && FieldsOk(fs)
    ensures ParseLine(ShowFields(fs), |fs|) == Some(TrimAll(Values(fs)))
  {
    hide Scan, FieldOk;
    ScanFields(fs, []);
    assert [] + TrimAll(Values(fs)) == TrimAll(Values(fs));
  }

  /** parse_csv_line accepts no other number of fields. */
  lemma WrongCountFails(fs: seq<Field>, expected: int)
    requires fs != [] && FieldsOk(fs) && expected != |fs|
    ensures ParseLine(ShowFields(fs), expected).None?
  {
    hide Scan, FieldOk;
    ScanFields(fs, []);
  }

  // ---------------------------------------------------------------- a file of lines

  datatype Line = Data(fields: seq<Field>, ends: string) | Blank(ends: string)

  function LineText(l: Line): string {
    (if l.Data? then ShowFields(l.fields) else "") + l.ends
  }

  /** A line of the expected number of fields that fits the line buffer. */
  predicate LineOk(l: Line, expected: int) {
    && OnlyReturns(l.ends) && |LineText(l)| < 8192
    && (l.Data? ==> l.fields != [] && |l.fields| == expected && FieldsOk(l.fields) && ShowFields(l.fields) != "")
  }

  /** The lines, the last of them ended or not. */
  function ShowFile(lines: seq<Line>, ended: bool): string {
    if lines == [] then ""
    else if |lines| == 1 && !ended then LineText(lines[0])
    else LineText(lines[0]) + "\n" + ShowFile(lines[1..], ended)
  }

  /** The rows of the lines that have one, trimmed. */
  function RowsOf(lines: seq<Line>): seq<Row> {
    if lines == [] then []
    else (if lines[0].Data? then [TrimAll(Values(lines[0].fields))] else []) + RowsOf(lines[1..])
  }

  lemma {:induction false} StripTail(s: string, ends: string)
    requires OnlyReturns(ends)
    ensures StripEol(s + ends) == StripEol(s)
    decreases |ends|
  {
    if ends == "" {
      assert s + ends == s;
    } else {
      var front := ends[..|ends| - 1];
      assert (s + ends)[..|s + ends| - 1] == s + front;
      StripTail(s, front);
    }
  }

  lemma {:induction false} DoubledChars(text: string, c: char)
    requires c != '"'
    ensures c in Doubled(text) <==> c in text
  {
    EscapedIsDoubled(text);
    EscapedChars(text, c);
  }

  lemma {:induction false} FieldChars(f: Field, c: char)
    requires FieldOk(f) && c != '"' && forall i :: 0 <= i < |f| ==> c !in f[i].text
    ensures c !in ShowField(f)
    decreases |f|
  {
    hide PartOk;
    if f != [] {
      DoubledChars(f[0].text, c);
      assert c !in ShowPart(f[0]);
      FieldChars(f[1..], c);
    }
  }

  lemma {:induction false} FieldsChars(fs: seq<Field>, c: char)
    requires FieldsOk(fs) && (c == '\n' || c == '\0')
    ensures c !in ShowFields(fs)
  {
    hide ShowField;
    if fs != [] {
      assert forall i :: 0 <= i < |fs[0]| ==> PartOk(fs[0][i]);
      FieldChars(fs[0], c);
      if |fs| > 1 {
        FieldsChars(fs[1..], c);
      }
    }
  }

  predicate EndsSoft(s: string) {
    s != "" && (s[|s| - 1] == '\r' || s[|s| - 1] == '\n')
  }

  lemma EndOfBoth(a: string, b: string)
    requires !EndsSoft(a) && !EndsSoft(b)
    ensures !EndsSoft(a + b)
  {
    if b == "" {
      assert a + b == a;
    }
  }

  /** No line end at the end of a field, whichever way it is written. */
  lemma {:induction false} FieldEnds(f: Field)
    requires FieldOk(f)
    ensures !EndsSoft(ShowField(f))
    decreases |f|
  {
    if f != [] {
      assert PartOk(f[0]);
      assert !EndsSoft(ShowPart(f[0]));
      hide ShowPart, EndsSoft, PartOk;
      FieldEnds(f[1..]);
      EndOfBoth(ShowPart(f[0]), ShowField(f[1..]));
    }
  }

  lemma {:induction false} FieldsEnd(fs: seq<Field>)
    requires FieldsOk(fs)
    ensures !EndsSoft(ShowFields(fs))
  {
    assert !EndsSoft(",") && !EndsSoft("");
    hide ShowField, EndsSoft, FieldOk;
    if fs != [] {
      FieldEnds(fs[0]);
      if |fs| > 1 {
        FieldsEnd(fs[1..]);
        EndOfBoth(ShowField(fs[0]), ",");
        EndOfBoth(ShowField(fs[0]) + ",", ShowFields(fs[1..]));
      }
    }
  }

  /** One ended line that fits: a row, or nothing if it is blank. */
  lemma RawLineRead(raw: string, expected: int)
    requires '\n' !in raw && '\0' !in raw && |raw| < 8192
    ensures ReadRows(raw + "\n", expected) ==
      var line := StripEol(raw);
      if line == "" then Some([])
      else if ParseLine(line, expected).Some? then Some([ParseLine(line, expected).value]) else None
  {
    hide ParseLine;
    var text := raw + "\n";
    assert text[..|raw|] == raw;
    FgetsStops(text, LINE_BUFFER - 1, |raw|);
    assert ReadRows("", expected) == Some([]);
    BlankLine(expected);
    if |raw| + 1 < LINE_BUFFER {
      assert text[..|raw| + 1] == text && AfterLine(text) == "";
      assert NextLine(text) == StripEol(text) == StripEol(raw);
    } else {
      assert NextLine(text) == StripEol(raw) && AfterLine(text) == "\n";
    }
    if ParseLine(StripEol(raw), expected).Some? {
      var row := ParseLine(StripEol(raw), expected).value;
      assert [row] + [] == [row];
    }
  }

  /** The same for a last line that is not ended. */
  lemma RawLastRead(raw: string, expected: int)
    requires '\n' !in raw && '\0' !in raw && |raw| < 8192
    ensures ReadRows(raw, expected) == ReadRows(raw + "\n", expected)
  {
    RawLineRead(raw, expected);
    hide ParseLine;
    assert ReadRows("", expected) == Some([]);
    if raw != "" {
      FgetsAll(raw, LINE_BUFFER - 1);
      assert raw[..|raw|] == raw && AfterLine(raw) == "";
      assert NextLine(raw) == StripEol(raw);
      if StripEol(raw) != "" && ParseLine(StripEol(raw), expected).Some? {
        var row := ParseLine(StripEol(raw), expected).value;
        assert [row] + [] == [row];
      }
    }
  }

  /** The fields of a line, or nothing. */
  function Body(l: Line): string {
    if l.Data? then ShowFields(l.fields) else ""
  }

  lemma LineBody(l: Line, expected: int)
    requires LineOk(l, expected)
    ensures LineText(l) == Body(l) + l.ends && OnlyReturns(l.ends) && |LineText(l)| < 8192
    ensures !EndsSoft(Body(l)) && '\n' !in Body(l) && '\0' !in Body(l)
    ensures l.Data? ==> Body(l) != "" && ParseLine(Body(l), expected) == Some(TrimAll(Values(l.fields)))
  {
    hide ShowFields, ParseLine, FieldsOk, TrimAll, Values;
    if l.Data? {
      FieldsChars(l.fields, '\n');
      FieldsChars(l.fields, '\0');
      FieldsEnd(l.fields);
      FieldsParse(l.fields);
    }
  }

  lemma BodyStays(s: string)
    requires !EndsSoft(s)
    ensures StripEol(s) == s
  {
  }

  lemma ReturnsOnly(ends: string)
    requires OnlyReturns(ends)
    ensures '\n' !in ends && '\0' !in ends
  {
  }

  lemma LineRead(l: Line, expected: int)
    requires LineOk(l, expected)
    ensures '\n' !in LineText(l)
    ensures ReadRows(LineText(l) + "\n", expected) == Some(if l.Data? then [TrimAll(Values(l.fields))] else [])
    ensures ReadRows(LineText(l), expected) == ReadRows(LineText(l) + "\n", expected)
  {
    LineBody(l, expected);
    hide ParseLine, ReadRows, ShowFields, TrimAll, Values, LineOk, OnlyReturns, EndsSoft, StripEol, LineText;
    StripTail(Body(l), l.ends);
    BodyStays(Body(l));
    ReturnsOnly(l.ends);
    RawLineRead(LineText(l), expected);
    RawLastRead(LineText(l), expected);
  }

  lemma LineRows(l: Line, rest: seq<Line>)
    ensures RowsOf([l] + rest) == RowsOf([l]) + RowsOf(rest)
    ensures RowsOf([l]) == if l.Data? then [TrimAll(Values(l.fields))] else []
  {
    assert ([l] + rest)[1..] == rest && [l][1..] == [];
  }

  /** A file of such lines, the last of them ended or not, is read as its rows, trimmed, in order. */
  lemma {:induction false} FileRead(lines: seq<Line>, ended: bool, expected: int)
    requires forall i :: 0 <= i < |lines| ==> LineOk(lines[i], expected)
    ensures ReadRows(ShowFile(lines, ended), expected) == Some(RowsOf(lines))
  {
    hide ReadRows, LineOk, RowsOf, LineText, TrimAll, Values;
    NoLines(expected);
    if lines != [] {
      var l, rest := lines[0], lines[1..];
      LineRead(l, expected);
      LineRows(l, rest);
      assert lines == [l] + rest;
      if |lines| == 1 && !ended {
        assert rest == [] && RowsOf([l]) + [] == RowsOf([l]);
      } else {
        FileRead(rest, ended, expected);
        ReadRowsConcat(LineText(l) + "\n", ShowFile(rest, ended), expected);
      }
    }
  }

  lemma NoLines(expected: int)
    ensures RowsOf([]) == [] && ReadRows("", expected) == Some([])
  {
  }
}
