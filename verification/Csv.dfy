/** The CSV storage of src/storage/storage.c: one row a line, every field quoted on writing,
    quotes doubled as in section 2 of RFC 4180, fields trimmed on reading. */
module Csv {
  import opened Common
  import opened Text

  type Row = seq<string>

  const QUOTE := '"'

  // ---------------------------------------------------------------- encoding

  function Escaped(value: string): string {
    if value == "" then ""
    else (if value[0] == QUOTE then [QUOTE, QUOTE] else [value[0]]) + Escaped(value[1..])
  }

  function Quoted(value: string): string {
    [QUOTE] + Escaped(value) + [QUOTE]
  }

  function EncodeRow(fields: Row): string {
    if fields == [] then ""
    else if |fields| == 1 then Quoted(fields[0])
    else Quoted(fields[0]) + "," + EncodeRow(fields[1..])
  }

  function TrimAll(fields: Row): (r: Row)
    ensures |r| == |fields|
  {
    seq(|fields|, i requires 0 <= i < |fields| => Trim(fields[i]))
  }

  // ---------------------------------------------------------------- decoding

  /** parse_csv_line as a function of what is left of the line and of the scanner's state: whether
      it is inside quotes, the field being built and the fields already finished.  None is an
      unterminated quoted field. */
  function Scan(rest: string, inQuotes: bool, buf: string, done: Row): Option<Row>
    decreases |rest|
  {
    if rest == "" then
      if inQuotes then None else Some(done + [Trim(buf)])
    else if inQuotes then
      if rest[0] != QUOTE then Scan(rest[1..], true, buf + [rest[0]], done)
      else if |rest| > 1 && rest[1] == QUOTE then Scan(rest[2..], true, buf + [QUOTE], done)
      else Scan(rest[1..], false, buf, done)
    else if rest[0] == QUOTE then Scan(rest[1..], true, buf, done)
    else if rest[0] == ',' then Scan(rest[1..], false, "", done + [Trim(buf)])
    else Scan(rest[1..], false, buf + [rest[0]], done)
  }

  function ParseLine(line: string, expected: int): Option<Row> {
    var r := Scan(line, false, "", []);
    if r.Some? && |r.value| == expected then r else None
  }

  method TrimField(text: string) returns (r: string)
    ensures r == Trim(text)
  {
    hide TrimLeft, TrimRight, IsSpace;
    var start := 0;
    assert text[0..] == text;
    while start < |text| && IsSpace(text[start])
      invariant start <= |text| && TrimLeft(text[start..]) == TrimLeft(text)
    {
      LeftStep(text, start);
      start := start + 1;
    }
    LeftStop(text, start);
    var end := |text|;
    assert text[start..end] == text[start..];
    while end > start && IsSpace(text[end - 1])
      invariant start <= end <= |text| && TrimRight(text[start..end]) == TrimRight(text[start..])
    {
      RightStep(text, start, end);
      end := end - 1;
    }
    RightStop(text, start, end);
    r := text[start..end];
  }

  lemma LeftStep(s: string, i: nat)
    requires i < |s| && IsSpace(s[i])
    ensures TrimLeft(s[i..]) == TrimLeft(s[i + 1..])
  {
    assert s[i..][1..] == s[i + 1..];
  }

  lemma LeftStop(s: string, i: nat)
    requires i <= |s| && (i < |s| ==> !IsSpace(s[i]))
    ensures TrimLeft(s[i..]) == s[i..]
  {
  }

  lemma RightStep(s: string, i: nat, j: nat)
    requires i < j <= |s| && IsSpace(s[j - 1])
    ensures TrimRight(s[i..j]) == TrimRight(s[i..j - 1])
  {
    assert s[i..j][..j - i - 1] == s[i..j - 1];
  }

  lemma RightStop(s: string, i: nat, j: nat)
    requires i <= j <= |s| && (i < j ==> !IsSpace(s[j - 1]))
    ensures TrimRight(s[i..j]) == s[i..j]
  {
  }

  /** parse_csv_line: one pass with an in_quotes flag over a buffer of the line's length. */
  method ParseCsvLine(line: string, expected: int) returns (r: Option<Row>)
    requires IsCString(line)
    ensures r == ParseLine(line, expected)
  {
    var fields: Row := [];
    var buffer := new char[|line| + 1];
    var bufferLength, inQuotes, index := 0, false, 0;
    while index <= |line|
      invariant index <= |line| + 1 && bufferLength <= index && bufferLength <= |line|
      invariant index == |line| + 1 ==> !inQuotes && Scan(line, false, "", []) == Some(fields)
      invariant index <= |line| ==>
        Scan(line[index..], inQuotes, buffer[..bufferLength], fields) == Scan(line, false, "", [])
    {
      var ch := CharAt(line, index);
      ghost var rest, buf := line[index..], buffer[..bufferLength];
      assert index < |line| ==> rest[1..] == line[index + 1..];
      if inQuotes {
        if ch == QUOTE {
          if CharAt(line, index + 1) == QUOTE {
            assert rest[2..] == line[index + 2..];
            buffer[bufferLength] := QUOTE;
            bufferLength := bufferLength + 1;
            index := index + 1;
            assert buffer[..bufferLength] == buf + [QUOTE];
          } else {
            inQuotes := false;
          }
        } else if ch == '\0' {
          return None;
        } else {
          buffer[bufferLength] := ch;
          bufferLength := bufferLength + 1;
          assert buffer[..bufferLength] == buf + [ch];
        }
      } else if ch == QUOTE {
        inQuotes := true;
      } else if ch == ',' || ch == '\0' {
        var trimmed := TrimField(buffer[..bufferLength]);
        fields := fields + [trimmed];
        bufferLength := 0;
        assert buffer[..0] == "";
      } else {
        buffer[bufferLength] := ch;
        bufferLength := bufferLength + 1;
        assert buffer[..bufferLength] == buf + [ch];
      }
      index := index + 1;
    }
    r := if |fields| == expected then Some(fields) else None;
  }

  // ---------------------------------------------------------------- round trip

  /** Outside quotes everything but quotes and commas is taken over unchanged. */
  lemma {:induction false} ScanPlain(plain: string, rest: string, buf: string, done: Row)
    requires QUOTE !in plain && ',' !in plain
    ensures Scan(plain + rest, false, buf, done) == Scan(rest, false, buf + plain, done)
    decreases |plain|
  {
    if plain == "" {
      assert plain + rest == rest && buf + plain == buf;
    } else {
      assert (plain + rest)[1..] == plain[1..] + rest;
      ScanPlain(plain[1..], rest, buf + [plain[0]], done);
      assert buf + [plain[0]] + plain[1..] == buf + plain;
    }
  }

  /** Inside quotes an escaped value is taken over unchanged up to its closing quote. */
  lemma {:induction false} ScanEscaped(value: string, rest: string, buf: string, done: Row)
    requires rest == "" || rest[0] != QUOTE
    ensures Scan(Escaped(value) + [QUOTE] + rest, true, buf, done) == Scan(rest, false, buf + value, done)
    decreases |value|
  {
    var text := Escaped(value) + [QUOTE] + rest;
    if value == "" {
      assert text[1..] == rest;
      assert buf + value == buf;
    } else {
      var tail := Escaped(value[1..]) + [QUOTE] + rest;
      assert buf + [value[0]] + value[1..] == buf + value;
      if value[0] == QUOTE {
        assert text[2..] == tail;
      } else {
        assert text[1..] == tail;
      }
      ScanEscaped(value[1..], rest, buf + [value[0]], done);
    }
  }

  /** A written row is scanned to its fields, trimmed, even after white space. */
  lemma {:induction false} ScanRow(fields: Row, gap: string, done: Row)
    requires fields != [] && AllSpace(gap)
    ensures Scan(EncodeRow(fields), false, gap, done) == Some(done + TrimAll(fields))
    decreases |fields|
  {
    var v := fields[0];
    var tail := fields[1..];
    TrimGap(gap, v);
    hide Trim;
    if |fields| == 1 {
      ScanQuoted(v, "", gap, done);
      assert Quoted(v) + "" == Quoted(v);
      assert TrimAll(fields) == [Trim(v)];
    } else {
      var rest := "," + EncodeRow(tail);
      assert EncodeRow(fields) == Quoted(v) + rest;
      ScanQuoted(v, rest, gap, done);
      assert rest[1..] == EncodeRow(tail);
      ScanRow(tail, "", done + [Trim(v)]);
      assert TrimAll(fields) == [Trim(v)] + TrimAll(tail);
      assert done + [Trim(v)] + TrimAll(tail) == done + TrimAll(fields);
    }
  }

  lemma ScanQuoted(v: string, rest: string, buf: string, done: Row)
    requires rest == "" || rest[0] != QUOTE
    ensures Scan(Quoted(v) + rest, false, buf, done) == Scan(rest, false, buf + v, done)
  {
    var text := Quoted(v) + rest;
    assert text[0] == QUOTE && text[1..] == Escaped(v) + [QUOTE] + rest;
    ScanEscaped(v, rest, buf, done);
  }

  /** Reading back a written row gives its fields, trimmed. */
  lemma CsvRoundTrip(fields: Row)
    requires fields != []
    ensures ParseLine(EncodeRow(fields), |fields|) == Some(TrimAll(fields))
  {
    ScanRow(fields, "", []);
    assert [] + TrimAll(fields) == TrimAll(fields);
  }

  // ---------------------------------------------------------------- the table file

  class TableFile {
    var text: string

    constructor (initial: string)
      ensures text == initial
    {
      text := initial;
    }

    /** write_csv_field. */
    method WriteField(value: string)
      modifies this
      ensures text == old(text) + Quoted(value)
    {
      text := text + [QUOTE];
      var cursor := 0;
      while cursor < |value|
        invariant cursor <= |value|
        invariant text + Escaped(value[cursor..]) == old(text) + [QUOTE] + Escaped(value)
      {
        assert value[cursor..][1..] == value[cursor + 1..];
        if value[cursor] == QUOTE {
          text := text + [QUOTE] + [QUOTE];
        } else {
          text := text + [value[cursor]];
        }
        cursor := cursor + 1;
      }
      assert text + "" == text;
      text := text + [QUOTE];
      assert old(text) + [QUOTE] + Escaped(value) + [QUOTE] == old(text) + Quoted(value);
    }

    /** append_csv_row: the encoded row and a newline; a row without fields is refused. */
    method AppendRow(fields: Row) returns (ok: bool)
      modifies this
      ensures ok <==> fields != []
      ensures text == if ok then old(text) + EncodeRow(fields) + "\n" else old(text)
    {
      if |fields| == 0 {
        return false;
      }
      hide EncodeRow, Quoted, Escaped, EncodeTail;
      EncodeTailEnds(fields);
      var index := 0;
      while index < |fields|
        invariant index <= |fields|
        invariant text + EncodeTail(fields, index) == old(text) + EncodeRow(fields)
      {
        EncodeTailStep(fields, index);
        Regroup(text, if index == 0 then "" else ",", Quoted(fields[index]), EncodeTail(fields, index + 1));
        if index > 0 {
          text := text + ",";
        }
        WriteField(fields[index]);
        index := index + 1;
      }
      assert text + "" == text;
      text := text + "\n";
      return true;
    }
  }

  /** What is still to be written before field i, separating comma included. */
  function EncodeTail(fields: Row, i: nat): string
    requires i <= |fields|
  {
    if i == 0 then EncodeRow(fields) else if i == |fields| then "" else "," + EncodeRow(fields[i..])
  }

  lemma EncodeTailEnds(fields: Row)
    requires fields != []
    ensures EncodeTail(fields, 0) == EncodeRow(fields) && EncodeTail(fields, |fields|) == ""
  {
  }

  lemma Regroup(a: string, b: string, c: string, d: string)
    ensures a + (b + c + d) == (a + b) + c + d
    ensures b == "" ==> a + b == a
  {
  }

  lemma EncodeTailStep(fields: Row, i: nat)
    requires i < |fields|
    ensures EncodeTail(fields, i) == (if i == 0 then "" else ",") + Quoted(fields[i]) + EncodeTail(fields, i + 1)
  {
    assert fields[i..][1..] == fields[i + 1..];
    assert fields[0..] == fields;
  }

  const LINE_BUFFER := 8192

  /** How many characters fgets takes: up to and including a newline, at most `max`. */
  function FgetsLength(text: string, max: nat): (n: nat)
    ensures n <= |text| && n <= max
    ensures text != "" && max > 0 ==> n > 0
  {
    if text == "" || max == 0 then 0
    else if text[0] == '\n' then 1
    else 1 + FgetsLength(text[1..], max - 1)
  }

  /** The C string a buffer holds: what precedes the first NUL. */
  function UpToNul(s: string): (r: string)
    ensures r <= s && IsCString(r)
    ensures IsCString(s) ==> r == s
  {
    if s == "" || s[0] == '\0' then "" else [s[0]] + UpToNul(s[1..])
  }

  function StripEol(s: string): (r: string)
    ensures r <= s
  {
    if s != "" && (s[|s| - 1] == '\n' || s[|s| - 1] == '\r') then StripEol(s[..|s| - 1]) else s
  }

  /** The line read_csv_rows works on next. */
  function NextLine(text: string): string {
    StripEol(UpToNul(text[..FgetsLength(text, LINE_BUFFER - 1)]))
  }

  function AfterLine(text: string): (r: string)
    ensures text != "" ==> |r| < |text|
  {
    text[FgetsLength(text, LINE_BUFFER - 1)..]
  }

  function Join(rows: seq<Row>, more: Option<seq<Row>>): Option<seq<Row>> {
    if more.Some? then Some(rows + more.value) else None
  }

  /** read_csv_rows: the rows of a file, or None as soon as one line does not parse. */
  function ReadRows(text: string, expected: int): Option<seq<Row>>
    decreases |text|
  {
    if text == "" then Some([])
    else
      var line := NextLine(text);
      if line == "" then ReadRows(AfterLine(text), expected)
      else
        var row := ParseLine(line, expected);
        if row.None? then None else Join([row.value], ReadRows(AfterLine(text), expected))
  }

  method Fgets(text: string, pos: nat, max: nat) returns (n: nat)
    requires pos <= |text|
    ensures n == FgetsLength(text[pos..], max)
  {
    n := 0;
    while n < max && pos + n < |text|
      invariant pos + n <= |text| && n <= max
      invariant FgetsLength(text[pos..], max) == n + FgetsLength(text[pos + n..], max - n)
    {
      assert text[pos + n..][1..] == text[pos + n + 1..];
      n := n + 1;
      if text[pos + n - 1] == '\n' {
        return;
      }
    }
  }

  method StripLine(s: string) returns (r: string)
    ensures r == StripEol(s)
  {
    var n := |s|;
    assert s[..n] == s;
    while n > 0 && (s[n - 1] == '\n' || s[n - 1] == '\r')
      invariant n <= |s| && StripEol(s[..n]) == StripEol(s)
    {
      assert s[..n][..n - 1] == s[..n - 1];
      n := n - 1;
    }
    r := s[..n];
  }

  method ReadCsvRows(text: string, expected: int) returns (r: Option<seq<Row>>)
    ensures r == ReadRows(text, expected)
  {
    hide ParseLine, FgetsLength, UpToNul, StripEol;
    var rows: seq<Row> := [];
    var pos := 0;
    assert text[0..] == text;
    JoinEmpty(ReadRows(text, expected));
    while pos < |text|
      invariant pos <= |text|
      invariant ReadRows(text, expected) == Join(rows, ReadRows(text[pos..], expected))
      decreases |text| - pos
    {
      ghost var rest := text[pos..];
      var n := Fgets(text, pos, LINE_BUFFER - 1);
      var line := StripLine(UpToNul(text[pos..pos + n]));
      assert rest[..n] == text[pos..pos + n] && rest[n..] == text[pos + n..];
      pos := pos + n;
      if line != "" {
        var row := ParseCsvLine(line, expected);
        if row.None? {
          return None;
        }
        JoinJoin(rows, [row.value], ReadRows(text[pos..], expected));
        rows := rows + [row.value];
      }
    }
    r := Some(rows);
    assert rows + [] == rows;
  }

  lemma JoinEmpty(more: Option<seq<Row>>)
    ensures Join([], more) == more
  {
    assert more.Some? ==> [] + more.value == more.value;
  }

  lemma JoinJoin(a: seq<Row>, b: seq<Row>, more: Option<seq<Row>>)
    ensures Join(a, Join(b, more)) == Join(a + b, more)
  {
    assert more.Some? ==> a + (b + more.value) == a + b + more.value;
  }

  // ---------------------------------------------------------------- reading after appending

  ghost predicate EndsLine(text: string) {
    text == "" || text[|text| - 1] == '\n'
  }

  lemma {:induction false} FgetsWithin(a: string, b: string, max: nat)
    requires a != "" && EndsLine(a)
    ensures FgetsLength(a + b, max) == FgetsLength(a, max)
    ensures FgetsLength(a, max) == |a| || FgetsLength(a, max) < |a|
    decreases |a|
  {
    if max > 0 && a[0] != '\n' {
      assert (a + b)[1..] == a[1..] + b;
      FgetsWithin(a[1..], b, max - 1);
    }
  }

  /** A file cut at a line end is read part by part. */
  lemma {:induction false} ReadRowsConcat(a: string, b: string, expected: int)
    requires EndsLine(a)
    ensures ReadRows(a, expected).None? ==> ReadRows(a + b, expected).None?
    ensures ReadRows(a, expected).Some? ==>
      ReadRows(a + b, expected) == Join(ReadRows(a, expected).value, ReadRows(b, expected))
    decreases |a|
  {
    if a == "" {
      assert a + b == b;
      JoinEmpty(ReadRows(b, expected));
    } else {
      var n := FgetsLength(a, LINE_BUFFER - 1);
      FgetsWithin(a, b, LINE_BUFFER - 1);
      assert (a + b)[..n] == a[..n] && (a + b)[n..] == a[n..] + b;
      ReadRowsConcat(a[n..], b, expected);
      hide FgetsLength, StripEol, UpToNul, ParseLine;
      var line, row := NextLine(a), ParseLine(NextLine(a), expected);
      if line != "" && row.Some? && ReadRows(a[n..], expected).Some? {
        JoinJoin([row.value], ReadRows(a[n..], expected).value, ReadRows(b, expected));
      }
    }
  }

  ghost predicate NewlineFree(fields: Row) {
    forall i :: 0 <= i < |fields| ==> '\n' !in fields[i]
  }

  ghost predicate CStrings(fields: Row) {
    forall i :: 0 <= i < |fields| ==> IsCString(fields[i])
  }

  lemma {:induction false} EscapedChars(value: string, c: char)
    requires c != QUOTE
    ensures c in Escaped(value) <==> c in value
    decreases |value|
  {
    if value != "" {
      EscapedChars(value[1..], c);
      assert value == [value[0]] + value[1..];
    }
  }

  lemma {:induction false} EncodedChars(fields: Row, c: char)
    requires c != QUOTE && c != ','
    ensures c in EncodeRow(fields) <==> exists i :: 0 <= i < |fields| && c in fields[i]
    decreases |fields|
  {
    if fields != [] {
      EscapedChars(fields[0], c);
      EncodedChars(fields[1..], c);
      assert fields == [fields[0]] + fields[1..];
      if |fields| == 1 {
        assert EncodeRow(fields) == Quoted(fields[0]);
      }
    }
  }

  lemma {:induction false} EncodedEnds(fields: Row)
    requires fields != []
    ensures var e := EncodeRow(fields);
            |e| >= 2 && e[0] == QUOTE && e[|e| - 1] == QUOTE
    decreases |fields|
  {
    if |fields| > 1 {
      EncodedEnds(fields[1..]);
    }
  }

  lemma {:induction false} FgetsStops(text: string, max: nat, k: nat)
    requires k < |text| && text[k] == '\n' && '\n' !in text[..k]
    ensures FgetsLength(text, max) == if k < max then k + 1 else max
    decreases k
  {
    if k > 0 && max > 0 {
      assert text[0] == text[..k][0];
      assert text[1..][..k - 1] == text[..k][1..];
      FgetsStops(text[1..], max - 1, k - 1);
    }
  }

  lemma {:induction false} FgetsBefore(text: string, max: nat, k: nat)
    requires k < |text| && text[k] == '\n'
    ensures FgetsLength(text, max) <= k + 1
    decreases k
  {
    if k > 0 && max > 0 {
      FgetsBefore(text[1..], max - 1, k - 1);
    }
  }

  lemma {:induction false} StripKeeps(s: string, i: nat)
    requires i < |s| && s[i] == QUOTE
    ensures |StripEol(s)| > i
    decreases |s|
  {
    if s[|s| - 1] == '\n' || s[|s| - 1] == '\r' {
      StripKeeps(s[..|s| - 1], i);
    }
  }

  /** A quote anywhere makes a line that is not skipped, so at least one row. */
  lemma {:induction false} QuoteMakesRow(text: string, i: nat, expected: int)
    requires IsCString(text) && i < |text| && text[i] == QUOTE
    ensures ReadRows(text, expected).Some? ==> |ReadRows(text, expected).value| >= 1
    decreases |text|
  {
    var n := FgetsLength(text, LINE_BUFFER - 1);
    if i < n {
      StripKeeps(text[..n], i);
    } else {
      QuoteMakesRow(text[n..], i - n, expected);
    }
  }

  /** No field holds a newline and the encoded row fits the line buffer. */
  ghost predicate Storable(fields: Row) {
    NewlineFree(fields) && |EncodeRow(fields)| < LINE_BUFFER
  }

  /** An appended row survives reading exactly when it is storable; otherwise the file no longer
      parses or gives too many rows. */
  lemma AppendedRowReadBack(fields: Row)
    requires fields != [] && CStrings(fields)
    ensures var back := ReadRows(EncodeRow(fields) + "\n", |fields|);
            && (Storable(fields) ==> back == Some([TrimAll(fields)]))
            && (!Storable(fields) && back.Some? ==> |back.value| >= 2)
  {
    var e := EncodeRow(fields);
    EncodedEnds(fields);
    EncodedChars(fields, '\n');
    EncodedChars(fields, '\0');
    if '\n' !in e && |e| < LINE_BUFFER {
      FittingRowReadBack(fields, e);
    } else {
      OversizeRowMisread(e, |fields|);
    }
  }

  /** Reading a file after one more row has been appended to it. */
  lemma ReadAfterAppend(file: string, rows: seq<Row>, row: Row)
    requires EndsLine(file) && ReadRows(file, |row|) == Some(rows) && row != [] && CStrings(row)
    ensures var back := ReadRows(file + EncodeRow(row) + "\n", |row|);
            && (Storable(row) ==> back == Some(rows + [TrimAll(row)]))
            && (!Storable(row) && back.Some? ==> |back.value| > |rows| + 1)
  {
    hide ReadRows, EncodeRow, Storable;
    var e := EncodeRow(row) + "\n";
    assert file + EncodeRow(row) + "\n" == file + e;
    ReadRowsConcat(file, e, |row|);
    AppendedRowReadBack(row);
  }

  /** A surplus row or a parse error is never repaired by appending. */
  lemma SurplusStays(file: string, n: nat, row: Row, expected: int)
    requires EndsLine(file) && row != [] && CStrings(row)
    requires ReadRows(file, expected).Some? ==> |ReadRows(file, expected).value| > n
    ensures var back := ReadRows(file + EncodeRow(row) + "\n", expected);
            back.Some? ==> |back.value| > n + 1
  {
    EncodedEnds(row);
    EncodedChars(row, '\0');
    hide ReadRows, EncodeRow;
    var e := EncodeRow(row) + "\n";
    assert file + EncodeRow(row) + "\n" == file + e;
    ReadRowsConcat(file, e, expected);
    QuoteMakesRow(e, 0, expected);
  }

  lemma FittingRowReadBack(fields: Row, e: string)
    requires fields != [] && e == EncodeRow(fields) && '\n' !in e && '\0' !in e && |e| < LINE_BUFFER
    ensures ReadRows(e + "\n", |fields|) == Some([TrimAll(fields)])
  {
    EncodedEnds(fields);
    CsvRoundTrip(fields);
    LineReadBack(e, |fields|, TrimAll(fields));
  }

  lemma LineReadBack(line: string, expected: int, row: Row)
    requires line != "" && StripEol(line) == line && '\n' !in line && '\0' !in line && |line| < LINE_BUFFER
    requires ParseLine(line, expected) == Some(row)
    ensures ReadRows(line + "\n", expected) == Some([row])
  {
    hide ParseLine;
    var text := line + "\n";
    assert text[..|line|] == line;
    FgetsStops(text, LINE_BUFFER - 1, |line|);
    assert ReadRows("", expected) == Some([]) && [row] + [] == [row];
    if |line| + 1 < LINE_BUFFER {
      assert text[..|line| + 1] == text && AfterLine(text) == "";
      assert NextLine(text) == StripEol(text) == StripEol(line);
    } else {
      assert NextLine(text) == StripEol(line) && AfterLine(text) == "\n";
      BlankLine(expected);
    }
  }

  lemma BlankLine(expected: int)
    ensures ReadRows("\n", expected) == Some([])
  {
    assert "\n"[..1] == "\n" && NextLine("\n") == "";
    assert AfterLine("\n") == "";
  }

  lemma OversizeRowMisread(e: string, expected: int)
    requires |e| >= 2 && e[0] == QUOTE && e[|e| - 1] == QUOTE && '\0' !in e
    requires '\n' in e || |e| >= LINE_BUFFER
    ensures ReadRows(e + "\n", expected).Some? ==> |ReadRows(e + "\n", expected).value| >= 2
  {
    var text := e + "\n";
    var n := FgetsLength(text, LINE_BUFFER - 1);
    if '\n' in e {
      var k :| 0 <= k < |e| && e[k] == '\n';
      FgetsBefore(text, LINE_BUFFER - 1, k);
    }
    assert 0 < n < |e|;
    StripKeeps(text[..n], 0);
    QuoteMakesRow(text[n..], |e| - 1 - n, expected);
  }

  // ---------------------------------------------------------------- a last line that is not ended

  lemma {:induction false} FgetsAll(text: string, max: nat)
    requires '\n' !in text && |text| <= max
    ensures FgetsLength(text, max) == |text|
    decreases |text|
  {
    if text != "" {
      FgetsAll(text[1..], max - 1);
    }
  }

  lemma OneLineOneRow(line: string, i: nat, expected: int)
    requires '\n' !in line && '\0' !in line && |line| < LINE_BUFFER && i < |line| && line[i] != '\r'
    ensures ReadRows(line, expected).Some? ==> |ReadRows(line, expected).value| == 1
  {
    hide ParseLine;
    FgetsAll(line, LINE_BUFFER - 1);
    StripLeaves(line, i);
    assert line[..|line|] == line && AfterLine(line) == "";
    assert ReadRows("", expected) == Some([]);
  }

  /** The last line of a file, not ended. */
  lemma LastLineRead(line: string, expected: int, row: Row)
    requires line != "" && StripEol(line) == line && '\n' !in line && '\0' !in line && |line| < LINE_BUFFER
    requires ParseLine(line, expected) == Some(row)
    ensures ReadRows(line, expected) == Some([row])
  {
    hide ParseLine;
    FgetsAll(line, LINE_BUFFER - 1);
    assert line[..|line|] == line && AfterLine(line) == "";
    assert ReadRows("", expected) == Some([]) && [row] + [] == [row];
  }

  lemma {:induction false} StripLeaves(s: string, i: nat)
    requires i < |s| && s[i] != '\r' && s[i] != '\n'
    ensures |StripEol(s)| > i
    decreases |s|
  {
    if s[|s| - 1] == '\n' || s[|s| - 1] == '\r' {
      StripLeaves(s[..|s| - 1], i);
    }
  }

  lemma EndedLineOneRow(line: string, expected: int)
    requires '\n' !in line && '\0' !in line && |line| < LINE_BUFFER
    ensures var back := ReadRows(line + "\n", expected);
            back.Some? ==> |back.value| <= 1
  {
    hide ParseLine, StripEol, UpToNul;
    var text := line + "\n";
    assert text[..|line|] == line;
    FgetsStops(text, LINE_BUFFER - 1, |line|);
    assert ReadRows("", expected) == Some([]);
    BlankLine(expected);
    if |line| + 1 < LINE_BUFFER {
      assert AfterLine(text) == "";
    } else {
      assert AfterLine(text) == "\n";
    }
  }

  /** Nothing but carriage returns. */
  predicate OnlyReturns(l: string) {
    forall i :: 0 <= i < |l| ==> l[i] == '\r'
  }

  /** After a last line that is not ended an appended row joins that line.  If the line was only
      carriage returns they are trimmed and the row is gained; otherwise no row is gained. */
  lemma AppendedToUnendedLine(a: string, l: string, row: Row)
    requires EndsLine(a) && '\n' !in l && IsCString(l)
    requires row != [] && CStrings(row) && NewlineFree(row) && |l| + |EncodeRow(row)| < LINE_BUFFER
    requires ReadRows(a + l, |row|).Some?
    ensures var rows, back := ReadRows(a + l, |row|).value, ReadRows(a + l + EncodeRow(row) + "\n", |row|);
            && (OnlyReturns(l) ==> back == Some(rows + [TrimAll(row)]))
            && (!OnlyReturns(l) && back.Some? ==> |back.value| <= |rows|)
  {
    EncodedChars(row, '\n');
    EncodedChars(row, '\0');
    if OnlyReturns(l) {
      ReturnsThenRow(a, l, row);
    } else {
      var i :| 0 <= i < |l| && l[i] != '\r';
      JoinedLine(a, l, i, EncodeRow(row), |row|);
    }
  }

  lemma ReturnsThenRow(a: string, l: string, row: Row)
    requires EndsLine(a) && OnlyReturns(l) && row != []
    requires '\n' !in EncodeRow(row) && '\0' !in EncodeRow(row) && |l| + |EncodeRow(row)| < LINE_BUFFER
    requires ReadRows(a + l, |row|).Some?
    ensures ReadRows(a + l + EncodeRow(row) + "\n", |row|) == Some(ReadRows(a + l, |row|).value + [TrimAll(row)])
  {
    hide ReadRows, EncodeRow, EndsLine, OnlyReturns, TrimAll;
    var e := EncodeRow(row);
    ReturnsAreBlank(l, |row|);
    ReturnsAndRowReadBack(l, row);
    assert a + l + e + "\n" == a + (l + e + "\n");
    ReadRowsConcat(a, l, |row|);
    ReadRowsConcat(a, l + e + "\n", |row|);
    assert ReadRows(a, |row|).value + [] == ReadRows(a, |row|).value;
  }

  lemma {:induction false} StripReturns(l: string)
    requires OnlyReturns(l)
    ensures StripEol(l) == ""
  {
    if l != "" {
      StripReturns(l[..|l| - 1]);
    }
  }

  lemma ReturnsAreBlank(l: string, expected: int)
    requires OnlyReturns(l) && |l| < LINE_BUFFER
    ensures ReadRows(l, expected) == Some([])
  {
    hide ParseLine;
    FgetsAll(l, LINE_BUFFER - 1);
    StripReturns(l);
    assert l[..|l|] == l && AfterLine(l) == "";
    assert ReadRows("", expected) == Some([]);
  }

  lemma ReturnsAndRowReadBack(l: string, row: Row)
    requires OnlyReturns(l) && row != [] && '\n' !in EncodeRow(row) && '\0' !in EncodeRow(row)
    requires |l| + |EncodeRow(row)| < LINE_BUFFER
    ensures ReadRows(l + EncodeRow(row) + "\n", |row|) == Some([TrimAll(row)])
  {
    hide ReadRows, EncodeRow;
    var line := l + EncodeRow(row);
    EncodedEnds(row);
    ScanPlain(l, EncodeRow(row), "", []);
    assert "" + l == l;
    ScanRow(row, l, []);
    assert [] + TrimAll(row) == TrimAll(row);
    LineReadBack(line, |row|, TrimAll(row));
  }

  lemma JoinedLine(a: string, l: string, i: nat, e: string, expected: int)
    requires EndsLine(a) && '\n' !in l && i < |l| && l[i] != '\r' && '\0' !in l
    requires '\n' !in e && '\0' !in e && |l| + |e| < LINE_BUFFER
    requires ReadRows(a + l, expected).Some?
    ensures var back := ReadRows(a + l + e + "\n", expected);
            back.Some? ==> |back.value| <= |ReadRows(a + l, expected).value|
  {
    hide ReadRows;
    assert a + l + e + "\n" == a + (l + e + "\n");
    OneLineOneRow(l, i, expected);
    EndedLineOneRow(l + e, expected);
    ReadRowsConcat(a, l, expected);
    ReadRowsConcat(a, l + e + "\n", expected);
  }

  // ---------------------------------------------------------------- fields that were read are trimmed

  ghost predicate Trimmed(row: Row) {
    forall j :: 0 <= j < |row| ==> Trim(row[j]) == row[j]
  }

  lemma {:induction false} ScanTrimmed(rest: string, inQuotes: bool, buf: string, done: Row)
    requires Trimmed(done)
    ensures var r := Scan(rest, inQuotes, buf, done);
            r.Some? ==> Trimmed(r.value)
    decreases |rest|
  {
    TrimIdempotent(buf);
    hide Trim;
    if rest == "" {
    } else if inQuotes {
      if rest[0] != QUOTE {
        ScanTrimmed(rest[1..], true, buf + [rest[0]], done);
      } else if |rest| > 1 && rest[1] == QUOTE {
        ScanTrimmed(rest[2..], true, buf + [QUOTE], done);
      } else {
        ScanTrimmed(rest[1..], false, buf, done);
      }
    } else if rest[0] == QUOTE {
      ScanTrimmed(rest[1..], true, buf, done);
    } else if rest[0] == ',' {
      ScanTrimmed(rest[1..], false, "", done + [Trim(buf)]);
    } else {
      ScanTrimmed(rest[1..], false, buf + [rest[0]], done);
    }
  }

  lemma {:induction false} ReadRowsTrimmed(text: string, expected: int)
    ensures var rows := ReadRows(text, expected);
            rows.Some? ==> forall i :: 0 <= i < |rows.value| ==> Trimmed(rows.value[i])
    decreases |text|
  {
    hide Scan, NextLine, AfterLine, Trim;
    if text != "" {
      ScanTrimmed(NextLine(text), false, "", []);
      ReadRowsTrimmed(AfterLine(text), expected);
    }
  }

  lemma {:induction false} ScanCStrings(rest: string, inQuotes: bool, buf: string, done: Row)
    requires IsCString(rest) && IsCString(buf) && CStrings(done)
    ensures var r := Scan(rest, inQuotes, buf, done);
            r.Some? ==> CStrings(r.value)
    decreases |rest|
  {
    assert IsCString(Trim(buf)) by { var a, b := TrimCut(buf); }
    hide Trim;
    if rest == "" {
    } else if inQuotes {
      if rest[0] != QUOTE {
        ScanCStrings(rest[1..], true, buf + [rest[0]], done);
      } else if |rest| > 1 && rest[1] == QUOTE {
        ScanCStrings(rest[2..], true, buf + [QUOTE], done);
      } else {
        ScanCStrings(rest[1..], false, buf, done);
      }
    } else if rest[0] == QUOTE {
      ScanCStrings(rest[1..], true, buf, done);
    } else if rest[0] == ',' {
      ScanCStrings(rest[1..], false, "", done + [Trim(buf)]);
    } else {
      ScanCStrings(rest[1..], false, buf + [rest[0]], done);
    }
  }

  lemma {:induction false} ReadRowsCStrings(text: string, expected: int)
    ensures var rows := ReadRows(text, expected);
            rows.Some? ==> forall i :: 0 <= i < |rows.value| ==> CStrings(rows.value[i])
    decreases |text|
  {
    if text != "" {
      assert IsCString(NextLine(text));
      ScanCStrings(NextLine(text), false, "", []);
      hide Scan, NextLine, AfterLine;
      ReadRowsCStrings(AfterLine(text), expected);
    }
  }
}
