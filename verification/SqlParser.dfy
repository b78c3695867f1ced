/** The parser of src/query/parser.c: loops that advance a cursor over a C string.

  `s[cursor..]` is the text that is left; each method does to it what the function of the same
  name in SqlGrammar says.  Reading position |s| gives the terminating NUL.
 */
module SqlParser {
  import opened Common
  import opened Text
  import opened TableModel
  import opened SqlGrammar

  lemma RestHead(s: string, i: nat)
    requires i <= |s|
    ensures s[i..] == if i < |s| then [s[i]] + s[i + 1..] else ""
  {
  }

  method SkipWhitespace(s: string, start: nat) returns (cursor: nat)
    requires IsCString(s) && start <= |s|
    ensures start <= cursor <= |s| && s[cursor..] == TrimLeft(s[start..])
  {
    cursor := start;
    while CharAt(s, cursor) != '\0' && IsSpace(CharAt(s, cursor))
      invariant start <= cursor <= |s| && TrimLeft(s[cursor..]) == TrimLeft(s[start..])
      decreases |s| - cursor
    {
      RestHead(s, cursor);
      cursor := cursor + 1;
    }
    RestHead(s, cursor);
  }

  method MatchKeywordAt(s: string, start: nat, keyword: string) returns (ok: bool, cursor: nat)
    requires IsCString(s) && start <= |s| && IsCString(keyword)
    ensures start <= cursor <= |s| && (!ok ==> cursor == start)
    ensures MatchKeyword(s[start..], keyword) == if ok then Got((), s[cursor..]) else Fail
  {
    var scan := SkipWhitespace(s, start);
    assert forall j :: 0 <= j < |s| - scan ==> s[scan..][j] == s[scan + j];
    var index := 0;
    while index < |keyword|
      invariant index <= |keyword| && scan + index <= |s|
      invariant forall j :: 0 <= j < index ==> ToLower(s[scan + j]) == ToLower(keyword[j])
    {
      if ToLower(CharAt(s, scan + index)) != ToLower(keyword[index]) {
        return false, start;
      }
      index := index + 1;
    }
    assert s[scan..][|keyword|..] == s[scan + index..];
    if IsIdChar(CharAt(s, scan + index)) {
      return false, start;
    }
    return true, scan + index;
  }

  lemma NulIsNotAlnum()
    ensures !IsAlnum('\0')
  {
  }

  /** To the end of an identifier. */
  method SkipIdentifier(s: string, begin: nat) returns (cursor: nat)
    requires IsCString(s) && begin <= |s|
    ensures begin <= cursor <= |s| && IdLength(s[begin..]) == cursor - begin
  {
    hide IsAlnum;
    NulIsNotAlnum();
    cursor := begin;
    while IsIdChar(CharAt(s, cursor))
      invariant begin <= cursor <= |s| && IdLength(s[begin..]) == cursor - begin + IdLength(s[cursor..])
      decreases |s| - cursor
    {
      RestHead(s, cursor);
      cursor := cursor + 1;
    }
    RestHead(s, cursor);
  }

  method ParseIdentifierAt(s: string, start: nat) returns (r: Option<string>, cursor: nat)
    requires IsCString(s) && start <= |s|
    ensures start <= cursor <= |s|
    ensures ParseIdentifier(s[start..]) == if r.Some? then Got(r.value, s[cursor..]) else Fail
  {
    var begin := SkipWhitespace(s, start);
    cursor := SkipIdentifier(s, begin);
    hide TrimLeft, IdLength;
    if cursor == begin {
      return None, cursor;
    }
    assert s[begin..][..cursor - begin] == s[begin..cursor] && s[begin..][cursor - begin..] == s[cursor..];
    return Some(s[begin..cursor]), cursor;
  }

  method ParseValueAt(s: string, start: nat) returns (r: Option<string>, cursor: nat)
    requires IsCString(s) && start <= |s|
    ensures start <= cursor <= |s|
    ensures ParseValue(s[start..]) == if r.Some? then Got(r.value, s[cursor..]) else Fail
  {
    cursor := SkipWhitespace(s, start);
    RestHead(s, cursor);
    if CharAt(s, cursor) == '\'' || CharAt(s, cursor) == '"' {
      r, cursor := FinishQuoted(s, cursor);
    } else {
      r, cursor := FinishBare(s, cursor);
    }
  }

  /** To the closing quote, or the end. */
  method SkipQuoted(s: string, begin: nat, quote: char) returns (cursor: nat)
    requires IsCString(s) && begin <= |s|
    ensures begin <= cursor <= |s| && QuotedLength(s[begin..], quote) == cursor - begin
  {
    cursor := begin;
    while CharAt(s, cursor) != '\0' && CharAt(s, cursor) != quote
      invariant begin <= cursor <= |s| && QuotedLength(s[begin..], quote) == cursor - begin + QuotedLength(s[cursor..], quote)
      decreases |s| - cursor
    {
      RestHead(s, cursor);
      cursor := cursor + 1;
    }
    RestHead(s, cursor);
  }

  /** The branch of parse_value for a value in quotes. */
  method FinishQuoted(s: string, begin: nat) returns (r: Option<string>, cursor: nat)
    requires IsCString(s) && begin < |s| && IsQuote(s[begin])
    ensures begin <= cursor <= |s|
    ensures ParseValue(s[begin..]) == if r.Some? then Got(r.value, s[cursor..]) else Fail
  {
    var quote := s[begin];
    var first := begin + 1;
    assert TrimLeft(s[begin..]) == s[begin..] && s[begin..][1..] == s[first..];
    cursor := SkipQuoted(s, first, quote);
    hide QuotedLength, TrimLeft;
    QuotedLengthMeaning(s[first..], quote);
    if CharAt(s, cursor) != quote {
      return None, cursor;
    }
    var length := cursor - first;
    assert s[first..][..length] == s[first..cursor] && s[first..][length + 1..] == s[cursor + 1..];
    cursor := cursor + 1;
    if length == 0 {
      return None, cursor;
    }
    return Some(s[first..first + length]), cursor;
  }

  /** To the end of a value without quotes. */
  method SkipBare(s: string, begin: nat) returns (cursor: nat)
    requires IsCString(s) && begin <= |s|
    ensures begin <= cursor <= |s| && BareLength(s[begin..]) == cursor - begin
  {
    hide IsSpace;
    cursor := begin;
    while CharAt(s, cursor) != '\0' && CharAt(s, cursor) != ',' && CharAt(s, cursor) != ')' && CharAt(s, cursor) != ';'
          && !IsSpace(CharAt(s, cursor))
      invariant begin <= cursor <= |s| && BareLength(s[begin..]) == cursor - begin + BareLength(s[cursor..])
      decreases |s| - cursor
    {
      RestHead(s, cursor);
      cursor := cursor + 1;
    }
    RestHead(s, cursor);
  }

  /** The branch of parse_value for a value without quotes. */
  method FinishBare(s: string, begin: nat) returns (r: Option<string>, cursor: nat)
    requires IsCString(s) && begin <= |s| && (begin < |s| ==> !IsQuote(s[begin]) && !IsSpace(s[begin]))
    ensures begin <= cursor <= |s|
    ensures ParseValue(s[begin..]) == if r.Some? then Got(r.value, s[cursor..]) else Fail
  {
    assert TrimLeft(s[begin..]) == s[begin..];
    cursor := SkipBare(s, begin);
    hide BareLength, TrimLeft;
    assert s[begin..][..cursor - begin] == s[begin..cursor] && s[begin..][cursor - begin..] == s[cursor..];
    if cursor == begin {
      return None, cursor;
    }
    return Some(s[begin..cursor]), cursor;
  }

  /** White space and then the expected character. */
  method Expect(s: string, start: nat, c: char) returns (ok: bool, cursor: nat)
    requires IsCString(s) && start <= |s| && c != '\0'
    ensures start <= cursor <= |s|
    ensures ParseMark(s[start..], c) == if ok then Got((), s[cursor..]) else Fail
  {
    cursor := SkipWhitespace(s, start);
    RestHead(s, cursor);
    if CharAt(s, cursor) != c {
      return false, cursor;
    }
    return true, cursor + 1;
  }

  method ParseConditionAt(s: string, start: nat) returns (ok: bool, condition: Option<Condition>, cursor: nat)
    requires IsCString(s) && start <= |s|
    ensures start <= cursor <= |s|
    ensures ParseCondition(s[start..]) == if ok then Got(condition, s[cursor..]) else Fail
  {
    hide MatchKeyword, ParseIdentifier, ParseMark, ParseValue;
    var found, r, equals;
    found, cursor := MatchKeywordAt(s, start, "where");
    if !found {
      return true, None, start;
    }
    r, cursor := ParseIdentifierAt(s, cursor);
    if r.None? {
      return false, None, cursor;
    }
    var column := r.value;
    equals, cursor := Expect(s, cursor, '=');
    if !equals {
      return false, None, cursor;
    }
    r, cursor := ParseValueAt(s, cursor);
    if r.None? {
      return false, None, cursor;
    }
    return true, Some(Condition(column, r.value)), cursor;
  }

  /** The end of both statements. */
  method ExpectEnd(s: string, start: nat) returns (ok: bool)
    requires IsCString(s) && start <= |s|
    ensures ok <==> ParseEnd(s[start..])
  {
    var cursor := SkipWhitespace(s, start);
    RestHead(s, cursor);
    if CharAt(s, cursor) == ';' {
      cursor := cursor + 1;
    }
    cursor := SkipWhitespace(s, cursor);
    return CharAt(s, cursor) == '\0';
  }

  method ParseSelectText(s: string) returns (r: Option<Query>)
    requires IsCString(s)
    ensures r == ParseSelect(s)
  {
    hide MatchKeyword, ParseIdentifier, ParseMark, ParseCondition, ParseEnd;
    assert s[0..] == s;
    var ok, cursor := MatchKeywordAt(s, 0, "select");
    if !ok {
      return None;
    }
    ok, cursor := Expect(s, cursor, '*');
    if !ok {
      return None;
    }
    ok, cursor := MatchKeywordAt(s, cursor, "from");
    if !ok {
      return None;
    }
    var table;
    table, cursor := ParseIdentifierAt(s, cursor);
    if table.None? {
      return None;
    }
    var condition;
    ok, condition, cursor := ParseConditionAt(s, cursor);
    if !ok {
      return None;
    }
    ok := ExpectEnd(s, cursor);
    return if ok then Some(SelectQuery(table.value, condition)) else None;
  }

  /** What the value list becomes when `values` have been read and `r` is left. */
  function WithValues(values: seq<string>, r: Parsed<seq<string>>): Parsed<seq<string>> {
    if r.Fail? then Fail else Got(values + r.value, r.rest)
  }

  method ParseValueList(s: string, start: nat) returns (ok: bool, values: seq<string>, cursor: nat)
    requires IsCString(s) && start <= |s|
    ensures start <= cursor <= |s|
    ensures ParseValues(s[start..]) == if ok then Got(values, s[cursor..]) else Fail
  {
    hide ParseValue;
    cursor := start;
    values := [];
    WithNoValues(ParseValues(s[start..]));
    while true
      invariant start <= cursor <= |s|
      invariant ParseValues(s[start..]) == WithValues(values, ParseValues(s[cursor..]))
      decreases |s| - cursor
    {
      ghost var before := cursor;
      var r;
      r, cursor := ParseValueAt(s, cursor);
      if r.None? {
        return false, values, cursor;
      }
      ValueShrinks(s[before..]);
      ghost var read := values;
      values := values + [r.value];
      cursor := SkipWhitespace(s, cursor);
      RestHead(s, cursor);
      if CharAt(s, cursor) == ',' {
        cursor := cursor + 1;
        WithValuesStep(read, r.value, ParseValues(s[cursor..]));
      } else if CharAt(s, cursor) == ')' {
        cursor := cursor + 1;
        return true, values, cursor;
      } else {
        return false, values, cursor;
      }
    }
  }

  lemma WithNoValues(r: Parsed<seq<string>>)
    ensures WithValues([], r) == r
  {
    assert r.Got? ==> [] + r.value == r.value;
  }

  lemma WithValuesStep(values: seq<string>, v: string, r: Parsed<seq<string>>)
    ensures WithValues(values + [v], r) == WithValues(values, WithValues([v], r))
  {
    assert r.Got? ==> values + [v] + r.value == values + ([v] + r.value);
  }

  method ParseInsertText(s: string) returns (r: Option<Query>)
    requires IsCString(s)
    ensures r == ParseInsert(s)
  {
    hide MatchKeyword, ParseIdentifier, ParseMark, ParseValues, ParseEnd;
    assert s[0..] == s;
    var ok, cursor := MatchKeywordAt(s, 0, "insert");
    if !ok {
      return None;
    }
    ok, cursor := MatchKeywordAt(s, cursor, "into");
    if !ok {
      return None;
    }
    var table;
    table, cursor := ParseIdentifierAt(s, cursor);
    if table.None? {
      return None;
    }
    ok, cursor := MatchKeywordAt(s, cursor, "values");
    if !ok {
      return None;
    }
    ok, cursor := Expect(s, cursor, '(');
    if !ok {
      return None;
    }
    var values;
    ok, values, cursor := ParseValueList(s, cursor);
    if !ok {
      return None;
    }
    ok := ExpectEnd(s, cursor);
    return if ok then Some(InsertQuery(table.value, values)) else None;
  }

  /** tokenize_sql. */
  method TokenizeSql(s: string) returns (ok: bool)
    requires IsCString(s)
    ensures ok <==> TrimLeft(s) != ""
  {
    var cursor := 0;
    assert s[0..] == s;
    while CharAt(s, cursor) != '\0'
      invariant cursor <= |s| && TrimLeft(s[cursor..]) == TrimLeft(s)
      decreases |s| - cursor
    {
      RestHead(s, cursor);
      if !IsSpace(CharAt(s, cursor)) {
        return true;
      }
      cursor := cursor + 1;
    }
    return false;
  }

  /** parse_sql_text. */
  method ParseSqlText(s: string) returns (r: Option<Query>)
    requires IsCString(s)
    ensures r == ParseSql(s)
  {
    hide ParseSelect, ParseInsert;
    if CharAt(s, 0) == '\0' {
      return None;
    }
    var ok := TokenizeSql(s);
    if !ok {
      return None;
    }
    r := ParseSelectText(s);
    if r.None? {
      r := ParseInsertText(s);
    }
  }
}
