/** The SQL statements that src/query/parser.c accepts, twice: `ParseSql` follows the parser, and
    `Print` writes a query in any of its spellings.  A text parses to a query exactly when it is
    one of the query's spellings.

  Every parsing function takes the text that is left and gives the text that is left after it.
 */
module SqlGrammar {
  import opened Common
  import opened Text
  import opened TableModel

  datatype Query =
    | SelectQuery(table: string, condition: Option<Condition>)
    | InsertQuery(table: string, values: seq<string>)

  datatype Parsed<+T> = Fail | Got(value: T, rest: string)

  // ---------------------------------------------------------------- parsing

  predicate IsIdChar(c: char) {
    IsAlnum(c) || c == '_'
  }

  predicate IsQuote(c: char) {
    c == '\'' || c == '"'
  }

  /** Ends a value without quotes. */
  predicate EndsValue(c: char) {
    c == ',' || c == ')' || c == ';' || IsSpace(c)
  }

  predicate SameLetters(text: string, keyword: string) {
    |text| >= |keyword| && forall i :: 0 <= i < |keyword| ==> ToLower(text[i]) == ToLower(keyword[i])
  }

  predicate StartsWith(r: string, c: char) {
    r != "" && r[0] == c
  }

  predicate StartsIdentifier(r: string) {
    r != "" && IsIdChar(r[0])
  }

  /** match_keyword. */
  function MatchKeyword(r: string, keyword: string): Parsed<()> {
    var s := TrimLeft(r);
    if SameLetters(s, keyword) && !StartsIdentifier(s[|keyword|..]) then Got((), s[|keyword|..]) else Fail
  }

  function IdLength(r: string): (n: nat)
    ensures n <= |r|
  {
    if StartsIdentifier(r) then 1 + IdLength(r[1..]) else 0
  }

  /** parse_identifier. */
  function ParseIdentifier(r: string): Parsed<string> {
    var s := TrimLeft(r);
    var n := IdLength(s);
    if n == 0 then Fail else Got(s[..n], s[n..])
  }

  function QuotedLength(r: string, quote: char): (n: nat)
    ensures n <= |r|
  {
    if r == "" || r[0] == quote then 0 else 1 + QuotedLength(r[1..], quote)
  }

  function BareLength(r: string): (n: nat)
    ensures n <= |r|
  {
    if r == "" || EndsValue(r[0]) then 0 else 1 + BareLength(r[1..])
  }

  /** parse_value. */
  function ParseValue(r: string): Parsed<string> {
    var s := TrimLeft(r);
    if s != "" && IsQuote(s[0]) then
      var body := s[1..];
      var n := QuotedLength(body, s[0]);
      if n == |body| || n == 0 then Fail else Got(body[..n], body[n + 1..])
    else
      var n := BareLength(s);
      if n == 0 then Fail else Got(s[..n], s[n..])
  }

  /** A single character after white space. */
  function ParseMark(r: string, c: char): Parsed<()> {
    var s := TrimLeft(r);
    if StartsWith(s, c) then Got((), s[1..]) else Fail
  }

  /** parse_condition: no WHERE is no condition. */
  function ParseCondition(r: string): Parsed<Option<Condition>> {
    match MatchKeyword(r, "where")
    case Fail => Got(None, r)
    case Got(_, r1) =>
      match ParseIdentifier(r1)
      case Fail => Fail
      case Got(column, r2) =>
        match ParseMark(r2, '=')
        case Fail => Fail
        case Got(_, r3) =>
          match ParseValue(r3)
          case Fail => Fail
          case Got(value, r4) => Got(Some(Condition(column, value)), r4)
  }

  /** White space, at most one semicolon, white space, end. */
  predicate ParseEnd(r: string) {
    var s := TrimLeft(r);
    TrimLeft(if StartsWith(s, ';') then s[1..] else s) == ""
  }

  /** parse_select. */
  function ParseSelect(r: string): Option<Query> {
    match MatchKeyword(r, "select")
    case Fail => None
    case Got(_, r1) =>
      match ParseMark(r1, '*')
      case Fail => None
      case Got(_, r2) =>
        match MatchKeyword(r2, "from")
        case Fail => None
        case Got(_, r3) =>
          match ParseIdentifier(r3)
          case Fail => None
          case Got(table, r4) =>
            match ParseCondition(r4)
            case Fail => None
            case Got(condition, r5) => if ParseEnd(r5) then Some(SelectQuery(table, condition)) else None
  }

  lemma ValueShrinks(r: string)
    ensures ParseValue(r).Got? ==> |ParseValue(r).rest| < |r|
  {
    TrimLeftShorter(r);
  }

  lemma {:induction false} TrimLeftShorter(s: string)
    ensures |TrimLeft(s)| <= |s|
  {
    if s != "" && IsSpace(s[0]) {
      TrimLeftShorter(s[1..]);
    }
  }

  /** The list of values up to its closing parenthesis. */
  function ParseValues(r: string): Parsed<seq<string>>
    decreases |r|
  {
    match ParseValue(r)
    case Fail => Fail
    case Got(value, r1) =>
      ValueShrinks(r);
      TrimLeftShorter(r1);
      if StartsWith(TrimLeft(r1), ',') then
        match ParseValues(TrimLeft(r1)[1..])
        case Fail => Fail
        case Got(values, r2) => Got([value] + values, r2)
      else if StartsWith(TrimLeft(r1), ')') then Got([value], TrimLeft(r1)[1..])
      else Fail
  }

  /** parse_insert. */
  function ParseInsert(r: string): Option<Query> {
    match MatchKeyword(r, "insert")
    case Fail => None
    case Got(_, r1) =>
      match MatchKeyword(r1, "into")
      case Fail => None
      case Got(_, r2) =>
        match ParseIdentifier(r2)
        case Fail => None
        case Got(table, r3) =>
          match MatchKeyword(r3, "values")
          case Fail => None
          case Got(_, r4) =>
            match ParseMark(r4, '(')
            case Fail => None
            case Got(_, r5) =>
              match ParseValues(r5)
              case Fail => None
              case Got(values, r6) => if ParseEnd(r6) then Some(InsertQuery(table, values)) else None
  }

  /** parse_sql_text: SELECT is tried first; blank text is refused. */
  function ParseSql(s: string): Option<Query> {
    if TrimLeft(s) == "" then None
    else if ParseSelect(s).Some? then ParseSelect(s)
    else ParseInsert(s)
  }

  // ---------------------------------------------------------------- spellings

  /** White space and then a word. */
  datatype Word = Word(before: string, text: string)

  function Show(w: Word): string {
    w.before + w.text
  }

  /** White space and the quote character, if any. */
  datatype ValueLayout = ValueLayout(before: string, quote: Option<char>)

  function ShowValue(v: string, l: ValueLayout): string {
    l.before + (if l.quote.Some? then [l.quote.value] + v + [l.quote.value] else v)
  }

  datatype ConditionLayout = ConditionLayout(whereWord: Word, column: string, equals: string, value: ValueLayout)

  function ShowCondition(c: Condition, l: ConditionLayout): string {
    Show(l.whereWord) + (l.column + c.column + (l.equals + "=" + ShowValue(c.value, l.value)))
  }

  datatype EndLayout = EndLayout(before: string, semicolon: bool, after: string)

  function ShowEnd(l: EndLayout): string {
    l.before + (if l.semicolon then ";" + l.after else "")
  }

  datatype ItemLayout = ItemLayout(value: ValueLayout, after: string)

  function ShowItems(values: seq<string>, items: seq<ItemLayout>): string
    requires |values| == |items| > 0
  {
    ShowValue(values[0], items[0].value) + (items[0].after +
      (if |values| == 1 then ")" else "," + ShowItems(values[1..], items[1..])))
  }

  /** Everything a spelling is free to choose. */
  datatype Layout =
    | SelectLayout(first: Word, star: string, from: Word, table: string, condition: Option<ConditionLayout>, end: EndLayout)
    | InsertLayout(first: Word, into: Word, table: string, valuesWord: Word, open: string, items: seq<ItemLayout>, end: EndLayout)

  predicate Fits(q: Query, l: Layout) {
    match q
    case SelectQuery(_, condition) => l.SelectLayout? && (condition.Some? <==> l.condition.Some?)
    case InsertQuery(_, values) => l.InsertLayout? && |values| == |l.items| > 0
  }

  function Print(q: Query, l: Layout): string
    requires Fits(q, l)
  {
    match q
    case SelectQuery(table, condition) =>
      Show(l.first) + (l.star + "*" + (Show(l.from) + (l.table + table +
        ((if condition.Some? then ShowCondition(condition.value, l.condition.value) else "") + ShowEnd(l.end)))))
    case InsertQuery(table, values) =>
      Show(l.first) + (Show(l.into) + (l.table + table + (Show(l.valuesWord) + (l.open + "(" +
        (ShowItems(values, l.items) + ShowEnd(l.end))))))
  }

  // ---------------------------------------------------------------- proper spellings

  predicate Gap(s: string) {
    s != "" && AllSpace(s)
  }

  predicate IsIdentifier(s: string) {
    s != "" && forall i :: 0 <= i < |s| ==>
      'a' <= s[i] <= 'z' || 'A' <= s[i] <= 'Z' || '0' <= s[i] <= '9' || s[i] == '_'
  }

  predicate IsKeyword(s: string) {
    s != "" && forall i :: 0 <= i < |s| ==> 'a' <= s[i] <= 'z'
  }

  /** The keyword in any mixture of cases. */
  predicate KeywordOk(w: Word, keyword: string) {
    && AllSpace(w.before) && |w.text| == |keyword|
    && forall i :: 0 <= i < |keyword| ==> IsCaseOf(w.text[i], keyword[i])
  }

  /** A value that needs no quotes. */
  predicate Bare(v: string) {
    && v != "" && v[0] != '\'' && v[0] != '"' && ',' !in v && ')' !in v && ';' !in v
    && forall i :: 0 <= i < |v| ==> !IsSpace(v[i])
  }

  /** A value in a quote character it does not contain, or without quotes. */
  predicate ValueOk(v: string, l: ValueLayout) {
    && AllSpace(l.before) && v != ""
    && match l.quote
       case Some(c) => (c == '\'' || c == '"') && c !in v
       case None => Bare(v)
  }

  predicate ConditionOk(c: Condition, l: ConditionLayout) {
    && KeywordOk(l.whereWord, "where") && Gap(l.whereWord.before)
    && Gap(l.column) && IsIdentifier(c.column) && AllSpace(l.equals) && ValueOk(c.value, l.value)
  }

  predicate EndOk(l: EndLayout) {
    AllSpace(l.before) && AllSpace(l.after)
  }

  predicate ItemsOk(values: seq<string>, items: seq<ItemLayout>) {
    && |values| == |items| > 0
    && forall i :: 0 <= i < |values| ==> ValueOk(values[i], items[i].value) && AllSpace(items[i].after)
  }

  /** White space where words would run together, and the words and marks of the statement. */
  predicate Proper(q: Query, l: Layout)
    requires Fits(q, l)
  {
    match q
    case SelectQuery(table, condition) =>
      && KeywordOk(l.first, "select") && AllSpace(l.star) && KeywordOk(l.from, "from")
      && Gap(l.table) && IsIdentifier(table) && EndOk(l.end)
      && (condition.Some? ==> ConditionOk(condition.value, l.condition.value))
    case InsertQuery(table, values) =>
      && KeywordOk(l.first, "insert") && KeywordOk(l.into, "into") && Gap(l.into.before)
      && Gap(l.table) && IsIdentifier(table) && KeywordOk(l.valuesWord, "values") && Gap(l.valuesWord.before)
      && AllSpace(l.open) && ItemsOk(values, l.items) && EndOk(l.end)
  }

  // ---------------------------------------------------------------- spellings parse

  /** Nothing, or something that is not white space. */
  predicate StartsHard(r: string) {
    r == "" || !IsSpace(r[0])
  }

  lemma TrimLeftToken(g: string, r: string)
    requires AllSpace(g) && StartsHard(r)
    ensures TrimLeft(g + r) == r
  {
    TrimLeftGap(g, r);
  }

  lemma KeywordParses(w: Word, keyword: string, rest: string)
    requires KeywordOk(w, keyword) && IsKeyword(keyword) && !StartsIdentifier(rest)
    ensures MatchKeyword(Show(w) + rest, keyword) == Got((), rest)
  {
    assert Show(w) + rest == w.before + (w.text + rest);
    LowerKind(w.text[0], keyword[0]);
    SpelledLetters(w.text + rest, keyword);
    TrimLeftToken(w.before, w.text + rest);
    assert (w.text + rest)[|keyword|..] == rest;
  }

  /** The letters of a keyword are those of one of its spellings. */
  lemma SpelledLetters(s: string, keyword: string)
    requires IsKeyword(keyword) && |keyword| <= |s|
    ensures SameLetters(s, keyword) <==> forall i :: 0 <= i < |keyword| ==> IsCaseOf(s[i], keyword[i])
  {
    hide ToLower, IsCaseOf;
    forall i | 0 <= i < |keyword|
      ensures ToLower(s[i]) == ToLower(keyword[i]) <==> IsCaseOf(s[i], keyword[i])
    {
      CaseOfIsLower(s[i], keyword[i]);
      SmallIsLower(keyword[i]);
    }
  }

  lemma SmallIsLower(c: char)
    requires 'a' <= c <= 'z'
    ensures ToLower(c) == c
  {
  }

  lemma LowerKind(a: char, b: char)
    requires IsCaseOf(a, b) && 'a' <= b <= 'z'
    ensures IsIdChar(a) && !IsSpace(a)
  {
  }

  lemma {:induction false} IdLengthExact(id: string, rest: string)
    requires (forall i :: 0 <= i < |id| ==> IsIdChar(id[i])) && !StartsIdentifier(rest)
    ensures IdLength(id + rest) == |id|
  {
    if id == "" {
      assert id + rest == rest;
    } else {
      assert (id + rest)[1..] == id[1..] + rest;
      IdLengthExact(id[1..], rest);
    }
  }

  lemma IdentifierParses(g: string, id: string, rest: string)
    requires AllSpace(g) && IsIdentifier(id) && !StartsIdentifier(rest)
    ensures ParseIdentifier(g + id + rest) == Got(id, rest)
  {
    assert g + id + rest == g + (id + rest);
    TrimLeftToken(g, id + rest);
    IdLengthExact(id, rest);
    assert (id + rest)[..|id|] == id && (id + rest)[|id|..] == rest;
  }

  lemma MarkParses(g: string, c: char, rest: string)
    requires AllSpace(g) && !IsSpace(c)
    ensures ParseMark(g + [c] + rest, c) == Got((), rest)
  {
    assert g + [c] + rest == g + ([c] + rest);
    TrimLeftToken(g, [c] + rest);
  }

  lemma {:induction false} QuotedLengthExact(v: string, quote: char, rest: string)
    requires quote !in v
    ensures QuotedLength(v + [quote] + rest, quote) == |v|
  {
    if v != "" {
      assert (v + [quote] + rest)[1..] == v[1..] + [quote] + rest;
      QuotedLengthExact(v[1..], quote, rest);
    }
  }

  lemma {:induction false} BareLengthExact(v: string, rest: string)
    requires (forall i :: 0 <= i < |v| ==> !EndsValue(v[i])) && (rest == "" || EndsValue(rest[0]))
    ensures BareLength(v + rest) == |v|
  {
    if v == "" {
      assert v + rest == rest;
    } else {
      assert (v + rest)[1..] == v[1..] + rest;
      BareLengthExact(v[1..], rest);
    }
  }

  lemma QuotedParses(v: string, g: string, c: char, rest: string)
    requires AllSpace(g) && v != "" && IsQuote(c) && c !in v
    ensures ParseValue(g + ([c] + v + [c]) + rest) == Got(v, rest)
  {
    var body := v + [c] + rest;
    assert g + ([c] + v + [c]) + rest == g + ([c] + body);
    TrimLeftToken(g, [c] + body);
    assert ([c] + body)[1..] == body;
    QuotedLengthExact(v, c, rest);
    assert body[..|v|] == v && body[|v| + 1..] == rest;
  }

  lemma BareParses(v: string, g: string, rest: string)
    requires AllSpace(g) && Bare(v) && (rest == "" || EndsValue(rest[0]))
    ensures ParseValue(g + v + rest) == Got(v, rest)
  {
    assert g + v + rest == g + (v + rest);
    TrimLeftToken(g, v + rest);
    BareLengthExact(v, rest);
    assert (v + rest)[..|v|] == v && (v + rest)[|v|..] == rest;
  }

  lemma ValueParses(v: string, l: ValueLayout, rest: string)
    requires ValueOk(v, l) && (rest == "" || EndsValue(rest[0]))
    ensures ParseValue(ShowValue(v, l) + rest) == Got(v, rest)
  {
    match l.quote
    case Some(c) => QuotedParses(v, l.before, c, rest);
    case None => BareParses(v, l.before, rest);
  }

  lemma EndStarts(l: EndLayout)
    requires EndOk(l)
    ensures ShowEnd(l) == "" || EndsValue(ShowEnd(l)[0])
    ensures !StartsIdentifier(ShowEnd(l))
  {
  }

  lemma EndParses(l: EndLayout)
    requires EndOk(l)
    ensures ParseEnd(ShowEnd(l)) && MatchKeyword(ShowEnd(l), "where").Fail?
  {
    var tail := if l.semicolon then ";" + l.after else "";
    TrimLeftToken(l.before, tail);
    assert tail != "" ==> tail[1..] == l.after;
    TrimLeftToken(l.after, "");
    assert l.after + "" == l.after;
  }

  lemma ConditionParses(c: Condition, l: ConditionLayout, rest: string)
    requires ConditionOk(c, l) && (rest == "" || EndsValue(rest[0]))
    ensures ParseCondition(ShowCondition(c, l) + rest) == Got(Some(c), rest)
  {
    hide MatchKeyword, ParseIdentifier, ParseMark, ParseValue, ValueOk;
    var r3 := ShowValue(c.value, l.value) + rest;
    var r2 := l.equals + "=" + r3;
    var r1 := l.column + c.column + r2;
    assert ShowCondition(c, l) + rest == Show(l.whereWord) + r1;
    KeywordParses(l.whereWord, "where", r1);
    IdentifierParses(l.column, c.column, r2);
    MarkParses(l.equals, '=', r3);
    ValueParses(c.value, l.value, rest);
  }

  lemma SelectParses(q: Query, l: Layout)
    requires q.SelectQuery? && Fits(q, l) && Proper(q, l)
    ensures ParseSelect(Print(q, l)) == Some(q)
  {
    hide MatchKeyword, ParseIdentifier, ParseMark, ParseEnd, ConditionOk, EndOk, ShowEnd;
    var r5 := ShowEnd(l.end);
    var r4 := (if q.condition.Some? then ShowCondition(q.condition.value, l.condition.value) else "") + r5;
    var r3 := l.table + q.table + r4;
    var r2 := Show(l.from) + r3;
    var r1 := l.star + "*" + r2;
    KeywordParses(l.first, "select", r1);
    MarkParses(l.star, '*', r2);
    KeywordParses(l.from, "from", r3);
    EndStarts(l.end);
    EndParses(l.end);
    if q.condition.Some? {
      ConditionStarts(q.condition.value, l.condition.value, r5);
      ConditionParses(q.condition.value, l.condition.value, r5);
    } else {
      assert r4 == r5;
    }
    IdentifierParses(l.table, q.table, r4);
  }

  lemma ConditionStarts(c: Condition, l: ConditionLayout, rest: string)
    requires ConditionOk(c, l)
    ensures !StartsIdentifier(ShowCondition(c, l) + rest)
  {
    assert (ShowCondition(c, l) + rest)[0] == l.whereWord.before[0];
  }

  lemma {:induction false} ItemsParse(values: seq<string>, items: seq<ItemLayout>, rest: string)
    requires ItemsOk(values, items)
    ensures ParseValues(ShowItems(values, items) + rest) == Got(values, rest)
    decreases |values|
  {
    hide ParseValue, ValueOk, ShowValue;
    var last := |values| == 1;
    var tail := if last then ")" + rest else "," + (ShowItems(values[1..], items[1..]) + rest);
    var r1 := items[0].after + tail;
    assert ShowItems(values, items) + rest == ShowValue(values[0], items[0].value) + r1;
    ValueParses(values[0], items[0].value, r1);
    TrimLeftToken(items[0].after, tail);
    if last {
      assert tail[1..] == rest;
      assert values == [values[0]];
    } else {
      assert tail[1..] == ShowItems(values[1..], items[1..]) + rest;
      ItemsParse(values[1..], items[1..], rest);
      assert values == [values[0]] + values[1..];
    }
  }

  lemma InsertParses(q: Query, l: Layout)
    requires q.InsertQuery? && Fits(q, l) && Proper(q, l)
    ensures ParseInsert(Print(q, l)) == Some(q)
  {
    hide MatchKeyword, ParseIdentifier, ParseMark, ParseEnd, ParseValues, ItemsOk, EndOk, ShowEnd, ShowItems;
    var r6 := ShowEnd(l.end);
    var r5 := ShowItems(q.values, l.items) + r6;
    var r4 := l.open + "(" + r5;
    var r3 := Show(l.valuesWord) + r4;
    var r2 := l.table + q.table + r3;
    var r1 := Show(l.into) + r2;
    KeywordParses(l.first, "insert", r1);
    KeywordParses(l.into, "into", r2);
    IdentifierParses(l.table, q.table, r3);
    KeywordParses(l.valuesWord, "values", r4);
    MarkParses(l.open, '(', r5);
    ItemsParse(q.values, l.items, r6);
    EndParses(l.end);
  }

  /** The first word decides: a text that starts like one statement is not the other. */
  lemma FirstWordDecides(r: string)
    ensures MatchKeyword(r, "insert").Got? ==> MatchKeyword(r, "select").Fail? && TrimLeft(r) != ""
    ensures MatchKeyword(r, "select").Got? ==> TrimLeft(r) != ""
  {
    var s := TrimLeft(r);
    assert SameLetters(s, "insert") ==> ToLower(s[0]) == "insert"[0];
  }

  /** Round trip: every proper spelling of a query parses to the query. */
  lemma PrintParses(q: Query, l: Layout)
    requires Fits(q, l) && Proper(q, l)
    ensures ParseSql(Print(q, l)) == Some(q)
  {
    hide Print, Proper, MatchKeyword;
    FirstWordDecides(Print(q, l));
    if q.SelectQuery? {
      SelectParses(q, l);
    } else {
      InsertParses(q, l);
    }
  }

  // ---------------------------------------------------------------- what parses is a spelling

  lemma KeywordSpelled(r: string, keyword: string) returns (w: Word, rest: string)
    requires MatchKeyword(r, keyword).Got? && IsKeyword(keyword)
    ensures MatchKeyword(r, keyword) == Got((), rest) && r == Show(w) + rest
    ensures KeywordOk(w, keyword) && !StartsIdentifier(rest)
  {
    hide TrimLeft, AllSpace, StartsIdentifier, IsCaseOf, ToLower, IsKeyword;
    var g := TrimLeftCut(r);
    var s := TrimLeft(r);
    w := Word(g, s[..|keyword|]);
    rest := s[|keyword|..];
    SpelledLetters(s, keyword);
    assert s == s[..|keyword|] + s[|keyword|..];
  }

  lemma {:induction false} IdLengthMeaning(r: string)
    ensures forall i :: 0 <= i < IdLength(r) ==> IsIdChar(r[i])
    ensures !StartsIdentifier(r[IdLength(r)..])
  {
    if StartsIdentifier(r) {
      IdLengthMeaning(r[1..]);
      assert forall i :: 1 <= i < IdLength(r) ==> r[i] == r[1..][i - 1];
      assert r[IdLength(r)..] == r[1..][IdLength(r[1..])..];
    }
  }

  lemma IdentifierSpelled(r: string) returns (g: string, id: string, rest: string)
    requires ParseIdentifier(r).Got?
    ensures ParseIdentifier(r) == Got(id, rest) && r == g + id + rest
    ensures AllSpace(g) && IsIdentifier(id) && !StartsIdentifier(rest)
  {
    hide TrimLeft, IdLength, AllSpace;
    g := TrimLeftCut(r);
    var s := TrimLeft(r);
    IdLengthMeaning(s);
    id, rest := s[..IdLength(s)], s[IdLength(s)..];
    assert s == id + rest;
    assert g + (id + rest) == g + id + rest;
  }

  lemma MarkSpelled(r: string, c: char) returns (g: string, rest: string)
    requires ParseMark(r, c).Got?
    ensures ParseMark(r, c) == Got((), rest) && r == g + [c] + rest && AllSpace(g)
  {
    hide TrimLeft, AllSpace;
    g := TrimLeftCut(r);
    var s := TrimLeft(r);
    rest := s[1..];
    assert s == [c] + rest;
    assert g + ([c] + rest) == g + [c] + rest;
  }

  lemma {:induction false} QuotedLengthMeaning(r: string, quote: char)
    ensures quote !in r[..QuotedLength(r, quote)]
    ensures QuotedLength(r, quote) < |r| ==> r[QuotedLength(r, quote)] == quote
  {
    if r != "" && r[0] != quote {
      QuotedLengthMeaning(r[1..], quote);
      var n := QuotedLength(r, quote);
      assert r[..n] == [r[0]] + r[1..][..n - 1];
    }
  }

  lemma {:induction false} BareLengthMeaning(r: string)
    ensures forall i :: 0 <= i < BareLength(r) ==> !EndsValue(r[i])
    ensures BareLength(r) < |r| ==> EndsValue(r[BareLength(r)])
  {
    if r != "" && !EndsValue(r[0]) {
      BareLengthMeaning(r[1..]);
      assert forall i :: 1 <= i < BareLength(r) ==> r[i] == r[1..][i - 1];
    }
  }

  lemma QuotedSpelled(s: string) returns (v: string, rest: string)
    requires s != "" && IsQuote(s[0])
    requires var n := QuotedLength(s[1..], s[0]); 0 < n < |s[1..]|
    ensures var n := QuotedLength(s[1..], s[0]); v == s[1..][..n] && rest == s[1..][n + 1..]
    ensures s == [s[0]] + v + [s[0]] + rest && s[0] !in v
  {
    hide QuotedLength;
    var body, n := s[1..], QuotedLength(s[1..], s[0]);
    QuotedLengthMeaning(body, s[0]);
    v, rest := body[..n], body[n + 1..];
    assert body == v + [s[0]] + rest;
  }

  lemma ValueSpelled(r: string) returns (v: string, l: ValueLayout, rest: string)
    requires ParseValue(r).Got?
    ensures ParseValue(r) == Got(v, rest) && r == ShowValue(v, l) + rest && ValueOk(v, l)
  {
    hide TrimLeft, QuotedLength, BareLength, AllSpace;
    var g := TrimLeftCut(r);
    var s := TrimLeft(r);
    if s != "" && IsQuote(s[0]) {
      v, rest := QuotedSpelled(s);
      l := ValueLayout(g, Some(s[0]));
      assert g + ([s[0]] + v + [s[0]]) + rest == g + ([s[0]] + v + [s[0]] + rest);
    } else {
      BareLengthMeaning(s);
      v, rest := s[..BareLength(s)], s[BareLength(s)..];
      l := ValueLayout(g, None);
      assert g + v + rest == g + s;
    }
  }

  lemma EndSpelled(r: string) returns (l: EndLayout)
    requires ParseEnd(r)
    ensures r == ShowEnd(l) && EndOk(l)
  {
    var g := TrimLeftCut(r);
    var s := TrimLeft(r);
    if StartsWith(s, ';') {
      var h := TrimLeftCut(s[1..]);
      assert s[1..] == h;
      l := EndLayout(g, true, h);
      assert s == ";" + h;
    } else {
      TrimLeftHard(s);
      l := EndLayout(g, false, "");
    }
  }

  lemma TrimLeftHard(s: string)
    requires StartsHard(s)
    ensures TrimLeft(s) == s
  {
  }

  lemma ConditionSpelled(r: string) returns (c: Condition, l: ConditionLayout, rest: string)
    requires ParseCondition(r).Got? && ParseCondition(r).value.Some? && !StartsIdentifier(r)
    ensures ParseCondition(r) == Got(Some(c), rest) && r == ShowCondition(c, l) + rest && ConditionOk(c, l)
  {
    hide ParseIdentifier, ParseMark, ParseValue, MatchKeyword, ValueOk, ShowValue;
    var w, r1 := KeywordSpelled(r, "where");
    var g, id, r2 := IdentifierSpelled(r1);
    var e, r3 := MarkSpelled(r2, '=');
    var v, vl, r4 := ValueSpelled(r3);
    c, l, rest := Condition(id, v), ConditionLayout(w, g, e, vl), r4;
    WordNeedsGap(w, "where", r1);
    IdNeedsGap(g, id, r2);
    assert r == ShowCondition(c, l) + rest;
  }

  lemma WordNeedsGap(w: Word, keyword: string, rest: string)
    requires KeywordOk(w, keyword) && IsKeyword(keyword) && !StartsIdentifier(Show(w) + rest)
    ensures Gap(w.before)
  {
    LowerKind(w.text[0], keyword[0]);
  }

  lemma IdNeedsGap(g: string, id: string, rest: string)
    requires AllSpace(g) && IsIdentifier(id) && !StartsIdentifier(g + id + rest)
    ensures Gap(g)
  {
  }

  lemma SelectSpelled(r: string) returns (l: Layout)
    requires ParseSelect(r).Some?
    ensures var q := ParseSelect(r).value; Fits(q, l) && Proper(q, l) && r == Print(q, l)
  {
    hide ParseIdentifier, ParseMark, MatchKeyword, ParseEnd, EndOk, ShowEnd, ConditionOk, ShowCondition;
    var q := ParseSelect(r).value;
    var first, r1 := KeywordSpelled(r, "select");
    var star, r2 := MarkSpelled(r1, '*');
    var from, r3 := KeywordSpelled(r2, "from");
    var g, table, r4 := IdentifierSpelled(r3);
    IdNeedsGap(g, table, r4);
    if q.condition.Some? {
      var c, cl, r5 := ConditionSpelled(r4);
      var end := EndSpelled(r5);
      l := SelectLayout(first, star, from, g, Some(cl), end);
    } else {
      NoCondition(r4);
      var end := EndSpelled(r4);
      l := SelectLayout(first, star, from, g, None, end);
      assert "" + ShowEnd(end) == ShowEnd(end);
    }
  }

  lemma NoCondition(r: string)
    requires ParseCondition(r).Got? && ParseCondition(r).value.None?
    ensures ParseCondition(r).rest == r
  {
  }

  lemma {:induction false} ItemsSpelled(r: string) returns (items: seq<ItemLayout>, rest: string)
    requires ParseValues(r).Got?
    ensures var values := ParseValues(r).value;
            ParseValues(r) == Got(values, rest) && ItemsOk(values, items) && r == ShowItems(values, items) + rest
    decreases |r|
  {
    hide ParseValue, ValueOk, ShowValue;
    var v, l, r1 := ValueSpelled(r);
    ValueShrinks(r);
    TrimLeftShorter(r1);
    var g := TrimLeftCut(r1);
    var s := TrimLeft(r1);
    var item := ItemLayout(l, g);
    if StartsWith(s, ',') {
      assert s == "," + s[1..];
      items, rest := ItemsSpelled(s[1..]);
      var values := ParseValues(s[1..]).value;
      assert ([v] + values)[1..] == values && ([item] + items)[1..] == items;
      items := [item] + items;
    } else {
      rest := s[1..];
      assert s == ")" + rest;
      items := [item];
    }
  }

  lemma InsertSpelled(r: string) returns (l: Layout)
    requires ParseInsert(r).Some?
    ensures var q := ParseInsert(r).value; Fits(q, l) && Proper(q, l) && r == Print(q, l)
  {
    hide ParseIdentifier, ParseMark, MatchKeyword, ParseEnd, EndOk, ShowEnd, ParseValues, ShowItems;
    var first, r1 := KeywordSpelled(r, "insert");
    var into, r2 := KeywordSpelled(r1, "into");
    WordNeedsGap(into, "into", r2);
    var g, table, r3 := IdentifierSpelled(r2);
    IdNeedsGap(g, table, r3);
    var word, r4 := KeywordSpelled(r3, "values");
    WordNeedsGap(word, "values", r4);
    var open, r5 := MarkSpelled(r4, '(');
    var items, r6 := ItemsSpelled(r5);
    var end := EndSpelled(r6);
    l := InsertLayout(first, into, g, word, open, items, end);
  }

  /** The parser accepts nothing else: every text it accepts is a proper spelling of the query. */
  lemma ParsedIsSpelled(s: string) returns (l: Layout)
    requires ParseSql(s).Some?
    ensures var q := ParseSql(s).value; Fits(q, l) && Proper(q, l) && s == Print(q, l)
  {
    hide Proper, Print, ParseSelect, ParseInsert;
    if ParseSelect(s).Some? {
      l := SelectSpelled(s);
    } else {
      l := InsertSpelled(s);
    }
  }
}
