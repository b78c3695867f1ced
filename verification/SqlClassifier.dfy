/** The lock choice of src/server/request/sql_service.c and request_handler.c: a scanner of its own
    looks at the first word of the text and picks the read or the write lock.
 */
module SqlClassifier {
  import opened Common
  import opened Text
  import opened SqlGrammar
  import opened SqlParser

  datatype Operation = Read | Write

  /** The text after the line that starts here. */
  function AfterComment(r: string): (t: string)
    ensures |t| <= |r|
  {
    if r == "" || r[0] == '\n' then r else AfterComment(r[1..])
  }

  /** skip_sql_prefix: white space, line comments and semicolons. */
  function SkipPrefix(r: string): string
    decreases |r|
  {
    var s := TrimLeft(r);
    TrimLeftShorter(r);
    if |s| >= 2 && s[0] == '-' && s[1] == '-' then SkipPrefix(AfterComment(s[2..]))
    else if StartsWith(s, ';') then SkipPrefix(s[1..])
    else s
  }

  /** matches_keyword, with the keyword in upper case. */
  predicate MatchesUpper(text: string, keyword: string) {
    && |text| >= |keyword|
    && (forall i :: 0 <= i < |keyword| ==> ToUpper(text[i]) == keyword[i])
    && !StartsIdentifier(text[|keyword|..])
  }

  /** sql_service_classify_operation. */
  function Classify(s: string): Option<Operation> {
    var r := SkipPrefix(s);
    if r == "" then None
    else if MatchesUpper(r, "SELECT") then Some(Read)
    else if MatchesUpper(r, "INSERT") then Some(Write)
    else None
  }

  // ---------------------------------------------------------------- the scanner's loops

  method SkipSqlPrefix(s: string) returns (cursor: nat)
    requires IsCString(s)
    ensures cursor <= |s| && s[cursor..] == SkipPrefix(s)
  {
    cursor := 0;
    assert s[0..] == s;
    while true
      invariant cursor <= |s| && SkipPrefix(s[cursor..]) == SkipPrefix(s)
      decreases |s| - cursor
    {
      ghost var before := cursor;
      cursor := SkipWhitespace(s, cursor);
      RestHead(s, cursor);
      if CharAt(s, cursor) == '-' && CharAt(s, cursor + 1) == '-' {
        cursor := cursor + 2;
        cursor := SkipLine(s, cursor);
      } else if CharAt(s, cursor) == ';' {
        cursor := cursor + 1;
      } else {
        return;
      }
    }
  }

  method SkipLine(s: string, start: nat) returns (cursor: nat)
    requires IsCString(s) && start <= |s|
    ensures start <= cursor <= |s| && s[cursor..] == AfterComment(s[start..])
  {
    cursor := start;
    while CharAt(s, cursor) != '\0' && CharAt(s, cursor) != '\n'
      invariant start <= cursor <= |s| && AfterComment(s[cursor..]) == AfterComment(s[start..])
      decreases |s| - cursor
    {
      RestHead(s, cursor);
      cursor := cursor + 1;
    }
    RestHead(s, cursor);
  }

  method MatchesKeyword(s: string, start: nat, keyword: string) returns (ok: bool)
    requires IsCString(s) && IsCString(keyword) && start <= |s|
    ensures ok <==> MatchesUpper(s[start..], keyword)
  {
    assert forall j :: 0 <= j < |s| - start ==> s[start..][j] == s[start + j];
    var index := 0;
    while index < |keyword|
      invariant index <= |keyword| && start + index <= |s|
      invariant forall j :: 0 <= j < index ==> ToUpper(s[start + j]) == keyword[j]
    {
      if ToUpper(CharAt(s, start + index)) != keyword[index] {
        return false;
      }
      index := index + 1;
    }
    assert s[start..][|keyword|..] == s[start + index..];
    return !IsIdChar(CharAt(s, start + index));
  }

  method ClassifyOperation(s: string) returns (r: Option<Operation>)
    requires IsCString(s)
    ensures r == Classify(s)
  {
    hide SkipPrefix;
    var cursor := SkipSqlPrefix(s);
    if CharAt(s, cursor) == '\0' {
      return None;
    }
    var ok := MatchesKeyword(s, cursor, "SELECT");
    if ok {
      return Some(Read);
    }
    ok := MatchesKeyword(s, cursor, "INSERT");
    if ok {
      return Some(Write);
    }
    return None;
  }

  // ---------------------------------------------------------------- what may stand before the first word

  datatype Piece = Blanks(text: string) | Semicolon | Comment(text: string)

  predicate PieceOk(p: Piece) {
    (p.Blanks? ==> AllSpace(p.text)) && (p.Comment? ==> '\n' !in p.text)
  }

  function ShowPiece(p: Piece): string {
    match p
    case Blanks(text) => text
    case Semicolon => ";"
    case Comment(text) => "--" + text + "\n"
  }

  function ShowPieces(pieces: seq<Piece>): string {
    if pieces == [] then "" else ShowPiece(pieces[0]) + ShowPieces(pieces[1..])
  }

  predicate PiecesOk(pieces: seq<Piece>) {
    forall i :: 0 <= i < |pieces| ==> PieceOk(pieces[i])
  }

  lemma BlanksSkipped(g: string, rest: string)
    requires AllSpace(g)
    ensures SkipPrefix(g + rest) == SkipPrefix(rest)
  {
    TrimLeftGap(g, rest);
  }

  lemma {:induction false} CommentEnds(text: string, rest: string)
    requires '\n' !in text
    ensures AfterComment(text + "\n" + rest) == "\n" + rest
    decreases |text|
  {
    var all := text + "\n" + rest;
    if text == "" {
      assert all == "\n" + rest;
    } else {
      assert all[1..] == text[1..] + "\n" + rest;
      CommentEnds(text[1..], rest);
    }
  }

  lemma CommentSkipped(text: string, rest: string)
    requires '\n' !in text
    ensures SkipPrefix("--" + text + "\n" + rest) == SkipPrefix(rest)
  {
    var s, tail := "--" + text + "\n" + rest, text + "\n" + rest;
    assert s == "--" + tail && s[2..] == tail;
    CommentEnds(text, rest);
    assert TrimLeft(s) == s;
    BlanksSkipped("\n", rest);
  }

  lemma PieceSkipped(p: Piece, rest: string)
    requires PieceOk(p)
    ensures SkipPrefix(ShowPiece(p) + rest) == SkipPrefix(rest)
  {
    match p
    case Blanks(text) => BlanksSkipped(text, rest);
    case Semicolon =>
      assert TrimLeft(";" + rest) == ";" + rest && (";" + rest)[1..] == rest;
    case Comment(text) => CommentSkipped(text, rest);
  }

  lemma {:induction false} PiecesSkipped(pieces: seq<Piece>, rest: string)
    requires PiecesOk(pieces)
    ensures SkipPrefix(ShowPieces(pieces) + rest) == SkipPrefix(rest)
  {
    hide SkipPrefix, PieceOk, ShowPiece;
    if pieces == [] {
      assert "" + rest == rest;
    } else {
      var first, more := ShowPiece(pieces[0]), ShowPieces(pieces[1..]);
      assert first + more + rest == first + (more + rest);
      PieceSkipped(pieces[0], more + rest);
      PiecesSkipped(pieces[1..], rest);
    }
  }

  function KeywordFor(op: Operation): string {
    if op.Read? then "select" else "insert"
  }

  lemma UpperSpelled(text: string, op: Operation)
    ensures MatchesUpper(text, if op.Read? then "SELECT" else "INSERT") <==>
      var keyword := KeywordFor(op);
      && |text| >= |keyword| && (forall i :: 0 <= i < |keyword| ==> IsCaseOf(text[i], keyword[i]))
      && !StartsIdentifier(text[|keyword|..])
  {
    var upper, lower := if op.Read? then "SELECT" else "INSERT", KeywordFor(op);
    assert |upper| == |lower| && forall i :: 0 <= i < |upper| ==> ToUpper(lower[i]) == upper[i] && 'a' <= lower[i] <= 'z';
    hide ToUpper, IsCaseOf, KeywordFor, StartsIdentifier;
    if |text| >= |upper| {
      forall i | 0 <= i < |upper|
        ensures ToUpper(text[i]) == upper[i] <==> IsCaseOf(text[i], lower[i])
      {
        CaseOfIsLower(text[i], lower[i]);
      }
    }
  }

  /** Whatever stands before it, the word SELECT in any case means the read lock and the word INSERT the
      write lock. */
  lemma WordClassified(pieces: seq<Piece>, w: Word, rest: string, op: Operation)
    requires PiecesOk(pieces) && KeywordOk(w, KeywordFor(op)) && !StartsIdentifier(rest)
    ensures Classify(ShowPieces(pieces) + (Show(w) + rest)) == Some(op)
  {
    var keyword, text := KeywordFor(op), w.text + rest;
    PiecesSkipped(pieces, Show(w) + rest);
    assert Show(w) + rest == w.before + text;
    BlanksSkipped(w.before, text);
    assert IsCaseOf(w.text[0], keyword[0]) && text[0] == w.text[0];
    assert TrimLeft(text) == text && SkipPrefix(text) == text;
    assert text[|keyword|..] == rest;
    UpperSpelled(text, op);
    hide SkipPrefix, MatchesUpper, KeywordOk;
    NotBoth(text);
  }

  lemma {:induction false} AfterCommentCut(r: string) returns (text: string)
    requires AfterComment(r) != ""
    ensures '\n' !in text && r == text + AfterComment(r) && AfterComment(r)[0] == '\n'
  {
    if r[0] == '\n' {
      text := "";
    } else {
      text := AfterCommentCut(r[1..]);
      text := [r[0]] + text;
    }
  }

  predicate StartsComment(s: string) {
    |s| >= 2 && s[0] == '-' && s[1] == '-'
  }

  /** What the scanner does at its first character that is not white space. */
  lemma SkipStep(r: string)
    ensures SkipPrefix(r) ==
      var s := TrimLeft(r);
      if StartsComment(s) then SkipPrefix(AfterComment(s[2..]))
      else if StartsWith(s, ';') then SkipPrefix(s[1..])
      else s
    ensures SkipPrefix("") == ""
  {
  }

  lemma {:induction false} PrefixSpelled(r: string) returns (pieces: seq<Piece>)
    requires SkipPrefix(r) != ""
    ensures PiecesOk(pieces) && r == ShowPieces(pieces) + SkipPrefix(r)
    decreases |r|
  {
    SkipStep(r);
    hide SkipPrefix, TrimLeft, ShowPieces, AfterComment;
    var g := TrimLeftCut(r);
    var s := TrimLeft(r);
    if StartsComment(s) {
      var after := AfterComment(s[2..]);
      var text := AfterCommentCut(s[2..]);
      assert after == "\n" + after[1..];
      BlanksSkipped("\n", after[1..]);
      var more := PrefixSpelled(after[1..]);
      pieces := [Blanks(g), Comment(text)] + more;
      CommentFirst(r, g, s, text, after, more);
    } else if StartsWith(s, ';') {
      var more := PrefixSpelled(s[1..]);
      pieces := [Blanks(g), Semicolon] + more;
      SemicolonFirst(r, g, s, more);
    } else {
      pieces := [Blanks(g)];
      OnlyBlanks(g);
    }
  }

  lemma OnlyBlanks(g: string)
    ensures ShowPieces([Blanks(g)]) == g
  {
    assert [Blanks(g)][1..] == [] && ShowPieces([]) == "" && g + "" == g;
  }

  lemma SemicolonFirst(r: string, g: string, s: string, more: seq<Piece>)
    requires r == g + s && StartsWith(s, ';') && s[1..] == ShowPieces(more) + SkipPrefix(s[1..])
    ensures r == ShowPieces([Blanks(g), Semicolon] + more) + SkipPrefix(s[1..])
  {
    hide SkipPrefix, ShowPieces;
    PiecesTwo(Blanks(g), Semicolon, more);
    var tail, end := ShowPieces(more), SkipPrefix(s[1..]);
    assert s == ";" + s[1..];
    assert s == (";" + tail) + end;
    assert r == (g + (";" + tail)) + end;
  }

  lemma PiecesTwo(a: Piece, b: Piece, more: seq<Piece>)
    ensures ShowPieces([a, b] + more) == ShowPiece(a) + (ShowPiece(b) + ShowPieces(more))
  {
    var all := [a, b] + more;
    assert all[1..] == [b] + more && all[1..][1..] == more;
  }

  lemma CommentFirst(r: string, g: string, s: string, text: string, after: string, more: seq<Piece>)
    requires r == g + s && |s| >= 2 && s[0] == '-' && s[1] == '-' && s[2..] == text + after
    requires after != "" && after[0] == '\n' && after[1..] == ShowPieces(more) + SkipPrefix(after[1..])
    ensures r == ShowPieces([Blanks(g), Comment(text)] + more) + SkipPrefix(after[1..])
  {
    hide SkipPrefix, ShowPieces;
    PiecesTwo(Blanks(g), Comment(text), more);
    var tail, end := ShowPieces(more), SkipPrefix(after[1..]);
    assert s == "--" + s[2..] && after == "\n" + after[1..];
    assert s == "--" + (text + ("\n" + (tail + end)));
    assert s == ("--" + text + "\n" + tail) + end;
    assert r == (g + ("--" + text + "\n" + tail)) + end;
  }

  /** Nothing else gets a lock. */
  lemma ClassifiedHasWord(s: string, op: Operation) returns (pieces: seq<Piece>, w: Word, rest: string)
    requires Classify(s) == Some(op)
    ensures PiecesOk(pieces) && KeywordOk(w, KeywordFor(op)) && !StartsIdentifier(rest)
    ensures s == ShowPieces(pieces) + (Show(w) + rest)
  {
    hide SkipPrefix, MatchesUpper, StartsIdentifier, IsCaseOf, ShowPieces;
    var text, n := SkipPrefix(s), |KeywordFor(op)|;
    UpperSpelled(text, op);
    pieces := PrefixSpelled(s);
    w, rest := Word("", text[..n]), text[n..];
    assert Show(w) == text[..n] && text == text[..n] + text[n..];
  }

  // ---------------------------------------------------------------- the right lock

  lemma CasesAgree(a: char, upper: char, lower: char)
    requires 'A' <= upper <= 'Z' && lower == ToLower(upper)
    ensures ToUpper(a) == upper <==> ToLower(a) == ToLower(lower)
  {
  }

  /** A keyword the parser sees at the start of the text is the keyword the classifier sees. */
  lemma SameKeyword(r: string, upper: string, lower: string)
    requires upper != "" && |upper| == |lower| && MatchKeyword(r, lower).Got?
    requires forall i :: 0 <= i < |upper| ==> 'A' <= upper[i] <= 'Z' && lower[i] == ToLower(upper[i])
    ensures SkipPrefix(r) == TrimLeft(r) != "" && MatchesUpper(SkipPrefix(r), upper)
  {
    var s := TrimLeft(r);
    forall i | 0 <= i < |upper|
      ensures ToUpper(s[i]) == upper[i]
    {
      CasesAgree(s[i], upper[i], lower[i]);
    }
    assert ToUpper(s[0]) == upper[0];
  }

  lemma FirstWord(s: string)
    ensures ParseSelect(s).Some? ==> MatchKeyword(s, "select").Got? && ParseSelect(s).value.SelectQuery?
    ensures ParseInsert(s).Some? ==> MatchKeyword(s, "insert").Got? && ParseInsert(s).value.InsertQuery?
  {
    hide MatchKeyword, ParseMark, ParseIdentifier, ParseCondition, ParseEnd, ParseValues;
  }

  /** Whatever the parser accepts, the classifier calls READ exactly for SELECT and WRITE exactly for
      INSERT. */
  lemma LockIsRight(s: string)
    requires ParseSql(s).Some?
    ensures Classify(s) == Some(if ParseSql(s).value.SelectQuery? then Read else Write)
  {
    hide SkipPrefix, MatchesUpper, MatchKeyword, ParseSelect, ParseInsert;
    FirstWord(s);
    if ParseSelect(s).Some? {
      SameKeyword(s, "SELECT", "select");
    } else {
      SameKeyword(s, "INSERT", "insert");
      NotBoth(SkipPrefix(s));
    }
  }

  lemma NotBoth(text: string)
    ensures MatchesUpper(text, "INSERT") ==> !MatchesUpper(text, "SELECT")
  {
    assert MatchesUpper(text, "INSERT") ==> ToUpper(text[0]) == "INSERT"[0];
  }

  /** The statement that request_handler_handle runs under a lock, if it runs one. */
  function Executed(body: string, lock: Operation): Option<Query> {
    if Classify(body) == Some(lock) then ParseSql(body) else None
  }

  /** Nothing that executes under the read lock is an INSERT, and nothing the parser accepts fails
      to get its lock. */
  lemma InsertNeedsWriteLock(body: string)
    ensures Executed(body, Read).Some? ==> Executed(body, Read).value.SelectQuery?
    ensures Executed(body, Write).Some? ==> Executed(body, Write).value.InsertQuery?
    ensures ParseSql(body).Some? ==>
      Executed(body, if ParseSql(body).value.SelectQuery? then Read else Write) == ParseSql(body)
  {
    if ParseSql(body).Some? {
      LockIsRight(body);
    }
  }
}
