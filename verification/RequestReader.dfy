/** The incremental request reader of src/server/api/socket_server.c, and the search for the body in
    src/server/request/http_protocol.c.

  A connection is the sequence of characters that arrive before the end of input or the receive
  timeout.  recv hands them out in pieces of any size and may be interrupted.
 */
module RequestReader {
  import opened Common
  import opened Text
  import opened TableModel
  import Csv

  const INITIAL_CAPACITY := 1024
  const MAX_CAPACITY := 65536

  /** size_t arithmetic wraps around here. */
  const SIZE := 0x1_0000_0000_0000_0000

  // ---------------------------------------------------------------- the end of the headers

  /** The length of the blank line that starts at i: 2 for LF LF, 4 for CR LF CR LF, 0 for none. */
  function TerminatorAt(s: string, i: nat): (n: nat)
    ensures i + n <= |s| || n == 0
  {
    if i + 1 < |s| && s[i] == '\n' && s[i + 1] == '\n' then 2
    else if i + 3 < |s| && s[i] == '\r' && s[i + 1] == '\n' && s[i + 2] == '\r' && s[i + 3] == '\n' then 4
    else 0
  }

  /** Where the first blank line that starts at i or later ends. */
  function HeaderEndFrom(s: string, i: nat): Option<nat>
    decreases |s| - i
  {
    if i + 1 >= |s| then None
    else if TerminatorAt(s, i) > 0 then Some(i + TerminatorAt(s, i))
    else HeaderEndFrom(s, i + 1)
  }

  /** The length of the header, up to and with its blank line. */
  function HeaderEnd(s: string): Option<nat> {
    HeaderEndFrom(s, 0)
  }

  lemma {:induction false} HeaderEndMeaning(s: string, i: nat) returns (j: nat)
    requires HeaderEndFrom(s, i).Some?
    ensures i <= j < |s| && TerminatorAt(s, j) > 0 && HeaderEndFrom(s, i).value == j + TerminatorAt(s, j)
    decreases |s| - i
  {
    if TerminatorAt(s, i) > 0 {
      j := i;
    } else {
      j := HeaderEndMeaning(s, i + 1);
    }
  }

  /** Of two blank lines the one that starts first ends first. */
  lemma LaterEndsLater(s: string, i: nat, j: nat)
    requires i < j && TerminatorAt(s, i) > 0 && TerminatorAt(s, j) > 0
    ensures i + TerminatorAt(s, i) < j + TerminatorAt(s, j)
  {
  }

  lemma TerminatorInPrefix(s: string, n: nat, i: nat)
    requires n <= |s|
    ensures TerminatorAt(s[..n], i) == if i + TerminatorAt(s, i) <= n then TerminatorAt(s, i) else 0
  {
  }

  /** A prefix has the blank line exactly when it reaches its end, and never a different one. */
  lemma {:induction false} HeaderEndOfPrefix(s: string, n: nat, i: nat)
    requires n <= |s|
    ensures HeaderEndFrom(s[..n], i) ==
      if HeaderEndFrom(s, i).Some? && HeaderEndFrom(s, i).value <= n then HeaderEndFrom(s, i) else None
    decreases |s| - i
  {
    if i + 1 < |s| {
      HeaderEndOfPrefix(s, n, i + 1);
      TerminatorInPrefix(s, n, i);
      hide TerminatorAt;
      if HeaderEndFrom(s, i + 1).Some? {
        var j := HeaderEndMeaning(s, i + 1);
        if TerminatorAt(s, i) > 0 {
          LaterEndsLater(s, i, j);
        }
      }
    }
  }

  /** server_find_request_terminator, with the header length it gives. */
  method FindRequestTerminator(buffer: array<char>, length: nat) returns (r: Option<nat>)
    requires length <= buffer.Length
    ensures r == HeaderEnd(buffer[..length])
  {
    if length < 2 {
      return None;
    }
    ghost var s := buffer[..length];
    var index := 0;
    while index + 1 < length
      invariant index < length && HeaderEnd(s) == HeaderEndFrom(s, index)
    {
      if buffer[index] == '\n' && buffer[index + 1] == '\n' {
        return Some(index + 2);
      }
      if index + 3 < length && buffer[index] == '\r' && buffer[index + 1] == '\n' && buffer[index + 2] == '\r'
         && buffer[index + 3] == '\n' {
        return Some(index + 4);
      }
      index := index + 1;
    }
    return None;
  }

  // ---------------------------------------------------------------- the body

  /** strstr: the first place where pattern occurs. */
  function Find(s: string, pattern: string, i: nat): Option<nat>
    decreases |s| - i
  {
    if i + |pattern| > |s| then None
    else if s[i..i + |pattern|] == pattern then Some(i)
    else Find(s, pattern, i + 1)
  }

  const CRLF_CRLF := "\r\n\r\n"
  const LF_LF := "\n\n"

  /** The end of the blank line that starts first. */
  function FirstEnd(crlf: Option<nat>, lf: Option<nat>): Option<nat> {
    if crlf.Some? && (lf.None? || crlf.value < lf.value) then Some(crlf.value + 4)
    else if lf.Some? then Some(lf.value + 2)
    else None
  }

  /** find_body_start. */
  function FindBodyStart(s: string): Option<nat> {
    FirstEnd(Find(s, CRLF_CRLF, 0), Find(s, LF_LF, 0))
  }

  /** Two searches and a comparison find what one scan for either finds. */
  lemma {:induction false} SameBoundary(s: string, i: nat)
    ensures HeaderEndFrom(s, i) == FirstEnd(Find(s, CRLF_CRLF, i), Find(s, LF_LF, i))
    ensures Find(s, CRLF_CRLF, i).Some? ==> Find(s, CRLF_CRLF, i).value >= i
    ensures Find(s, LF_LF, i).Some? ==> Find(s, LF_LF, i).value >= i
    decreases |s| - i
  {
    if i + 1 < |s| {
      SameBoundary(s, i + 1);
      if i + 3 < |s| {
        assert s[i..i + 4] == [s[i], s[i + 1], s[i + 2], s[i + 3]];
      }
      assert s[i..i + 2] == [s[i], s[i + 1]];
    }
  }

  /** On the C string the request becomes, the body is found exactly if no NUL came before it. */
  lemma BodyStartOfRequest(s: string)
    ensures FindBodyStart(Csv.UpToNul(s)) ==
      if HeaderEnd(s).Some? && HeaderEnd(s).value <= |Csv.UpToNul(s)| then HeaderEnd(s) else None
    ensures IsCString(s) ==> FindBodyStart(s) == HeaderEnd(s)
  {
    hide Find, HeaderEndFrom, Csv.UpToNul, FirstEnd;
    var n := |Csv.UpToNul(s)|;
    assert s[..n] == Csv.UpToNul(s);
    SameBoundary(s, 0);
    SameBoundary(s[..n], 0);
    HeaderEndOfPrefix(s, n, 0);
  }

  // ---------------------------------------------------------------- Content-Length

  datatype Kind = LineEnd | InLine | Blank | Digit | NotColon

  predicate Is(c: char, k: Kind) {
    match k
    case LineEnd => c == '\r' || c == '\n'
    case InLine => c != '\r' && c != '\n'
    case Blank => c == ' ' || c == '\t'
    case Digit => IsDigit(c)
    case NotColon => c != ':'
  }

  /** How many characters of the kind the text starts with. */
  function Run(s: string, k: Kind): (n: nat)
    ensures n <= |s| && (forall i :: 0 <= i < n ==> Is(s[i], k)) && (n < |s| ==> !Is(s[n], k))
  {
    if s == "" || !Is(s[0], k) then 0
    else
      var n := 1 + Run(s[1..], k);
      assert forall i :: 1 <= i < n ==> s[i] == s[1..][i - 1];
      n
  }

  predicate SameName(a: string, b: string) {
    |a| == |b| && forall i :: 0 <= i < |a| ==> ToLower(a[i]) == ToLower(b[i])
  }

  const NAME := "Content-Length"

  predicate IsLengthLine(line: string) {
    Run(line, NotColon) < |line| && SameName(line[..Run(line, NotColon)], NAME)
  }

  /** What follows the colon. */
  function ValueOf(line: string): string
    requires IsLengthLine(line)
  {
    line[Run(line, NotColon) + 1..]
  }

  /** Blanks, at least one digit, blanks. */
  function ParseLength(value: string): Option<nat> {
    var s := value[Run(value, Blank)..];
    var n := Run(s, Digit);
    if n == 0 || Run(s[n..], Blank) < |s| - n then None else Some(DigitsValue(s[..n]) % SIZE)
  }

  /** server_parse_content_length: the first Content-Length line counts, none means 0, a bad one is an
      error. */
  function ContentLength(s: string): Option<nat>
    decreases |s|
  {
    var n := Run(s, InLine);
    if n == 0 then Some(0)
    else if IsLengthLine(s[..n]) then ParseLength(ValueOf(s[..n]))
    else ContentLength(s[n..][Run(s[n..], LineEnd)..])
  }

  method SkipRun(s: string, start: nat, end: nat, k: Kind) returns (cursor: nat)
    requires start <= end <= |s|
    ensures cursor == start + Run(s[start..end], k)
  {
    cursor := start;
    while cursor < end && Is(s[cursor], k)
      invariant start <= cursor <= end && Run(s[start..end], k) == cursor - start + Run(s[cursor..end], k)
    {
      assert s[cursor..end][1..] == s[cursor + 1..end];
      cursor := cursor + 1;
    }
  }

  /** server_ascii_case_equals. */
  method AsciiCaseEquals(left: string, right: string) returns (ok: bool)
    ensures ok <==> SameName(left, right)
  {
    if |right| != |left| {
      return false;
    }
    for index := 0 to |left|
      invariant forall i :: 0 <= i < index ==> ToLower(left[i]) == ToLower(right[i])
    {
      if ToLower(left[index]) != ToLower(right[index]) {
        return false;
      }
    }
    return true;
  }

  lemma LengthOfParts(value: string, text: string, digits: nat)
    requires text == value[Run(value, Blank)..] && digits == Run(text, Digit)
    ensures ParseLength(value) ==
      if digits == 0 || Run(text[digits..], Blank) < |text| - digits then None else Some(DigitsValue(text[..digits]) % SIZE)
  {
  }

  lemma NoDigits(s: string)
    ensures AllDigits(s[..0]) && DigitsValue(s[..0]) == 0
  {
  }

  /** The value of a Content-Length line, from the character after the colon. */
  method ParseLengthValue(s: string, start: nat, lineEnd: nat) returns (r: Option<nat>)
    requires start <= lineEnd <= |s|
    ensures r == ParseLength(s[start..lineEnd])
  {
    hide Run, DigitsValue, ParseLength, AllDigits;
    var first := SkipRun(s, start, lineEnd, Blank);
    ghost var value, text := s[start..lineEnd], s[first..lineEnd];
    assert value[first - start..] == text;
    NoDigits(text);
    var valueStart, parsed, sawDigit := first, 0, false;
    while valueStart < lineEnd
      invariant first <= valueStart <= lineEnd && sawDigit == (valueStart > first)
      invariant AllDigits(text[..valueStart - first]) && parsed == DigitsValue(text[..valueStart - first]) % SIZE
    {
      ghost var n := valueStart - first;
      if IsDigit(s[valueStart]) {
        DigitsStep(text, n);
        WrapStep(DigitsValue(text[..n]), s[valueStart] as int - '0' as int);
        sawDigit := true;
        parsed := (parsed * 10 + (s[valueStart] as int - '0' as int)) % SIZE;
      } else {
        DigitsEnd(text, n);
        LengthOfParts(value, text, n);
        assert text[n..] == s[valueStart..lineEnd];
        var trailing := SkipRun(s, valueStart, lineEnd, Blank);
        if trailing < lineEnd || !sawDigit {
          return None;
        }
        return Some(parsed);
      }
      valueStart := valueStart + 1;
    }
    DigitsEnd(text, |text|);
    LengthOfParts(value, text, |text|);
    if !sawDigit {
      return None;
    }
    return Some(parsed);
  }

  lemma DigitsEnd(s: string, n: nat)
    requires n <= |s| && AllDigits(s[..n]) && (n < |s| ==> !IsDigit(s[n]))
    ensures Run(s, Digit) == n
  {
    assert forall i :: 0 <= i < n ==> s[..n][i] == s[i];
    RunExact(s, Digit, n);
  }

  /** Wrapping at every digit is wrapping once. */
  lemma WrapStep(v: nat, d: nat)
    ensures (10 * (v % SIZE) + d) % SIZE == (10 * v + d) % SIZE
  {
    var q, r := v / SIZE, v % SIZE;
    assert 10 * v + d == (10 * r + d) + SIZE * (10 * q);
    WrapMultiple(10 * r + d, 10 * q);
  }

  lemma {:induction false} WrapMultiple(x: nat, k: nat)
    ensures (x + SIZE * k) % SIZE == x % SIZE
  {
    if k > 0 {
      WrapMultiple(x, k - 1);
      assert x + SIZE * k == (x + SIZE * (k - 1)) + SIZE;
    }
  }

  lemma DigitsStep(s: string, n: nat)
    requires n < |s| && AllDigits(s[..n]) && IsDigit(s[n])
    ensures AllDigits(s[..n + 1]) && DigitsValue(s[..n + 1]) == 10 * DigitsValue(s[..n]) + (s[n] as int - '0' as int)
  {
    assert s[..n + 1][..n] == s[..n];
  }

  lemma {:induction false} RunExact(s: string, k: Kind, n: nat)
    requires n <= |s| && (forall i :: 0 <= i < n ==> Is(s[i], k)) && (n < |s| ==> !Is(s[n], k))
    ensures Run(s, k) == n
  {
    if n > 0 {
      RunExact(s[1..], k, n - 1);
    }
  }

  /** Whether the line is the Content-Length line, and then its value. */
  method ReadLine(s: string, cursor: nat, lineEnd: nat) returns (isLength: bool, r: Option<nat>)
    requires cursor <= lineEnd <= |s|
    ensures isLength <==> IsLengthLine(s[cursor..lineEnd])
    ensures isLength ==> r == ParseLength(ValueOf(s[cursor..lineEnd]))
  {
    hide Run, ParseLength;
    ghost var line := s[cursor..lineEnd];
    var colon := SkipRun(s, cursor, lineEnd, NotColon);
    if colon == lineEnd {
      return false, None;
    }
    assert line[..colon - cursor] == s[cursor..colon] && line[colon - cursor + 1..] == s[colon + 1..lineEnd];
    isLength := AsciiCaseEquals(s[cursor..colon], NAME);
    if !isLength {
      return false, None;
    }
    r := ParseLengthValue(s, colon + 1, lineEnd);
  }

  lemma NoMoreLines(s: string)
    requires s == "" || Run(s, InLine) == 0
    ensures ContentLength(s) == Some(0)
  {
  }

  lemma LengthLine(s: string)
    requires Run(s, InLine) > 0 && IsLengthLine(s[..Run(s, InLine)])
    ensures ContentLength(s) == ParseLength(ValueOf(s[..Run(s, InLine)]))
  {
  }

  lemma OtherLine(s: string, next: nat)
    requires var n := Run(s, InLine); n > 0 && !IsLengthLine(s[..n]) && next == n + Run(s[n..], LineEnd)
    ensures next <= |s| && ContentLength(s) == ContentLength(s[next..])
  {
    hide Run, IsLengthLine, ValueOf, ParseLength;
    var n := Run(s, InLine);
    assert s[n..][Run(s[n..], LineEnd)..] == s[next..];
  }

  method ParseContentLength(s: string) returns (r: Option<nat>)
    ensures r == ContentLength(s)
  {
    hide Run, ParseLength, IsLengthLine, ValueOf, ContentLength;
    var cursor := 0;
    assert s[0..] == s;
    while cursor < |s|
      invariant cursor <= |s| && ContentLength(s) == ContentLength(s[cursor..])
    {
      ghost var rest := s[cursor..];
      assert s[cursor..|s|] == rest;
      var lineEnd := SkipRun(s, cursor, |s|, InLine);
      if lineEnd == cursor {
        NoMoreLines(rest);
        return Some(0);
      }
      ghost var n := lineEnd - cursor;
      assert rest[..n] == s[cursor..lineEnd] && rest[n..] == s[lineEnd..|s|];
      var isLength;
      isLength, r := ReadLine(s, cursor, lineEnd);
      if isLength {
        LengthLine(rest);
        return;
      }
      ghost var begin := cursor;
      cursor := SkipRun(s, lineEnd, |s|, LineEnd);
      OtherLine(rest, cursor - begin);
      assert rest[cursor - begin..] == s[cursor..];
    }
    NoMoreLines(s[cursor..]);
    return Some(0);
  }

  // ---------------------------------------------------------------- reading

  datatype Outcome =
    | Complete(headerLength: nat, contentLength: nat)
    | Empty
    | TooLarge
    | Error

  /** Header and content, as size_t adds them. */
  function Total(headerLength: nat, contentLength: nat): nat {
    (headerLength + contentLength) % SIZE
  }

  lemma TotalPlain(headerLength: nat, contentLength: nat)
    requires headerLength + contentLength < SIZE
    ensures Total(headerLength, contentLength) == headerLength + contentLength
  {
  }

  /** What the whole input amounts to, however it arrives. */
  function OutcomeOf(stream: string): Outcome {
    match HeaderEnd(stream)
    case None => if |stream| >= MAX_CAPACITY then TooLarge else if stream == "" then Empty else Error
    case Some(h) =>
      if h > MAX_CAPACITY || h > |stream| then TooLarge
      else
        match ContentLength(stream[..h])
        case None => Error
        case Some(c) =>
          if Total(h, c) > MAX_CAPACITY then TooLarge
          else if |stream| < Total(h, c) then Error
          else Complete(h, c)
  }

  function Min(a: int, b: int): int {
    if a < b then a else b
  }

  /** realloc to twice the capacity, at most the maximum. */
  method Grow(buffer: array<char>, length: nat, capacity: nat) returns (grown: array<char>, next: nat)
    requires length <= capacity && 0 < capacity < MAX_CAPACITY && buffer.Length == capacity + 1
    ensures capacity < next <= MAX_CAPACITY
    ensures grown.Length == next + 1 && fresh(grown) && length <= next && grown[..length] == buffer[..length]
  {
    next := Min(capacity * 2, MAX_CAPACITY);
    grown := new char[next + 1];
    forall i | 0 <= i < length {
      grown[i] := buffer[i];
    }
  }

  /** The bytes recv puts at the end of the buffer. */
  method Receive(buffer: array<char>, length: nat, stream: string, n: nat)
    requires length + n <= |stream| && length + n <= buffer.Length && buffer[..length] == stream[..length]
    modifies buffer
    ensures buffer[..length + n] == stream[..length + n]
  {
    forall i | length <= i < length + n {
      buffer[i] := stream[i];
    }
  }

  /** What the reader knows after `length` characters. */
  ghost predicate Progress(stream: string, length: nat, headersComplete: bool, headerLength: nat, contentLength: nat) {
    && length <= |stream|
    && if headersComplete then
         && HeaderEnd(stream) == Some(headerLength) && 0 < headerLength <= length
         && ContentLength(stream[..headerLength]) == Some(contentLength)
       else HeaderEnd(stream).None? || HeaderEnd(stream).value > length
  }

  lemma HeadersArrived(stream: string, length: nat)
    requires length <= |stream|
    ensures HeaderEnd(stream[..length]).Some? ==>
              HeaderEnd(stream) == HeaderEnd(stream[..length]) && 0 < HeaderEnd(stream).value <= length
    ensures HeaderEnd(stream[..length]).None? ==> HeaderEnd(stream).None? || HeaderEnd(stream).value > length
  {
    HeaderEndOfPrefix(stream, length, 0);
    if HeaderEnd(stream).Some? {
      var j := HeaderEndMeaning(stream, 0);
    }
  }

  lemma HeaderEndInside(stream: string)
    requires HeaderEnd(stream).Some?
    ensures 0 < HeaderEnd(stream).value <= |stream|
  {
    var j := HeaderEndMeaning(stream, 0);
  }

  lemma NothingRead(stream: string)
    ensures Progress(stream, 0, false, 0, 0)
  {
    if HeaderEnd(stream).Some? {
      HeaderEndInside(stream);
    }
  }

  lemma GivesUp(stream: string, length: nat, headersComplete: bool, headerLength: nat, contentLength: nat)
    requires Progress(stream, length, headersComplete, headerLength, contentLength)
    requires if headersComplete then Total(headerLength, contentLength) > MAX_CAPACITY else length >= MAX_CAPACITY
    ensures OutcomeOf(stream) == TooLarge
  {
    hide HeaderEnd, ContentLength;
  }

  lemma Concludes(stream: string, length: nat, headersComplete: bool, headerLength: nat, contentLength: nat)
    requires Progress(stream, length, headersComplete, headerLength, contentLength) && length <= MAX_CAPACITY
    requires length == |stream| < MAX_CAPACITY || (headersComplete && length >= Total(headerLength, contentLength))
    requires headersComplete ==> Total(headerLength, contentLength) <= MAX_CAPACITY
    ensures OutcomeOf(stream) ==
      if length == 0 then Empty
      else if !headersComplete || length < Total(headerLength, contentLength) then Error
      else Complete(headerLength, contentLength)
  {
    if HeaderEnd(stream).Some? {
      HeaderEndInside(stream);
    }
    hide HeaderEnd, ContentLength;
  }

  /** Looking for the end of the headers after more input. */
  method Examine(buffer: array<char>, length: nat, ghost stream: string)
    returns (ok: bool, headersComplete: bool, headerLength: nat, contentLength: nat)
    requires length <= buffer.Length && length <= |stream| && length <= MAX_CAPACITY && buffer[..length] == stream[..length]
    ensures if ok then Progress(stream, length, headersComplete, headerLength, contentLength) else OutcomeOf(stream) == Error
  {
    hide HeaderEnd, ContentLength;
    HeadersArrived(stream, length);
    var end := FindRequestTerminator(buffer, length);
    if end.None? {
      return true, false, 0, 0;
    }
    headerLength := end.value;
    assert buffer[..headerLength] == stream[..length][..headerLength] == stream[..headerLength];
    var parsed := ParseContentLength(buffer[..headerLength]);
    if parsed.None? {
      return false, false, headerLength, 0;
    }
    return true, true, headerLength, parsed.value;
  }

  /** server_socket_read_request.  `pieces` are the sizes recv delivers at most, one after the other; 0
      is an interrupted call; after them it delivers whatever fits.  The outcome is that of the whole
      input whatever the pieces are, and on success the input's beginning is in the buffer. */
  method ReadRequest(stream: string, pieces: seq<nat>) returns (outcome: Outcome, buffer: array<char>, length: nat)
    ensures outcome == OutcomeOf(stream)
    ensures outcome.Complete? ==>
      && Total(outcome.headerLength, outcome.contentLength) <= length <= MAX_CAPACITY && length <= |stream|
      && length < buffer.Length && buffer[..length] == stream[..length] && buffer[length] == '\0'
    ensures outcome.Complete? && outcome.headerLength + outcome.contentLength < SIZE ==>
      outcome.headerLength + outcome.contentLength <= length
  {
    hide Progress, OutcomeOf, Total;
    var capacity := INITIAL_CAPACITY;
    buffer := new char[capacity + 1];
    length := 0;
    var headersComplete, turn := false, 0;
    var headerLength: nat, contentLength: nat := 0, 0;
    NothingRead(stream);
    while true
      invariant length <= capacity <= MAX_CAPACITY && 0 < capacity && buffer.Length == capacity + 1 && turn <= |pieces|
      invariant length <= |stream| && buffer[..length] == stream[..length] && fresh(buffer)
      invariant Progress(stream, length, headersComplete, headerLength, contentLength)
      invariant headersComplete ==> length < Total(headerLength, contentLength)
      decreases |pieces| - turn, |stream| - length
    {
      if headersComplete && Total(headerLength, contentLength) > MAX_CAPACITY {
        GivesUp(stream, length, headersComplete, headerLength, contentLength);
        return TooLarge, buffer, length;
      }
      if length == capacity {
        if capacity >= MAX_CAPACITY {
          GivesUp(stream, length, headersComplete, headerLength, contentLength);
          return TooLarge, buffer, length;
        }
        buffer, capacity := Grow(buffer, length, capacity);
      }
      var n := Min(capacity - length, |stream| - length);
      if turn < |pieces| {
        turn := turn + 1;
        if pieces[turn - 1] == 0 {
          continue;
        }
        n := Min(n, pieces[turn - 1]);
      }
      if n == 0 {
        break;
      }
      Receive(buffer, length, stream, n);
      length := length + n;
      if !headersComplete {
        var ok;
        ok, headersComplete, headerLength, contentLength := Examine(buffer, length, stream);
        if !ok {
          return Error, buffer, length;
        }
      } else {
        MoreRead(stream, length - n, length, headerLength, contentLength);
      }
      if headersComplete && length >= Total(headerLength, contentLength) {
        break;
      }
    }
    Concludes(stream, length, headersComplete, headerLength, contentLength);
    if length == 0 {
      return Empty, buffer, length;
    }
    if !headersComplete {
      return Error, buffer, length;
    }
    if length < Total(headerLength, contentLength) {
      return Error, buffer, length;
    }
    buffer[length] := '\0';
    if headerLength + contentLength < SIZE {
      TotalPlain(headerLength, contentLength);
    }
    return Complete(headerLength, contentLength), buffer, length;
  }

  lemma MoreRead(stream: string, before: nat, length: nat, headerLength: nat, contentLength: nat)
    requires Progress(stream, before, true, headerLength, contentLength) && before <= length <= |stream|
    ensures Progress(stream, length, true, headerLength, contentLength)
  {
  }

  // ---------------------------------------------------------------- well-formed requests

  predicate IsLine(line: string) {
    line != "" && forall i :: 0 <= i < |line| ==> Is(line[i], InLine)
  }

  predicate AllBlank(s: string) {
    forall i :: 0 <= i < |s| ==> Is(s[i], Blank)
  }

  /** A Content-Length line: the name in any case, and blanks around the digits. */
  datatype LengthField = LengthField(name: string, before: string, digits: string, after: string)

  function ShowField(f: LengthField): string {
    f.name + ":" + f.before + f.digits + f.after
  }

  /** The name of the header in any mixture of cases. */
  predicate NameOk(name: string) {
    |name| == |SMALL_NAME| && forall i :: 0 <= i < |name| ==> IsCaseOf(name[i], SMALL_NAME[i])
  }

  const SMALL_NAME := "content-length"

  lemma NameIsSpelled(name: string)
    ensures SameName(name, NAME) <==> NameOk(name)
  {
    assert forall i :: 0 <= i < |SMALL_NAME| ==> ToLower(NAME[i]) == SMALL_NAME[i];
    assert forall i :: 0 <= i < |SMALL_NAME| ==> !('A' <= SMALL_NAME[i] <= 'Z');
    hide ToLower, IsCaseOf;
    if |name| == |SMALL_NAME| {
      forall i | 0 <= i < |name|
        ensures ToLower(name[i]) == ToLower(NAME[i]) <==> IsCaseOf(name[i], SMALL_NAME[i])
      {
        CaseOfIsLower(name[i], SMALL_NAME[i]);
      }
    }
  }

  predicate FieldSays(f: LengthField, n: nat) {
    && NameOk(f.name) && AllBlank(f.before) && AllBlank(f.after)
    && f.digits != "" && AllDigits(f.digits) && DigitsValue(f.digits) == n
  }

  /** Lines that end in CR LF, the first of them the request line. */
  function ShowLines(lines: seq<string>): string {
    if lines == [] then "" else lines[0] + "\r\n" + ShowLines(lines[1..])
  }

  /** A request as section 6 of RFC 9112 has it: a request line and headers, among them the length. */
  function Request(before: seq<string>, field: LengthField, after: seq<string>, body: string): string {
    ShowLines(before + [ShowField(field)] + after) + "\r\n" + body
  }

  function Shift(h: Option<nat>, n: nat): Option<nat> {
    if h.Some? then Some(h.value + n) else None
  }

  lemma {:induction false} HeaderEndShifts(a: string, r: string, i: nat)
    ensures HeaderEndFrom(a + r, |a| + i) == Shift(HeaderEndFrom(r, i), |a|)
    decreases |r| - i
  {
    if i + 1 < |r| {
      HeaderEndShifts(a, r, i + 1);
      assert TerminatorAt(a + r, |a| + i) == TerminatorAt(r, i);
    }
  }

  lemma {:induction false} NoneBefore(s: string, i: nat, n: nat)
    requires i <= n <= |s| && forall j :: i <= j < n ==> TerminatorAt(s, j) == 0
    ensures HeaderEndFrom(s, i) == HeaderEndFrom(s, n)
    decreases n - i
  {
    if i < n {
      NoneBefore(s, i + 1, n);
    }
  }

  predicate StartsLine(r: string) {
    r != "" && Is(r[0], InLine)
  }

  /** A line that is followed by another one holds no blank line. */
  lemma LineHasNoEnd(line: string, r: string)
    requires (forall i :: 0 <= i < |line| ==> Is(line[i], InLine)) && StartsLine(r)
    ensures HeaderEnd(line + "\r\n" + r) == Shift(HeaderEnd(r), |line| + 2)
  {
    var s := line + "\r\n" + r;
    forall j | 0 <= j < |line| + 2
      ensures TerminatorAt(s, j) == 0
    {
      assert s[j] == if j < |line| then line[j] else if j == |line| then '\r' else '\n';
      assert s[|line| + 2] == r[0];
    }
    NoneBefore(s, 0, |line| + 2);
    HeaderEndShifts(line + "\r\n", r, 0);
  }

  /** The last line is followed by the blank line. */
  lemma LastLineEnd(line: string, body: string)
    requires line != "" && forall i :: 0 <= i < |line| ==> Is(line[i], InLine)
    ensures HeaderEnd(line + "\r\n\r\n" + body) == Some(|line| + 4)
  {
    var s := line + "\r\n\r\n" + body;
    forall j | 0 <= j < |line|
      ensures TerminatorAt(s, j) == 0
    {
      assert s[j] == line[j];
    }
    NoneBefore(s, 0, |line|);
    assert s[|line|..|line| + 4] == "\r\n\r\n";
    assert s[|line|] == '\r' && s[|line| + 1] == '\n' && s[|line| + 2] == '\r' && s[|line| + 3] == '\n';
  }

  /** The header of lines ends with the blank line after them. */
  lemma {:induction false} LinesEnd(lines: seq<string>, body: string)
    requires lines != [] && forall i :: 0 <= i < |lines| ==> IsLine(lines[i])
    ensures StartsLine(ShowLines(lines))
    ensures HeaderEnd(ShowLines(lines) + "\r\n" + body) == Some(|ShowLines(lines)| + 2)
  {
    hide HeaderEnd;
    var line, rest := lines[0], ShowLines(lines[1..]);
    assert IsLine(line);
    if |lines| == 1 {
      assert ShowLines(lines) + "\r\n" + body == line + "\r\n\r\n" + body;
      LastLineEnd(line, body);
    } else {
      LinesEnd(lines[1..], body);
      assert ShowLines(lines) + "\r\n" + body == line + "\r\n" + (rest + "\r\n" + body);
      LineHasNoEnd(line, rest + "\r\n" + body);
    }
  }

  lemma LineIsSkipped(line: string, r: string)
    requires IsLine(line) && !IsLengthLine(line) && StartsLine(r)
    ensures ContentLength(line + "\r\n" + r) == ContentLength(r)
  {
    var s, n := line + "\r\n" + r, |line|;
    RunExact(s, InLine, n);
    assert s[..n] == line;
    assert s[n..] == "\r\n" + r;
    RunExact(s[n..], LineEnd, 2);
    OtherLine(s, n + 2);
    assert s[n + 2..] == r;
  }

  lemma FieldShape(f: LengthField, n: nat)
    requires FieldSays(f, n)
    ensures IsLine(ShowField(f)) && IsLengthLine(ShowField(f)) && ValueOf(ShowField(f)) == f.before + f.digits + f.after
  {
    hide DigitsValue;
    var line, k := ShowField(f), |f.name|;
    NameIsSpelled(f.name);
    NameChars(f.name);
    forall i | 0 <= i < |line|
      ensures Is(line[i], InLine)
    {
      var value := f.before + f.digits + f.after;
      assert line == f.name + ":" + value;
      assert i > k ==> line[i] == value[i - k - 1];
    }
    RunExact(line, NotColon, k);
    assert line[..k] == f.name;
    assert line[k + 1..] == f.before + f.digits + f.after;
  }

  lemma NameChars(name: string)
    requires SameName(name, NAME)
    ensures forall i :: 0 <= i < |name| ==> Is(name[i], InLine) && Is(name[i], NotColon)
  {
    assert forall i :: 0 <= i < |NAME| ==> Is(ToLower(NAME[i]), InLine) && Is(ToLower(NAME[i]), NotColon);
  }

  lemma FieldIsRead(f: LengthField, n: nat)
    requires FieldSays(f, n)
    ensures ParseLength(f.before + f.digits + f.after) == Some(n % SIZE)
  {
    hide ParseLength, Run, DigitsValue;
    var value, text := f.before + f.digits + f.after, f.digits + f.after;
    assert IsDigit(f.digits[0]);
    assert value == f.before + text && value[|f.before|..] == text;
    RunExact(value, Blank, |f.before|);
    assert text[..|f.digits|] == f.digits && text[|f.digits|..] == f.after;
    assert f.after != "" ==> Is(f.after[0], Blank);
    DigitsEnd(text, |f.digits|);
    RunExact(f.after, Blank, |f.after|);
    LengthOfParts(value, text, |f.digits|);
  }

  /** A Content-Length line is the name in any case, a colon and a value. */
  lemma LengthLineForm(line: string)
    ensures IsLengthLine(line) <==> |line| > |SMALL_NAME| && NameOk(line[..|SMALL_NAME|]) && line[|SMALL_NAME|] == ':'
    ensures IsLengthLine(line) ==> ValueOf(line) == line[|SMALL_NAME| + 1..]
  {
    var n := |SMALL_NAME|;
    if IsLengthLine(line) {
      NameIsSpelled(line[..Run(line, NotColon)]);
    } else if |line| > n && NameOk(line[..n]) && line[n] == ':' {
      NameIsSpelled(line[..n]);
      NameChars(line[..n]);
      assert forall i :: 0 <= i < n ==> line[i] == line[..n][i];
      RunExact(line, NotColon, n);
    }
  }

  /** A value is blanks, digits and blanks; any other is an error. */
  lemma LengthValueForm(value: string) returns (before: string, digits: string, after: string)
    requires ParseLength(value).Some?
    ensures value == before + digits + after && AllBlank(before) && AllBlank(after)
    ensures digits != "" && AllDigits(digits) && ParseLength(value) == Some(DigitsValue(digits) % SIZE)
  {
    var k := Run(value, Blank);
    var text := value[k..];
    var n := Run(text, Digit);
    before, digits, after := value[..k], text[..n], text[n..];
    assert text == digits + after;
  }

  /** The length the header lines give: that of the first Content-Length line, or 0. */
  function FirstLength(lines: seq<string>): Option<nat> {
    if lines == [] then Some(0)
    else if IsLengthLine(lines[0]) then ParseLength(ValueOf(lines[0]))
    else FirstLength(lines[1..])
  }

  lemma LastLineIsSkipped(line: string)
    requires IsLine(line) && !IsLengthLine(line)
    ensures ContentLength(line + "\r\n\r\n") == Some(0)
  {
    hide IsLengthLine;
    var s, n := line + "\r\n\r\n", |line|;
    RunExact(s, InLine, n);
    assert s[..n] == line;
    assert s[n..] == "\r\n\r\n";
    RunExact(s[n..], LineEnd, 4);
    OtherLine(s, n + 4);
    assert s[n + 4..] == "";
    NoMoreLines("");
  }

  lemma LengthLineIsRead(line: string, rest: string)
    requires IsLine(line) && IsLengthLine(line)
    ensures ContentLength(line + "\r\n" + rest) == ParseLength(ValueOf(line))
  {
    hide ContentLength, IsLengthLine, ValueOf, ParseLength, Run;
    var s := line + "\r\n" + rest;
    RunExact(s, InLine, |line|);
    assert s[..|line|] == line;
    LengthLine(s);
  }

  /** The first Content-Length line counts, whatever comes before and after it. */
  lemma {:induction false} LinesLength(lines: seq<string>)
    requires lines != [] && forall i :: 0 <= i < |lines| ==> IsLine(lines[i])
    ensures ContentLength(ShowLines(lines) + "\r\n") == FirstLength(lines)
  {
    hide ContentLength, IsLengthLine, ValueOf, ParseLength;
    var line, rest := lines[0], ShowLines(lines[1..]) + "\r\n";
    assert ShowLines(lines) + "\r\n" == line + "\r\n" + rest;
    assert IsLine(line);
    if IsLengthLine(line) {
      LengthLineIsRead(line, rest);
    } else if |lines| == 1 {
      assert line + "\r\n" + rest == line + "\r\n\r\n";
      LastLineIsSkipped(line);
    } else {
      LinesLength(lines[1..]);
      LinesEnd(lines[1..], "");
      LineIsSkipped(line, rest);
    }
  }

  lemma {:induction false} FieldIsFirst(before: seq<string>, f: LengthField, after: seq<string>, n: nat)
    requires forall i :: 0 <= i < |before| ==> !IsLengthLine(before[i])
    requires FieldSays(f, n)
    ensures FirstLength(before + [ShowField(f)] + after) == Some(n % SIZE)
    decreases |before|
  {
    hide IsLengthLine, FieldSays, ShowField, ValueOf, ParseLength;
    var lines := before + [ShowField(f)] + after;
    if before == [] {
      FieldShape(f, n);
      FieldIsRead(f, n);
    } else {
      assert lines[1..] == before[1..] + [ShowField(f)] + after;
      FieldIsFirst(before[1..], f, after, n);
    }
  }

  /** What is read of header lines, the blank line and whatever follows: a bad length is an error, a request
      that does not fit is too large, one cut short is an error, and any other is complete. */
  lemma LinesOutcome(lines: seq<string>, rest: string)
    requires lines != [] && forall i :: 0 <= i < |lines| ==> IsLine(lines[i])
    requires FirstLength(lines).Some? ==> |ShowLines(lines)| + 2 + FirstLength(lines).value < SIZE
    ensures var h, c := |ShowLines(lines)| + 2, FirstLength(lines);
            OutcomeOf(ShowLines(lines) + "\r\n" + rest) ==
              if h > MAX_CAPACITY then TooLarge
              else if c.None? then Error
              else if h + c.value > MAX_CAPACITY then TooLarge
              else if |rest| < c.value then Error
              else Complete(h, c.value)
  {
    hide ContentLength, HeaderEnd, FirstLength, ShowLines, IsLine;
    var s, h := ShowLines(lines) + "\r\n" + rest, |ShowLines(lines)| + 2;
    LinesEnd(lines, rest);
    LinesLength(lines);
    assert s[..h] == ShowLines(lines) + "\r\n";
    if FirstLength(lines).Some? {
      TotalPlain(h, FirstLength(lines).value);
    }
  }

  /** A header cut off before its blank line is an error, or nothing at all. */
  lemma CutHeaderOutcome(lines: seq<string>, rest: string, n: nat)
    requires lines != [] && forall i :: 0 <= i < |lines| ==> IsLine(lines[i])
    requires n < |ShowLines(lines)| + 2
    ensures OutcomeOf((ShowLines(lines) + "\r\n" + rest)[..n]) ==
            if n >= MAX_CAPACITY then TooLarge else if n == 0 then Empty else Error
  {
    hide ContentLength, HeaderEndFrom, ShowLines, IsLine;
    var s := ShowLines(lines) + "\r\n" + rest;
    LinesEnd(lines, rest);
    HeaderEndOfPrefix(s, n, 0);
  }

  /** Every request that fits is read completely, with exactly its body after the header; every other
      one is refused as too large.  Its Content-Length may stand anywhere among the headers. */
  lemma RequestIsRead(before: seq<string>, f: LengthField, after: seq<string>, body: string)
    requires forall i :: 0 <= i < |before| ==> IsLine(before[i]) && !IsLengthLine(before[i])
    requires forall i :: 0 <= i < |after| ==> IsLine(after[i])
    requires FieldSays(f, |body|) && |Request(before, f, after, body)| < SIZE
    ensures var s := Request(before, f, after, body);
            var h := |s| - |body|;
            && 0 <= h && OutcomeOf(s) == (if |s| <= MAX_CAPACITY then Complete(h, |body|) else TooLarge)
            && s[h..] == body && (IsCString(s) ==> FindBodyStart(s) == Some(h))
  {
    hide HeaderEnd, FindBodyStart, FieldSays, IsLengthLine, IsLine, OutcomeOf, ShowField, FirstLength;
    var s, lines := Request(before, f, after, body), before + [ShowField(f)] + after;
    FieldShape(f, |body|);
    FieldIsFirst(before, f, after, |body|);
    LinesEnd(lines, body);
    LinesOutcome(lines, body);
    BodyStartOfRequest(s);
  }
}
