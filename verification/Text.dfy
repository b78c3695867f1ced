/** C strings and the <ctype.h> tests in the "C" locale.

  A C string is modelled as a sequence of characters without the terminating NUL.
 */
module Text {

  predicate IsCString(s: string) {
    '\0' !in s
  }

  predicate IsSpace(c: char) {
    c == ' ' || '\t' <= c <= '\r'
  }

  predicate IsDigit(c: char) {
    '0' <= c <= '9'
  }

  predicate IsAlnum(c: char) {
    IsDigit(c) || 'a' <= c <= 'z' || 'A' <= c <= 'Z'
  }

  function ToLower(c: char): char {
    if 'A' <= c <= 'Z' then c - 'A' + 'a' else c
  }

  function ToUpper(c: char): char {
    if 'a' <= c <= 'z' then c - 'a' + 'A' else c
  }

  /** The character itself, or the capital of a small letter. */
  predicate IsCaseOf(c: char, small: char) {
    c == small || ('a' <= small <= 'z' && c as int + 32 == small as int)
  }

  lemma CaseOfIsLower(c: char, small: char)
    requires !('A' <= small <= 'Z')
    ensures ToLower(c) == small <==> IsCaseOf(c, small)
    ensures ToUpper(c) == ToUpper(small) <==> IsCaseOf(c, small)
  {
  }

  /** The six white-space characters of the "C" locale. */
  lemma SpacesAre(c: char)
    ensures IsSpace(c) <==> c in " \t\n\U{000B}\U{000C}\r"
  {
  }

  /** What dereferencing position i of a C string gives: NUL at the end. */
  function CharAt(s: string, i: nat): char
    requires i <= |s|
  {
    if i < |s| then s[i] else '\0'
  }

  // ---------------------------------------------------------------- trimming

  function TrimLeft(s: string): (r: string)
    ensures r == "" || !IsSpace(r[0])
  {
    if s != "" && IsSpace(s[0]) then TrimLeft(s[1..]) else s
  }

  function TrimRight(s: string): (r: string)
    ensures r == "" || !IsSpace(r[|r| - 1])
    ensures r <= s
  {
    if s != "" && IsSpace(s[|s| - 1]) then TrimRight(s[..|s| - 1]) else s
  }

  /** trim_field: white space removed at both ends. */
  function Trim(s: string): string {
    TrimRight(TrimLeft(s))
  }

  predicate AllSpace(s: string) {
    forall i :: 0 <= i < |s| ==> IsSpace(s[i])
  }

  lemma {:induction false} TrimLeftCut(s: string) returns (a: string)
    ensures AllSpace(a) && s == a + TrimLeft(s)
  {
    if s != "" && IsSpace(s[0]) {
      a := TrimLeftCut(s[1..]);
      a := [s[0]] + a;
    } else {
      a := "";
    }
  }

  lemma {:induction false} TrimRightCut(s: string) returns (b: string)
    ensures AllSpace(b) && s == TrimRight(s) + b
  {
    if s != "" && IsSpace(s[|s| - 1]) {
      b := TrimRightCut(s[..|s| - 1]);
      b := b + [s[|s| - 1]];
    } else {
      b := "";
    }
  }

  /** Only white space is lost, and none is left at either end. */
  lemma TrimCut(s: string) returns (a: string, b: string)
    ensures AllSpace(a) && AllSpace(b) && s == a + Trim(s) + b
    ensures Trim(s) == "" || (!IsSpace(Trim(s)[0]) && !IsSpace(Trim(s)[|Trim(s)| - 1]))
  {
    a := TrimLeftCut(s);
    b := TrimRightCut(TrimLeft(s));
  }

  ghost predicate NoSpace(s: string) {
    forall i :: 0 <= i < |s| ==> !IsSpace(s[i])
  }

  lemma TrimFixed(s: string)
    requires s == "" || (!IsSpace(s[0]) && !IsSpace(s[|s| - 1]))
    ensures Trim(s) == s
  {
  }

  lemma TrimNoSpace(s: string)
    requires NoSpace(s)
    ensures Trim(s) == s
  {
    TrimFixed(s);
  }

  lemma TrimIdempotent(s: string)
    ensures Trim(Trim(s)) == Trim(s)
  {
    var a, b := TrimCut(s);
    hide Trim;
    TrimFixed(Trim(s));
  }

  lemma {:induction false} TrimLeftGap(g: string, r: string)
    requires AllSpace(g)
    ensures TrimLeft(g + r) == TrimLeft(r)
  {
    if g == "" {
      assert g + r == r;
    } else {
      assert (g + r)[1..] == g[1..] + r;
      TrimLeftGap(g[1..], r);
    }
  }

  lemma TrimGap(g: string, s: string)
    requires AllSpace(g)
    ensures Trim(g + s) == Trim(s)
  {
    TrimLeftGap(g, s);
  }
}
