/** The numbers that is_integer_string, is_float_string and atoi know, by the form of their texts. */
module NumberForms {
  import opened Text
  import opened TableModel

  predicate IsSign(s: string) {
    s == "" || s == "-" || s == "+"
  }

  /** The texts of integers are the non-empty digit strings behind at most one sign, and a minus makes the
      number negative. */
  lemma SignedNumber(sign: string, digits: string)
    requires IsSign(sign) && digits != "" && AllDigits(digits)
    ensures IsInteger(sign + digits)
    ensures Atoi(sign + digits) == if sign == "-" then -(DigitsValue(digits) as int) else DigitsValue(digits)
  {
    hide DigitsValue;
    var s := sign + digits;
    assert IsDigit(digits[0]);
    assert SignLength(s) == |sign| && s[|sign|..] == digits;
  }

  lemma IntegerIsSigned(s: string) returns (sign: string, digits: string)
    requires IsInteger(s)
    ensures s == sign + digits && IsSign(sign) && digits != "" && AllDigits(digits)
  {
    sign, digits := s[..SignLength(s)], s[SignLength(s)..];
  }

  /** Leading zeros do not count; every number has its plain spelling, signed or not. */
  lemma {:induction false} LeadingZero(digits: string)
    requires AllDigits(digits)
    ensures AllDigits("0" + digits) && DigitsValue("0" + digits) == DigitsValue(digits)
    decreases |digits|
  {
    var s := "0" + digits;
    assert s[0] == '0' && forall i :: 0 < i < |s| ==> s[i] == digits[i - 1];
    if digits == "" {
      assert s[..|s| - 1] == "";
    } else {
      var front := digits[..|digits| - 1];
      assert s[..|s| - 1] == "0" + front;
      LeadingZero(front);
    }
  }

  lemma SignedDecimal(n: nat)
    ensures IsInteger("-" + Decimal(n)) && Atoi("-" + Decimal(n)) == 0 - n
    ensures IsInteger("+" + Decimal(n)) && Atoi("+" + Decimal(n)) == n
  {
    hide IsInteger, Atoi, DigitsValue;
    SignedNumber("-", Decimal(n));
    SignedNumber("+", Decimal(n));
    DecimalValue(n);
  }

  lemma {:induction false} NoDots(s: string)
    ensures CountDots(s) == 0 <==> '.' !in s
  {
    if s != "" {
      NoDots(s[..|s| - 1]);
      assert s == s[..|s| - 1] + [s[|s| - 1]];
    }
  }

  lemma {:induction false} DotsAdd(a: string, b: string)
    ensures CountDots(a + b) == CountDots(a) + CountDots(b)
    decreases |b|
  {
    if b == "" {
      assert a + b == a;
    } else {
      var s, front := a + b, b[..|b| - 1];
      assert s[..|s| - 1] == a + front;
      DotsAdd(a, front);
    }
  }

  predicate DigitsAndDots(s: string) {
    forall i :: 0 <= i < |s| ==> IsDigit(s[i]) || s[i] == '.'
  }

  lemma OneDot(whole: string, dot: string, part: string)
    requires AllDigits(whole) && AllDigits(part) && (dot == "." || dot == "")
    ensures CountDots(whole + dot + part) <= 1 && DigitsAndDots(whole + dot + part)
  {
    NoDots(whole);
    NoDots(part);
    DotsAdd(whole, dot);
    DotsAdd(whole + dot, part);
    assert CountDots(dot) <= 1 by {
      assert CountDots("") == 0;
      assert dot == "." ==> dot[..0] == "";
    }
  }

  lemma SomeDigit(whole: string, dot: string, part: string)
    requires AllDigits(whole) && AllDigits(part) && whole + part != ""
    ensures HasDigit(whole + dot + part)
  {
    var body := whole + dot + part;
    if whole != "" {
      assert body[0] == whole[0];
    } else {
      assert body[|dot|] == part[0];
    }
  }

  lemma SignOf(sign: string, body: string)
    requires IsSign(sign) && body != "" && DigitsAndDots(body)
    ensures SignLength(sign + body) == |sign| && (sign + body)[|sign|..] == body
  {
    assert IsDigit(body[0]) || body[0] == '.';
  }

  /** The texts of floats: digits before and after a dot that may be missing, one digit at least, behind
      at most one sign. */
  lemma FloatForm(sign: string, whole: string, dot: string, part: string)
    requires IsSign(sign) && AllDigits(whole) && AllDigits(part) && whole + part != "" && (dot == "." || dot == "")
    ensures IsFloat(sign + (whole + dot + part))
  {
    hide CountDots, HasDigit, AllDigits, SignLength;
    var body := whole + dot + part;
    OneDot(whole, dot, part);
    SomeDigit(whole, dot, part);
    SignOf(sign, body);
  }

  lemma DigitsOnly(s: string)
    requires DigitsAndDots(s) && CountDots(s) == 0
    ensures AllDigits(s)
  {
    NoDots(s);
  }

  lemma OneDotSplits(body: string) returns (whole: string, dot: string, part: string)
    requires DigitsAndDots(body) && CountDots(body) <= 1
    ensures body == whole + dot + part && AllDigits(whole) && AllDigits(part) && (dot == "." || dot == "")
  {
    hide CountDots, AllDigits;
    NoDots(body);
    if '.' in body {
      var k :| 0 <= k < |body| && body[k] == '.';
      whole, dot, part := body[..k], ".", body[k + 1..];
      assert body == whole + dot + part;
      DotsAdd(whole, dot);
      DotsAdd(whole + dot, part);
      NoDots(dot);
      assert dot[0] == '.';
    } else {
      whole, dot, part := body, "", "";
      assert body == whole + dot + part;
      NoDots(part);
    }
    DigitsOnly(whole);
    DigitsOnly(part);
  }

  lemma FloatIsOfForm(s: string) returns (sign: string, whole: string, dot: string, part: string)
    requires IsFloat(s)
    ensures s == sign + (whole + dot + part)
    ensures IsSign(sign) && AllDigits(whole) && AllDigits(part) && whole + part != "" && (dot == "." || dot == "")
  {
    hide CountDots;
    sign := s[..SignLength(s)];
    var body := s[SignLength(s)..];
    whole, dot, part := OneDotSplits(body);
  }
}
