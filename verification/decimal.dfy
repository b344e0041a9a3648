/** The parts of Go's `strconv` and `fmt` that the decoder relies on:
    base-10 signed integers (`strconv.ParseInt(s, 10, 32)`, `%d`) and
    `strconv.ParseBool`. */
module Decimal {
  import opened Prelude

  predicate IsDigit(c: char) {
    '0' <= c <= '9'
  }

  predicate AllDigits(s: string) {
    forall i :: 0 <= i < |s| ==> IsDigit(s[i])
  }

  function DigitValue(c: char): (d: nat)
    requires IsDigit(c)
    ensures d < 10
  {
    c as int - '0' as int
  }

  function DigitChar(d: nat): (c: char)
    requires d < 10
    ensures IsDigit(c) && DigitValue(c) == d
  {
    ('0' as int + d) as char
  }

  /** The value of a string of decimal digits, most significant first. */
  function DigitsValue(s: string): nat
    requires AllDigits(s)
  {
    if s == [] then 0 else DigitsValue(s[..|s| - 1]) * 10 + DigitValue(s[|s| - 1])
  }

  /** Text of an optional sign followed by at least one digit. */
  predicate IsDecimalText(s: string) {
    if |s| > 0 && (s[0] == '+' || s[0] == '-') then |s| > 1 && AllDigits(s[1..])
    else |s| > 0 && AllDigits(s)
  }

  /** The syntax of `strconv.ParseInt(s, 10, _)`: an optional `+` or `-`
      and one or more decimal digits; anything else is a syntax error. */
  function ParseDecimal(s: string): (r: Option<int>)
    ensures r.Some? <==> IsDecimalText(s)
  {
    if |s| > 0 && (s[0] == '+' || s[0] == '-') then
      if |s| > 1 && AllDigits(s[1..]) then
        var v: int := DigitsValue(s[1..]);
        Some(if s[0] == '-' then -v else v)
      else None
    else if |s| > 0 && AllDigits(s) then Some(DigitsValue(s))
    else None
  }

  /** `strconv.ParseInt(s, 10, 32)`: a syntax error or a value outside the
      int32 range is a failure. */
  function ParseInt32(s: string): (r: Option<int>)
    ensures r.Some? ==> IsInt32(r.value)
    ensures r.Some? <==> IsDecimalText(s) && IsInt32(ParseDecimal(s).value)
  {
    match ParseDecimal(s)
    case Some(n) => if IsInt32(n) then Some(n) else None
    case None => None
  }

  /** Decimal digits of a natural number, without leading zeros. */
  function NatText(n: nat): string
  {
    if n < 10 then [DigitChar(n)] else NatText(n / 10) + [DigitChar(n % 10)]
  }

  /** `fmt.Sprintf("%d", n)`. */
  function DecimalText(n: int): string
  {
    if n < 0 then "-" + NatText(-n) else NatText(n)
  }

  /** `%d` of a number with one more digit appended: its text and that digit. */
  lemma NatTextAppend(n: nat, d: nat)
    requires 0 < n && d < 10
    ensures NatText(n * 10 + d) == NatText(n) + [DigitChar(d)]
  {
    assert (n * 10 + d) / 10 == n && (n * 10 + d) % 10 == d;
  }

  lemma {:induction false} NatTextDigits(n: nat)
    ensures |NatText(n)| > 0 && AllDigits(NatText(n))
    ensures DigitsValue(NatText(n)) == n
  {
    if n >= 10 {
      NatTextDigits(n / 10);
      var s := NatText(n);
      assert s[..|s| - 1] == NatText(n / 10);
    }
  }

  /** Reading back what `%d` prints gives the number again. */
  lemma DecimalRoundTrip(n: int)
    ensures ParseDecimal(DecimalText(n)) == Some(n)
  {
    NatTextDigits(if n < 0 then -n else n);
    if n < 0 {
      assert DecimalText(n)[1..] == NatText(-n);
    }
  }

  /** `%d` prints digits, after a minus sign for a negative number. */
  lemma DecimalTextChars(n: int)
    ensures |DecimalText(n)| > 0
    ensures forall i :: 0 <= i < |DecimalText(n)| ==> IsDigit(DecimalText(n)[i]) || DecimalText(n)[i] == '-'
  {
    NatTextDigits(if n < 0 then -n else n);
  }

  /** `%d` never prints the same text for two different numbers. */
  lemma DecimalTextInjective(a: int, b: int)
    requires DecimalText(a) == DecimalText(b)
    ensures a == b
  {
    DecimalRoundTrip(a);
    DecimalRoundTrip(b);
  }

  /** The same round trip through the int32 parser, for int32 values. */
  lemma Int32RoundTrip(n: int)
    requires IsInt32(n)
    ensures ParseInt32(DecimalText(n)) == Some(n)
  {
    DecimalRoundTrip(n);
  }

  /** A leading zero adds nothing to the value of a digit string. */
  lemma {:induction false} LeadingZeroValue(t: string)
    requires AllDigits(t)
    ensures AllDigits("0" + t) && DigitsValue("0" + t) == DigitsValue(t)
    decreases |t|
  {
    var u := "0" + t;
    if t == [] {
      assert u[..0] == "";
    } else {
      var init := t[..|t| - 1];
      assert u[..|u| - 1] == "0" + init;
      LeadingZeroValue(init);
    }
  }

  /** The spellings `ParseInt` accepts besides `%d`: a `+` sign, leading
      zeros and a minus sign before zero change nothing but the sign. With
      `DecimalRoundTrip`, these fix the value of every accepted text. */
  lemma SignsAndZeros(t: string)
    requires |t| > 0 && AllDigits(t)
    ensures ParseDecimal("+" + t) == ParseDecimal(t)
    ensures ParseDecimal("-" + t) == Some(-ParseDecimal(t).value)
    ensures ParseDecimal("0" + t) == ParseDecimal(t)
  {
    assert ("+" + t)[1..] == t && ("-" + t)[1..] == t;
    LeadingZeroValue(t);
  }

  /** "+255", "0255" and "-0" read as 255, 255 and 0. */
  lemma NonCanonicalExamples()
    ensures ParseInt32("+255") == Some(255)
    ensures ParseInt32("0255") == Some(255)
    ensures ParseInt32("-0") == Some(0)
  {
    assert DecimalText(255) == "255" by {
      assert NatText(25) == "25";
    }
    DecimalRoundTrip(255);
    SignsAndZeros("255");
    assert "+" + "255" == "+255" && "0" + "255" == "0255";
    assert DecimalText(0) == "0";
    DecimalRoundTrip(0);
    SignsAndZeros("0");
    assert "-" + "0" == "-0";
  }

  /** `strconv.ParseBool`: the six spellings of true and of false. */
  function ParseBool(s: string): (r: Option<bool>)
    ensures r == Some(true) <==> s in {"1", "t", "T", "TRUE", "true", "True"}
    ensures r == Some(false) <==> s in {"0", "f", "F", "FALSE", "false", "False"}
  {
    if s in {"1", "t", "T", "TRUE", "true", "True"} then Some(true)
    else if s in {"0", "f", "F", "FALSE", "false", "False"} then Some(false)
    else None
  }
}
