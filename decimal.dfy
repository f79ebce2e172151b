/** Decimal rendering of integers, as Java's string concatenation `"" + n`
    renders a `long` or an `int` (Long.toString / Integer.toString): an optional
    minus sign followed by the digits, without leading zeros. The parser below is
    its exact inverse on canonical strings. */
module Decimal {

  datatype Option<T> = None | Some(value: T)

  predicate IsDigit(c: char) {
    '0' <= c <= '9'
  }

  function DigitChar(d: nat): (c: char)
    requires d < 10
    ensures IsDigit(c) && c as int - '0' as int == d
  {
    (d + '0' as int) as char
  }

  function DigitValue(c: char): (d: nat)
    requires IsDigit(c)
    ensures d < 10 && DigitChar(d) == c
  {
    c as int - '0' as int
  }

  predicate AllDigits(s: string) {
    forall i :: 0 <= i < |s| ==> IsDigit(s[i])
  }

  /** The digit strings the renderer produces: non-empty, digits only, and no
      leading zero except for "0" itself. */
  predicate IsCanonical(s: string) {
    |s| > 0 && AllDigits(s) && (s[0] == '0' ==> |s| == 1)
  }

  /** The value of a string of decimal digits, most significant digit first. */
  function DigitsValue(s: string): nat
    requires AllDigits(s)
  {
    if |s| == 0 then 0
    else DigitsValue(s[..|s| - 1]) * 10 + DigitValue(s[|s| - 1])
  }

  /** Decimal rendering of a natural number. */
  function NatToDecimal(n: nat): (s: string)
    ensures IsCanonical(s)
    ensures s[0] == '0' <==> n == 0
  {
    if n < 10 then [DigitChar(n)]
    else NatToDecimal(n / 10) + [DigitChar(n % 10)]
  }

  /** Decimal rendering of a signed integer (Java's Long.toString). */
  function IntToDecimal(i: int): (s: string)
    ensures |s| > 0
    ensures forall k :: 0 <= k < |s| ==> IsDigit(s[k]) || s[k] == '-'
    ensures s[0] == '-' <==> i < 0
  {
    if i < 0 then "-" + NatToDecimal(-i) else NatToDecimal(i)
  }

  /** Reads back a canonical digit string; any other string is rejected. */
  function ParseNat(s: string): (r: Option<nat>)
    ensures r.Some? <==> IsCanonical(s)
  {
    if IsCanonical(s) then Some(DigitsValue(s)) else None
  }

  /** Reads back what IntToDecimal produces; "-0" and every non-canonical form
      are rejected. */
  function ParseInt(s: string): (r: Option<int>)
    ensures r.Some? && r.value < 0 ==> |s| > 1 && s[0] == '-'
  {
    if |s| > 0 && s[0] == '-' then
      match ParseNat(s[1..])
      case Some(m) => if m > 0 then Some(0 - m as int) else None
      case None => None
    else
      match ParseNat(s)
      case Some(m) => Some(m)
      case None => None
  }

  lemma DigitsValueSnoc(a: string, c: char)
    requires AllDigits(a) && IsDigit(c)
    ensures AllDigits(a + [c])
    ensures DigitsValue(a + [c]) == DigitsValue(a) * 10 + DigitValue(c)
  {
    assert (a + [c])[..|a|] == a;
  }

  /** A digit string that does not start with '0' has a positive value. */
  lemma {:induction false} LeadingNonZeroPositive(s: string)
    requires |s| > 0 && AllDigits(s) && s[0] != '0'
    ensures DigitsValue(s) > 0
  {
    if |s| > 1 {
      var a := s[..|s| - 1];
      assert a[0] == s[0];
      LeadingNonZeroPositive(a);
    }
  }

  /** Rendering then parsing gives the number back. */
  lemma {:induction false} ParseNatOfNatToDecimal(n: nat)
    ensures ParseNat(NatToDecimal(n)) == Some(n)
  {
    if n < 10 {
      DigitsValueSnoc([], DigitChar(n));
      assert [] + [DigitChar(n)] == NatToDecimal(n);
    } else {
      ParseNatOfNatToDecimal(n / 10);
      DigitsValueSnoc(NatToDecimal(n / 10), DigitChar(n % 10));
    }
  }

  /** Parsing then rendering gives the string back: every string the parser
      accepts is the rendering of its value. */
  lemma {:induction false} NatToDecimalOfParseNat(s: string)
    requires ParseNat(s).Some?
    ensures NatToDecimal(ParseNat(s).value) == s
  {
    var n := DigitsValue(s);
    if |s| == 1 {
      DigitsValueSnoc([], s[0]);
      assert [] + [s[0]] == s;
    } else {
      var a, c := s[..|s| - 1], s[|s| - 1];
      assert s == a + [c];
      assert a[0] == s[0];
      assert IsCanonical(a);
      LeadingNonZeroPositive(a);
      NatToDecimalOfParseNat(a);
      assert n / 10 == DigitsValue(a) && n % 10 == DigitValue(c);
    }
  }

  /** Rendering then parsing a signed integer gives it back. */
  lemma IntRoundTrip(i: int)
    ensures ParseInt(IntToDecimal(i)) == Some(i)
  {
    ParseNatOfNatToDecimal(if i < 0 then -i else i);
    if i < 0 {
      assert IntToDecimal(i)[1..] == NatToDecimal(-i);
    }
  }

  /** Parsing then rendering a signed integer gives the string back. */
  lemma ParseIntCanonical(s: string)
    requires ParseInt(s).Some?
    ensures IntToDecimal(ParseInt(s).value) == s
  {
    if |s| > 0 && s[0] == '-' {
      NatToDecimalOfParseNat(s[1..]);
      assert s == "-" + s[1..];
    } else {
      NatToDecimalOfParseNat(s);
    }
  }

  /** Distinct integers have distinct renderings. */
  lemma IntToDecimalInjective(i: int, j: int)
    requires IntToDecimal(i) == IntToDecimal(j)
    ensures i == j
  {
    IntRoundTrip(i);
    IntRoundTrip(j);
  }
}
