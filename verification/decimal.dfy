/**
 * Decimal text of Java ints, as Integer.toString writes it and
 * Integer.parseInt reads it. Correlation ids travel in this form.
 */
module Decimal {
  import opened Bytes
  import opened Wrappers

  predicate IsDigit(c: char) {
    '0' <= c <= '9'
  }

  function DigitChar(d: int): (c: char)
    requires 0 <= d < 10
    ensures IsDigit(c)
  {
    "0123456789"[d]
  }

  function DigitValue(c: char): (d: int)
    requires IsDigit(c)
    ensures 0 <= d < 10
  {
    c as int - '0' as int
  }

  /** Decimal digits of `n`, most significant first, no leading zero. */
  function NatText(n: nat): (s: string)
    ensures |s| >= 1
    ensures forall i :: 0 <= i < |s| ==> IsDigit(s[i])
  {
    if n < 10 then [DigitChar(n)] else NatText(n / 10) + [DigitChar(n % 10)]
  }

  /** Integer.toString: a minus sign for negatives, then the digits. */
  function IntText(n: int): (s: string)
    ensures |s| >= 1
  {
    if n < 0 then "-" + NatText(-n) else NatText(n)
  }

  /** The number a nonempty run of digits denotes. */
  function DigitsValue(s: string): (n: nat)
    requires forall i :: 0 <= i < |s| ==> IsDigit(s[i])
  {
    if |s| == 0 then 0 else DigitsValue(s[..|s| - 1]) * 10 + DigitValue(s[|s| - 1])
  }

  predicate AllDigits(s: string) {
    |s| >= 1 && forall i :: 0 <= i < |s| ==> IsDigit(s[i])
  }

  /**
   * Integer.parseInt: an optional sign, at least one digit, and a value in
   * the int range; None where parseInt raises NumberFormatException
   * (only ASCII digits are modelled).
   */
  function ParseInt(s: string): (r: Option<i32>)
    ensures r.Some? ==> |s| >= 1
  {
    if |s| == 0 then None
    else
      var negative := s[0] == '-';
      var digits := if s[0] == '-' || s[0] == '+' then s[1..] else s;
      if !AllDigits(digits) then None
      else
        var v: int := if negative then 0 - DigitsValue(digits) else DigitsValue(digits);
        if -0x8000_0000 <= v <= INT32_MAX then Some(v) else None
  }

  lemma {:induction false} DigitsOfNat(n: nat)
    ensures DigitsValue(NatText(n)) == n
  {
    if n >= 10 {
      var s := NatText(n);
      assert s[..|s| - 1] == NatText(n / 10);
      DigitsOfNat(n / 10);
      assert DigitValue(DigitChar(n % 10)) == n % 10;
    } else {
      assert DigitValue(DigitChar(n)) == n;
    }
  }

  /** Every int's decimal text parses back to it. */
  lemma ParseIntText(n: i32)
    ensures ParseInt(IntText(n)) == Some(n)
  {
    var s := IntText(n);
    if n < 0 {
      var m: nat := -(n as int);
      DigitsOfNat(m);
      assert s == "-" + NatText(m);
      assert s[0] == '-';
      assert s[1..] == NatText(m);
      assert AllDigits(s[1..]);
      assert 0 - DigitsValue(s[1..]) == n;
    } else {
      DigitsOfNat(n);
      assert s == NatText(n);
      assert IsDigit(s[0]);
      assert AllDigits(s);
    }
  }

  /** Distinct ints have distinct decimal texts: a correlation id names one request. */
  lemma IntTextInjective(a: i32, b: i32)
    requires IntText(a) == IntText(b)
    ensures a == b
  {
    ParseIntText(a);
    ParseIntText(b);
  }
}
