/**
 * PHP's `(string)` cast of an integer: its decimal representation, with a
 * leading `-` for negative numbers and no leading zeros.
 */
module Decimal {

  predicate IsDigit(c: char) {
    '0' <= c <= '9'
  }

  function DigitChar(d: nat): (c: char)
    requires d < 10
    ensures IsDigit(c) && c as int - '0' as int == d
  {
    "0123456789"[d]
  }

  /** Decimal digits of a natural number, most significant first. */
  function NatToString(n: nat): (s: string)
    ensures |s| > 0
    ensures forall i :: 0 <= i < |s| ==> IsDigit(s[i])
    ensures n > 0 ==> s[0] != '0'
  {
    if n < 10 then [DigitChar(n)] else NatToString(n / 10) + [DigitChar(n % 10)]
  }

  /** `(string) $n` for a PHP integer. */
  function IntToString(n: int): (s: string)
    ensures |s| > 0
  {
    if n < 0 then "-" + NatToString(-n) else NatToString(n)
  }

  /** Reads back a string of decimal digits. */
  function ParseDigits(s: string): nat
    requires forall i :: 0 <= i < |s| ==> IsDigit(s[i])
  {
    if s == [] then 0
    else
      assert IsDigit(s[|s| - 1]);
      ParseDigits(s[..|s| - 1]) * 10 + (s[|s| - 1] as int - '0' as int)
  }

  /** Reads back an optionally signed decimal string. */
  function ParseInt(s: string): int
    requires |s| > 0
    requires s[0] == '-' ==> forall i :: 1 <= i < |s| ==> IsDigit(s[i])
    requires s[0] != '-' ==> forall i :: 0 <= i < |s| ==> IsDigit(s[i])
  {
    if s[0] == '-' then 0 - ParseDigits(s[1..]) as int else ParseDigits(s)
  }

  lemma {:induction false} NatRoundTrip(n: nat)
    ensures ParseDigits(NatToString(n)) == n
  {
    var s := NatToString(n);
    if n < 10 {
      assert s[..|s| - 1] == [];
    } else {
      NatRoundTrip(n / 10);
      assert s[..|s| - 1] == NatToString(n / 10);
    }
  }

  /** A minus sign in front of digits negates what they read as. */
  lemma ParseNegative(digits: string)
    requires |digits| > 0 && forall i :: 0 <= i < |digits| ==> IsDigit(digits[i])
    ensures ParseInt("-" + digits) == 0 - ParseDigits(digits) as int
  {
    assert ("-" + digits)[1..] == digits;
  }

  /** The decimal string determines the number: parsing it gives the number back. */
  lemma IntRoundTrip(n: int)
    ensures IntToString(n)[0] == '-' <==> n < 0
    ensures ParseInt(IntToString(n)) == n
  {
    if n < 0 {
      NatRoundTrip(-n);
      ParseNegative(NatToString(-n));
    } else {
      NatRoundTrip(n);
    }
  }

  /** Two different integers never print alike. */
  lemma IntToStringInjective(m: int, n: int)
    requires IntToString(m) == IntToString(n)
    ensures m == n
  {
    IntRoundTrip(m);
    IntRoundTrip(n);
  }
}
