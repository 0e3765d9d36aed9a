/**
 * Decimal rendering of integers, as string interpolation (`$"{n}"`) writes
 * them, together with its inverse.
 */
module Decimal {

  predicate IsDigit(c: char) {
    '0' <= c <= '9'
  }

  predicate AllDigits(s: string) {
    forall k :: 0 <= k < |s| ==> IsDigit(s[k])
  }

  function DigitChar(d: nat): (c: char)
    requires d < 10
    ensures IsDigit(c) && (c as int) - ('0' as int) == d
  {
    (('0' as int) + d) as char
  }

  /** Shortest decimal digits of `n`, without sign or leading zeros. */
  function NatString(n: nat): (s: string)
    ensures |s| >= 1 && AllDigits(s)
    ensures s[0] == '0' ==> n == 0
  {
    if n < 10 then [DigitChar(n)] else NatString(n / 10) + [DigitChar(n % 10)]
  }

  /** The value a string of decimal digits denotes. */
  function NatValue(s: string): nat
    requires AllDigits(s)
  {
    if s == [] then 0
    else NatValue(s[..|s| - 1]) * 10 + ((s[|s| - 1] as int) - ('0' as int))
  }

  /** An integer with a leading minus sign when it is negative. */
  function IntString(i: int): string {
    if i < 0 then "-" + NatString(-i) else NatString(i)
  }

  /** Reading the digits back gives the number that was written. */
  lemma {:induction false} NatValueOfNatString(n: nat)
    ensures NatValue(NatString(n)) == n
  {
    if n >= 10 {
      NatValueOfNatString(n / 10);
      var s := NatString(n);
      assert s[..|s| - 1] == NatString(n / 10);
    }
  }

  lemma NatStringInjective(m: nat, n: nat)
    requires NatString(m) == NatString(n)
    ensures m == n
  {
    NatValueOfNatString(m);
    NatValueOfNatString(n);
  }

  /** The first character tells the sign. */
  lemma IntStringSign(i: int)
    ensures |IntString(i)| >= 1
    ensures IntString(i)[0] == '-' <==> i < 0
  {
  }

  /** Distinct integers are written differently. */
  lemma IntStringInjective(i: int, j: int)
    requires IntString(i) == IntString(j)
    ensures i == j
  {
    IntStringSign(i);
    IntStringSign(j);
    if i < 0 {
      assert IntString(i)[1..] == NatString(-i);
      assert IntString(j)[1..] == NatString(-j);
      NatStringInjective(-i, -j);
    } else {
      NatStringInjective(i, j);
    }
  }
}
