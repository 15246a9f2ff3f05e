/** Decimal rendering of integers, as JavaScript's `toString()` produces it for an
    integral Number (`userId.toString()`, the claim code), and the value of a
    digit string, which inverts it. */
module Decimal {

  predicate IsDigit(c: char) {
    '0' <= c <= '9'
  }

  predicate AllDigits(s: string) {
    forall i :: 0 <= i < |s| ==> IsDigit(s[i])
  }

  function DigitValue(c: char): nat
    requires IsDigit(c)
  {
    c as int - '0' as int
  }

  function DigitChar(d: nat): (c: char)
    requires d < 10
    ensures IsDigit(c) && DigitValue(c) == d
  {
    ('0' as int + d) as char
  }

  function Pow10(k: nat): (p: nat)
    ensures p >= 1
  {
    if k == 0 then 1 else 10 * Pow10(k - 1)
  }

  /** The digits of `n`, most significant first, without leading zeros. */
  function NatDigits(n: nat): (s: string)
    ensures 1 <= |s| && AllDigits(s)
    ensures s[0] == '0' ==> n == 0
    decreases n
  {
    if n < 10 then [DigitChar(n)] else NatDigits(n / 10) + [DigitChar(n % 10)]
  }

  /** `n.toString()` for an integer `n`: a minus sign for negative values, then the digits. */
  function DecimalString(n: int): (s: string)
    ensures |s| >= 1
    ensures ' ' !in s
    ensures n >= 0 <==> AllDigits(s)
  {
    if n < 0 then
      var s := "-" + NatDigits(-n);
      assert !IsDigit(s[0]);
      s
    else NatDigits(n)
  }

  /** The number a digit string denotes. */
  function ValueOf(s: string): nat
    requires AllDigits(s)
    decreases |s|
  {
    if s == [] then 0 else 10 * ValueOf(s[..|s| - 1]) + DigitValue(s[|s| - 1])
  }

  /** Reading back the digits of `n` gives `n`. */
  lemma {:induction false} ValueOfNatDigits(n: nat)
    ensures ValueOf(NatDigits(n)) == n
  {
    if n >= 10 {
      ValueOfNatDigits(n / 10);
      var s := NatDigits(n);
      assert s[..|s| - 1] == NatDigits(n / 10);
    }
  }

  /** A number between 10^k and 10^(k+1) - 1 has exactly k + 1 digits. */
  lemma {:induction false} NatDigitsLength(n: nat, k: nat)
    requires Pow10(k) <= n < Pow10(k + 1)
    ensures |NatDigits(n)| == k + 1
  {
    if k > 0 {
      assert n >= 10;
      NatDigitsLength(n / 10, k - 1);
    }
  }

  /** Two integers render to the same string exactly when they are equal. */
  lemma DecimalStringInjective(a: int, b: int)
    ensures DecimalString(a) == DecimalString(b) <==> a == b
  {
    if DecimalString(a) == DecimalString(b) {
      if a < 0 && b < 0 {
        assert NatDigits(-a) == DecimalString(a)[1..] == DecimalString(b)[1..] == NatDigits(-b);
        ValueOfNatDigits(-a);
        ValueOfNatDigits(-b);
      } else if a >= 0 && b >= 0 {
        ValueOfNatDigits(a);
        ValueOfNatDigits(b);
      }
    }
  }
}
