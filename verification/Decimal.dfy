/** Decimal notation of natural numbers and integers, as the formatting library writes it. */
module Decimal {

  /** Numbers of values of the unsigned types of 32 and 64 bits. */
  const MODULUS_32: nat := 0x1_0000_0000
  const MODULUS_64: nat := 0x1_0000_0000_0000_0000

  predicate IsDigit(c: char) {
    '0' <= c <= '9'
  }

  predicate AllDigits(s: string) {
    forall i :: 0 <= i < |s| ==> IsDigit(s[i])
  }

  function Digit(d: nat): (c: char)
    requires d < 10
    ensures IsDigit(c) && DigitValue(c) == d
  {
    '0' + d as char
  }

  function DigitValue(c: char): nat
    requires IsDigit(c)
  {
    (c - '0') as nat
  }

  function ToDecimal(n: nat): (s: string)
    ensures |s| >= 1 && AllDigits(s)
  {
    if n < 10 then [Digit(n)] else ToDecimal(n / 10) + [Digit(n % 10)]
  }

  function Value(s: string): nat
    requires AllDigits(s)
  {
    if |s| == 0 then 0 else 10 * Value(s[..|s| - 1]) + DigitValue(s[|s| - 1])
  }

  /** Decimal text of an integer, with a leading minus sign when negative. */
  function IntToDecimal(n: int): (s: string)
    ensures |s| >= 1
  {
    if n < 0 then "-" + ToDecimal(-n) else ToDecimal(n)
  }

  /** Reading back the text of a number gives the number. */
  lemma {:induction false} ValueOfToDecimal(n: nat)
    ensures Value(ToDecimal(n)) == n
  {
    if n >= 10 {
      ValueOfToDecimal(n / 10);
      var s := ToDecimal(n);
      assert s[..|s| - 1] == ToDecimal(n / 10);
    }
  }

  /** Different numbers have different texts. */
  lemma ToDecimalInjective(a: nat, b: nat)
    requires ToDecimal(a) == ToDecimal(b)
    ensures a == b
  {
    ValueOfToDecimal(a);
    ValueOfToDecimal(b);
  }

  function Power10(k: nat): (p: nat)
    ensures p >= 1
  {
    if k == 0 then 1 else 10 * Power10(k - 1)
  }

  /** A number needs at most k digits exactly when it is below ten to the k. */
  lemma {:induction false} LengthOfToDecimal(n: nat, k: nat)
    requires k >= 1
    ensures |ToDecimal(n)| <= k <==> n < Power10(k)
    decreases k
  {
    if k == 1 {
      assert Power10(1) == 10 * Power10(0);
    } else if n >= 10 {
      LengthOfToDecimal(n / 10, k - 1);
      assert n < 10 * Power10(k - 1) <==> n / 10 < Power10(k - 1);
    } else {
      assert Power10(k) == 10 * Power10(k - 1);
    }
  }

  /** Counts four digits per division; a number has as many digits as its decimal text. */
  method CountDigits(number: nat) returns (count: nat)
    ensures count == |ToDecimal(number)|
  {
    var n := number;
    count := 1;
    while n >= 10000
      invariant |ToDecimal(number)| == count - 1 + |ToDecimal(n)|
    {
      FourDigitsMore(n);
      n := n / 10000;
      count := count + 4;
    }
    SmallLength(n);
    if n < 10 {
      return;
    }
    if n < 100 {
      return count + 1;
    }
    if n < 1000 {
      return count + 2;
    }
    return count + 3;
  }

  lemma OneDigitMore(n: nat)
    requires n >= 10
    ensures |ToDecimal(n)| == 1 + |ToDecimal(n / 10)|
  {
  }

  lemma SmallLength(n: nat)
    requires n < 10000
    ensures |ToDecimal(n)| == if n < 10 then 1 else if n < 100 then 2 else if n < 1000 then 3 else 4
  {
    if n >= 10 {
      OneDigitMore(n);
      if n >= 100 {
        OneDigitMore(n / 10);
        if n >= 1000 {
          OneDigitMore(n / 10 / 10);
        }
      }
    }
  }

  lemma FourDigitsMore(n: nat)
    requires n >= 10000
    ensures |ToDecimal(n)| == 4 + |ToDecimal(n / 10000)|
  {
    OneDigitMore(n);
    OneDigitMore(n / 10);
    OneDigitMore(n / 10 / 10);
    OneDigitMore(n / 10 / 10 / 10);
    assert n / 10 / 10 / 10 / 10 == n / 10000;
  }
}
