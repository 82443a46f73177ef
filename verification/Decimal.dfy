/**
 Decimal text of integers: what `std::to_string` prints and `std::stoul` reads.
 */
module Decimal {

  predicate IsDigit(c: char) {
    '0' <= c <= '9'
  }

  function DigitChar(d: nat): (c: char)
    requires d < 10
    ensures IsDigit(c) && DigitValue(c) == d
  {
    '0' + d as char
  }

  function DigitValue(c: char): (d: nat)
    requires IsDigit(c)
    ensures d < 10
  {
    (c - '0') as nat
  }

  /** `std::to_string` of an unsigned value. */
  function OfNat(n: nat): (s: string)
    ensures s != [] && forall i :: 0 <= i < |s| ==> IsDigit(s[i])
  {
    if n < 10 then [DigitChar(n)] else OfNat(n / 10) + [DigitChar(n % 10)]
  }

  /** `std::to_string` of a signed value. */
  function OfInt(i: int): (s: string) {
    if i < 0 then ['-'] + OfNat(-i) else OfNat(i)
  }

  /** `std::stoul` on a string of digits. */
  function ToNat(s: string): (n: nat)
    requires forall i :: 0 <= i < |s| ==> IsDigit(s[i])
  {
    if s == [] then 0 else 10 * ToNat(s[..|s| - 1]) + DigitValue(s[|s| - 1])
  }

  lemma {:induction false} ReadBack(n: nat)
    ensures ToNat(OfNat(n)) == n
  {
    if n >= 10 {
      ReadBack(n / 10);
      assert OfNat(n)[..|OfNat(n)| - 1] == OfNat(n / 10);
    }
  }

  lemma OfIntInjective(i: int, j: int)
    requires OfInt(i) == OfInt(j)
    ensures i == j
  {
    ReadBack(if i < 0 then -i else i);
    ReadBack(if j < 0 then -j else j);
    if i < 0 {
      assert OfInt(i)[0] == '-' && OfInt(i)[1..] == OfNat(-i);
    }
    if j < 0 {
      assert OfInt(j)[0] == '-' && OfInt(j)[1..] == OfNat(-j);
    }
  }

  lemma OfIntHasNoSpace(i: int)
    ensures ' ' !in OfInt(i)
  {
    assert ' ' !in OfNat(if i < 0 then -i else i);
  }

  /** Decimal digits, highest first. */
  lemma DigitsAreDecimal()
    ensures OfInt(9270) == "9270" && OfInt(-1358) == "-1358" && OfInt(46) == "46" && OfInt(0) == "0"
  {
    assert OfNat(9) == "9" && OfNat(92) == OfNat(9) + "2" && OfNat(927) == OfNat(92) + "7";
    assert OfNat(1) == "1" && OfNat(13) == OfNat(1) + "3" && OfNat(135) == OfNat(13) + "5";
    assert OfNat(4) == "4";
  }
}
