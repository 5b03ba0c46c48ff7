/**
 * strconv.FormatUint(x, 10): the base-10 rendering of an unsigned 64-bit
 * integer, most significant digit first, without sign or leading zeros.
 * DigitsValue is its inverse, used here only to state what FormatUint means.
 */
module Decimal {
  import opened Bytes

  /** The ASCII code of the digit '0'. */
  const Zero: byte := 48

  predicate IsDigit(b: byte) {
    Zero <= b <= Zero + 9
  }

  /** Every byte is one of '0'..'9'. */
  predicate AllDigits(s: Bytes) {
    forall i :: 0 <= i < |s| ==> IsDigit(s[i])
  }

  /** A non-empty digit string with no leading zero, other than "0" itself. */
  predicate IsCanonical(s: Bytes) {
    |s| > 0 && AllDigits(s) && (s[0] == Zero ==> |s| == 1)
  }

  function Digit(d: nat): (b: byte)
    requires d < 10
  {
    Zero + d as byte
  }

  /**
   * The value of a string of decimal digits: 0 for the empty string and
   * unbounded otherwise. Not strconv.ParseUint, which rejects "" and values
   * above 2^64 - 1; it serves only to state what FormatUint means.
   */
  function DigitsValue(s: Bytes): nat
    requires AllDigits(s)
    decreases |s|
  {
    if s == [] then 0
    else DigitsValue(s[..|s| - 1]) * 10 + (s[|s| - 1] - Zero) as nat
  }

  /** The digits of `n`, least significant last. */
  function Digits(n: nat): (s: Bytes)
    ensures IsCanonical(s)
    decreases n
  {
    if n < 10 then [Digit(n)] else Digits(n / 10) + [Digit(n % 10)]
  }

  /** strconv.FormatUint(x, 10). */
  function FormatUint(x: bv64): (s: Bytes)
    ensures IsCanonical(s)
  {
    Digits(x as nat)
  }

  /** Reading the rendering back gives the number. */
  lemma {:induction false} ParseDigits(n: nat)
    ensures DigitsValue(Digits(n)) == n
    decreases n
  {
    var s := Digits(n);
    if n >= 10 {
      assert s[..|s| - 1] == Digits(n / 10);
      ParseDigits(n / 10);
    }
  }

  /** Two numbers with the same rendering are equal. */
  lemma DigitsInjective(m: nat, n: nat)
    requires Digits(m) == Digits(n)
    ensures m == n
  {
    ParseDigits(m);
    ParseDigits(n);
  }

  /** A canonical digit string other than "0" has a positive value. */
  lemma {:induction false} ParsePositive(s: Bytes)
    requires IsCanonical(s) && s[0] != Zero
    ensures DigitsValue(s) >= 1
    decreases |s|
  {
    if |s| > 1 {
      var t := s[..|s| - 1];
      assert t[0] == s[0];
      ParsePositive(t);
    }
  }

  /** Every canonical digit string is the rendering of its value. */
  lemma {:induction false} DigitsOfParse(s: Bytes)
    requires IsCanonical(s)
    ensures Digits(DigitsValue(s)) == s
    decreases |s|
  {
    if |s| > 1 {
      var t := s[..|s| - 1];
      var d := (s[|s| - 1] - Zero) as nat;
      assert t[0] == s[0];
      assert IsCanonical(t);
      ParsePositive(t);
      DigitsOfParse(t);
      var n := DigitsValue(s);
      assert n == DigitsValue(t) * 10 + d;
      assert n / 10 == DigitsValue(t) && n % 10 == d;
      assert s == t + [s[|s| - 1]];
    }
  }

  function Pow10(k: nat): nat
  {
    if k == 0 then 1 else 10 * Pow10(k - 1)
  }

  /** A number below 10^k has at most k digits. */
  lemma {:induction false} DigitsLength(n: nat, k: nat)
    requires 1 <= k && n < Pow10(k)
    ensures |Digits(n)| <= k
    decreases k
  {
    if n >= 10 {
      assert k >= 2;
      DigitsLength(n / 10, k - 1);
    }
  }

  /** A uint64 renders in 1 to 20 digits. */
  lemma FormatUintLength(x: bv64)
    ensures 1 <= |FormatUint(x)| <= 20
  {
    assert Pow10(5) == 100000;
    assert Pow10(10) == 10000000000;
    assert Pow10(15) == 1000000000000000;
    assert Pow10(20) == 100000000000000000000;
    DigitsLength(x as nat, 20);
  }
}
