/** Bitwise operations on machine words, defined bit by bit on natural numbers. */
module Bits {
  import opened Common

  predicate Bit(v: nat, i: nat) {
    if i == 0 then v % 2 == 1 else Bit(v / 2, i - 1)
  }

  function Pow2(n: nat): (p: nat)
    ensures p > 0
  {
    if n == 0 then 1 else 2 * Pow2(n - 1)
  }

  function Or(a: nat, b: nat): nat {
    if a == 0 then b else if b == 0 then a
    else 2 * Or(a / 2, b / 2) + (if a % 2 == 1 || b % 2 == 1 then 1 else 0)
  }

  function And(a: nat, b: nat): nat {
    if a == 0 || b == 0 then 0
    else 2 * And(a / 2, b / 2) + (if a % 2 == 1 && b % 2 == 1 then 1 else 0)
  }

  /** `a & !b`. */
  function AndNot(a: nat, b: nat): nat {
    if a == 0 || b == 0 then a
    else 2 * AndNot(a / 2, b / 2) + (if a % 2 == 1 && b % 2 == 0 then 1 else 0)
  }

  function TrailingZeros(v: nat): nat
    requires v > 0
  {
    if v % 2 == 1 then 0 else 1 + TrailingZeros(v / 2)
  }

  lemma {:induction false} ZeroHasNoBits(i: nat)
    ensures !Bit(0, i)
  {
    if i > 0 { ZeroHasNoBits(i - 1); }
  }

  lemma {:induction false} BitOfOr(a: nat, b: nat, i: nat)
    ensures Bit(Or(a, b), i) == (Bit(a, i) || Bit(b, i))
  {
    ZeroHasNoBits(i);
    if i > 0 && a > 0 && b > 0 { BitOfOr(a / 2, b / 2, i - 1); }
  }

  lemma {:induction false} BitOfAndNot(a: nat, b: nat, i: nat)
    ensures Bit(AndNot(a, b), i) == (Bit(a, i) && !Bit(b, i))
  {
    ZeroHasNoBits(i);
    if a > 0 && b > 0 {
      var low := if a % 2 == 1 && b % 2 == 0 then 1 else 0;
      assert AndNot(a, b) == 2 * AndNot(a / 2, b / 2) + low;
      assert AndNot(a, b) / 2 == AndNot(a / 2, b / 2) && AndNot(a, b) % 2 == low;
      if i > 0 { BitOfAndNot(a / 2, b / 2, i - 1); }
    }
  }

  lemma {:induction false} BitOfPow2(n: nat, i: nat)
    ensures Bit(Pow2(n), i) == (i == n)
  {
    if n == 0 {
      if i > 0 { ZeroHasNoBits(i - 1); }
    } else if i > 0 {
      BitOfPow2(n - 1, i - 1);
    }
  }

  lemma {:induction false} HighBitsClear(v: nat, n: nat, i: nat)
    requires v < Pow2(n) && n <= i
    ensures !Bit(v, i)
  {
    if i == 0 {
    } else if n == 0 {
      ZeroHasNoBits(i);
    } else {
      HighBitsClear(v / 2, n - 1, i - 1);
    }
  }

  lemma {:induction false} OrStaysInWidth(a: nat, b: nat, n: nat)
    requires a < Pow2(n) && b < Pow2(n)
    ensures Or(a, b) < Pow2(n)
  {
    if a > 0 && b > 0 { OrStaysInWidth(a / 2, b / 2, n - 1); }
  }

  lemma {:induction false} AndNotShrinks(a: nat, b: nat)
    ensures AndNot(a, b) <= a
  {
    if a > 0 && b > 0 { AndNotShrinks(a / 2, b / 2); }
  }

  lemma {:induction false} Pow2Monotone(m: nat, n: nat)
    requires m <= n
    ensures Pow2(m) <= Pow2(n)
  {
    if m < n { Pow2Monotone(m, n - 1); }
  }

  /** The lowest set bit is the one `trailing_zeros` names. */
  lemma {:induction false} TrailingZerosIsLowest(v: nat, i: nat)
    requires v > 0
    ensures Bit(v, TrailingZeros(v))
    ensures i < TrailingZeros(v) ==> !Bit(v, i)
  {
    if v % 2 == 0 {
      TrailingZerosIsLowest(v / 2, if i > 0 then i - 1 else 0);
    }
  }

  lemma {:induction false} AndSelf(v: nat)
    ensures And(v, v) == v
  {
    if v > 0 { AndSelf(v / 2); }
  }

  /** `v & (v - 1)` clears exactly the lowest set bit. */
  lemma {:induction false} ClearLowest(v: nat, i: nat)
    requires v > 0
    ensures And(v, v - 1) < v
    ensures Bit(And(v, v - 1), i) == (Bit(v, i) && i != TrailingZeros(v))
  {
    if v % 2 == 1 {
      if v == 1 {
        ZeroHasNoBits(i);
        if i > 0 { ZeroHasNoBits(i - 1); }
      } else {
        AndSelf(v / 2);
        assert (v - 1) / 2 == v / 2;
        assert And(v, v - 1) == 2 * And(v / 2, v / 2);
        assert (v - 1) / 2 == v / 2;
      }
    } else {
      assert (v - 1) / 2 == v / 2 - 1;
      ClearLowest(v / 2, if i > 0 then i - 1 else 0);
      assert And(v, v - 1) == 2 * And(v / 2, v / 2 - 1);
    }
  }

  /** Masking with the complement of `2^k - 1` rounds down to a multiple of `2^k`. */
  lemma {:induction false} MaskRoundsDown(x: nat, k: nat)
    ensures AndNot(x, Pow2(k) - 1) == x / Pow2(k) * Pow2(k)
  {
    if k > 0 {
      MaskRoundsDown(x / 2, k - 1);
      MaskStep(x, Pow2(k - 1));
    }
  }

  lemma MaskStep(x: nat, p: nat)
    requires p > 0 && AndNot(x / 2, p - 1) == x / 2 / p * p
    ensures AndNot(x, 2 * p - 1) == x / (2 * p) * (2 * p)
  {
    DoubleMask(x, p);
    HalfThenQuotient(x, p);
  }

  lemma DoubleMask(x: nat, p: nat)
    requires p > 0
    ensures AndNot(x, 2 * p - 1) == 2 * AndNot(x / 2, p - 1)
  {
    var m := 2 * p - 1;
    assert m / 2 == p - 1 && m % 2 == 1;
  }

  lemma HalfThenQuotient(x: nat, p: nat)
    requires p > 0
    ensures 2 * (x / 2 / p * p) == x / (2 * p) * (2 * p)
  {
    var q := x / 2 / p;
    var r := x / 2 % p;
    assert x == 2 * (q * p + r) + x % 2;
    assert q * (2 * p) == 2 * (q * p);
    QuotientUnique(x, 2 * p, q, 2 * r + x % 2);
  }
}
