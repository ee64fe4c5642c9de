/** Bitwise AND and complement on integers, and what masking with a power of two computes. */
module Bits {
  import opened Common

  function And(a: nat, b: nat): nat {
    if a == 0 || b == 0 then 0 else (a % 2) * (b % 2) + 2 * And(a / 2, b / 2)
  }

  lemma {:induction false} AndBelow(a: nat, b: nat)
    ensures And(a, b) <= a
  {
    if a != 0 && b != 0 {
      AndBelow(a / 2, b / 2);
    }
  }

  function Not32(x: nat): (r: nat)
    requires x < TWO_32
  {
    TWO_32 - 1 - x
  }

  function Pow2(k: nat): (p: nat)
    ensures 1 <= p
  {
    if k == 0 then 1 else 2 * Pow2(k - 1)
  }

  lemma {:induction false} Pow2Monotone(j: nat, k: nat)
    requires j <= k
    ensures Pow2(j) <= Pow2(k)
    decreases k
  {
    if j < k {
      Pow2Monotone(j, k - 1);
    }
  }

  lemma AndStep(x: nat, m: nat, b: nat)
    requires b < 2
    ensures And(x, 2 * m + b) == (x % 2) * b + 2 * And(x / 2, m)
  {
    assert (2 * m + b) / 2 == m && (2 * m + b) % 2 == b;
  }

  /** The greatest multiple of p that is not above x. */
  function RoundDown(x: nat, p: nat): nat
    requires 1 <= p
  {
    x - x % p
  }

  lemma RoundDownIsGreatest(x: nat, p: nat)
    requires 1 <= p
    ensures var r := RoundDown(x, p);
      && r <= x < r + p && r % p == 0
      && forall m: nat :: m % p == 0 && m <= x ==> m <= r
  {
    DivModUnique(x - x % p, p, x / p, 0);
    forall m: nat | m % p == 0 && m <= x ensures m <= RoundDown(x, p) {
      MultipleBelow(m, x, p);
    }
  }

  lemma MultipleBelow(m: nat, x: nat, p: nat)
    requires 1 <= p && m % p == 0 && m <= x
    ensures m <= x - x % p
  {
    var a, b := m / p, x / p;
    assert m == p * a && x - x % p == p * b;
    if b < a {
      MulMonotone(p, b + 1, a);
    } else {
      MulMonotone(p, a, b);
    }
  }

  lemma RoundDownDouble(x: nat, h: nat)
    requires 1 <= h
    ensures RoundDown(x, 2 * h) == 2 * RoundDown(x / 2, h)
  {
    var q, r := (x / 2) / h, (x / 2) % h;
    DoubleProduct(h, q);
    DivModUnique(x, 2 * h, q, 2 * r + x % 2);
  }

  lemma DoubleProduct(h: int, q: int)
    ensures (2 * h) * q == 2 * (h * q)
  {
  }

  /** Masking with all w bits. */
  lemma {:induction false} AndAllOnes(x: nat, w: nat)
    requires x < Pow2(w)
    ensures And(x, Pow2(w) - 1) == x
    decreases w
  {
    if w > 0 {
      AndAllOnes(x / 2, w - 1);
      hide And;
      AndStep(x, Pow2(w - 1) - 1, 1);
    }
  }

  /** Masking off the low k of w bits rounds down to a multiple of 2^k. */
  lemma {:induction false} AndHighMask(x: nat, w: nat, k: nat)
    requires x < Pow2(w) && k <= w
    ensures Pow2(k) <= Pow2(w) && And(x, Pow2(w) - Pow2(k)) == RoundDown(x, Pow2(k))
    decreases w
  {
    hide And, RoundDown;
    Pow2Monotone(k, w);
    if k == 0 {
      AndAllOnes(x, w);
      RoundDownOne(x);
    } else {
      AndHighMask(x / 2, w - 1, k - 1);
      AndStep(x, Pow2(w - 1) - Pow2(k - 1), 0);
      RoundDownDouble(x, Pow2(k - 1));
    }
  }

  lemma RoundDownOne(x: nat)
    ensures RoundDown(x, 1) == x
  {
  }

  lemma Pow2Of32()
    ensures Pow2(32) == TWO_32
  {
    assert Pow2(8) == 0x100;
    assert Pow2(16) == 0x1_0000;
    assert Pow2(24) == 0x100_0000;
  }
}
