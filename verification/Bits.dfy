/** The bits of numbers and bytes. */
module Bits {
  import opened Powers
  import Limbs

  /** Bit `k`, counted from the lowest. */
  predicate BitOf(x: nat, k: nat) {
    if k == 0 then x % 2 == 1 else BitOf(x / 2, k - 1)
  }

  lemma {:induction false} SameBits(x: nat, y: nat, n: nat)
    requires x < Pow(2, n) && y < Pow(2, n) && forall k :: 0 <= k < n ==> BitOf(x, k) == BitOf(y, k)
    ensures x == y
    decreases n
  {
    if n > 0 {
      assert BitOf(x, 0) == BitOf(y, 0);
      forall k | 0 <= k < n - 1 ensures BitOf(x / 2, k) == BitOf(y / 2, k) {
        assert BitOf(x, k + 1) == BitOf(y, k + 1);
      }
      SameBits(x / 2, y / 2, n - 1);
    }
  }

  lemma {:induction false} ShiftedBit(x: nat, m: nat, k: nat)
    ensures Pow(2, m) > 0 && BitOf(x / Pow(2, m), k) == BitOf(x, k + m)
    decreases m
  {
    PowPositive(2, m);
    if m > 0 {
      ShiftedBit(x / 2, m - 1, k);
      DivDiv(x, 2, Pow(2, m - 1));
    }
  }

  lemma {:induction false} OrBit(a: nat, b: nat, k: nat)
    ensures BitOf(Limbs.Or(a, b), k) == (BitOf(a, k) || BitOf(b, k))
    decreases k
  {
    if k > 0 {
      OrBit(a / 2, b / 2, k - 1);
      if a == 0 && b == 0 { ZeroBit(k); }
    }
  }

  lemma {:induction false} ZeroBit(k: nat)
    ensures !BitOf(0, k)
  {
    if k > 0 {
      ZeroBit(k - 1);
    }
  }

  lemma {:induction false} PowerBit(t: nat, k: nat)
    ensures BitOf(Pow(2, t), k) <==> k == t
    decreases k
  {
    if k == 0 {
    } else if t == 0 {
      assert Pow(2, 0) == 1 && 1 / 2 == 0;
      ZeroBit(k - 1);
    } else {
      PowerBit(t - 1, k - 1);
      assert Pow(2, t) / 2 == Pow(2, t - 1);
    }
  }

  lemma {:induction false} OrBound(a: nat, b: nat, n: nat)
    requires a < Pow(2, n) && b < Pow(2, n)
    ensures Limbs.Or(a, b) < Pow(2, n)
    decreases n
  {
    if n > 0 {
      OrBound(a / 2, b / 2, n - 1);
    }
  }

  lemma SetBit(x: nat, t: nat)
    requires x < 256 && t < 8
    ensures Limbs.Or(x, Pow(2, t)) < 256
    ensures forall k :: 0 <= k < 8 ==> BitOf(Limbs.Or(x, Pow(2, t)), k) == (BitOf(x, k) || k == t)
  {
    hide Limbs.Or; hide BitOf; hide Pow;
    assert Pow(2, 8) == 256 by { EightBits(); }
    PowStrict(2, t, 8);
    OrBound(x, Pow(2, t), 8);
    forall k | 0 <= k < 8 ensures BitOf(Limbs.Or(x, Pow(2, t)), k) == (BitOf(x, k) || k == t) {
      OrBit(x, Pow(2, t), k);
      PowerBit(t, k);
    }
  }

  lemma EightBits()
    ensures Pow(2, 8) == 256
  {
  }
}
