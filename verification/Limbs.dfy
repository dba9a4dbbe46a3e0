/** Numbers as sequences of 32-bit limbs, lowest first. */
module Limbs {
  import opened Powers

  const BASE := 0x1_0000_0000

  predicate AreLimbs(s: seq<nat>) {
    forall i :: 0 <= i < |s| ==> s[i] < BASE
  }

  function Value(s: seq<nat>): nat {
    if s == [] then 0 else Value(s[..|s| - 1]) + s[|s| - 1] * Pow(BASE, |s| - 1)
  }

  /** 2 to the number of bits: the modulus of arithmetic on `n` limbs. */
  function Modulus(n: nat): (m: nat)
    ensures m > 0
  {
    PowPositive(BASE, n);
    Pow(BASE, n)
  }

  lemma ValueAppend(s: seq<nat>, x: nat)
    ensures Value(s + [x]) == Value(s) + x * Pow(BASE, |s|)
  {
    assert (s + [x])[..|s|] == s;
  }

  lemma {:induction false} ValueBound(s: seq<nat>)
    requires AreLimbs(s)
    ensures Value(s) < Pow(BASE, |s|)
  {
    if s != [] {
      var n := |s| - 1;
      ValueBound(s[..n]);
      MulMono(s[n], BASE - 1, Pow(BASE, n));
      Distribute(BASE, 1, Pow(BASE, n));
    }
  }

  lemma {:induction false} ValueConcat(a: seq<nat>, b: seq<nat>)
    ensures Value(a + b) == Value(a) + Value(b) * Pow(BASE, |a|)
    decreases |b|
  {
    if b == [] {
      assert a + b == a;
    } else {
      var n := |b| - 1;
      ValueConcat(a, b[..n]);
      assert (a + b)[..|a + b| - 1] == a + b[..n];
      PowAdd(BASE, n, |a|);
      MulAssoc(b[n], Pow(BASE, n), Pow(BASE, |a|));
      Distribute(Value(b[..n]), b[n] * Pow(BASE, n), Pow(BASE, |a|));
    }
  }

  /** Splitting at limb `i`. */
  lemma ValueSplit(s: seq<nat>, i: nat)
    requires i <= |s|
    ensures Value(s) == Value(s[..i]) + Value(s[i..]) * Pow(BASE, i)
  {
    assert s == s[..i] + s[i..];
    ValueConcat(s[..i], s[i..]);
  }

  lemma {:induction false} ValueZero(s: seq<nat>)
    requires forall i :: 0 <= i < |s| ==> s[i] == 0
    ensures Value(s) == 0
  {
    if s != [] {
      ValueZero(s[..|s| - 1]);
    }
  }

  lemma {:induction false} ValueUpdate(s: seq<nat>, i: nat, x: nat)
    requires i < |s|
    ensures Value(s[i := x]) == Value(s) + (x - s[i]) * Pow(BASE, i)
  {
    var n := |s| - 1;
    if i == n {
      assert s[i := x][..n] == s[..n];
      Distribute(x, s[i], Pow(BASE, n));
    } else {
      ValueUpdate(s[..n], i, x);
      assert s[i := x][..n] == s[..n][i := x];
    }
  }

  /** The highest limb in which two numbers differ decides their order. */
  lemma ValueOrder(s: seq<nat>, t: seq<nat>, i: nat)
    requires AreLimbs(s) && AreLimbs(t) && |s| == |t| && i < |s|
    requires s[i] < t[i] && s[i + 1..] == t[i + 1..]
    ensures Value(s) < Value(t)
  {
    hide Value; hide Pow;
    var p := Pow(BASE, i);
    ValueSplit(s, i + 1);
    ValueSplit(t, i + 1);
    assert s[..i + 1] == s[..i] + [s[i]] && t[..i + 1] == t[..i] + [t[i]];
    ValueAppend(s[..i], s[i]);
    ValueAppend(t[..i], t[i]);
    ValueBound(s[..i]);
    MulMono(s[i] + 1, t[i], p);
    Distribute(s[i], 1, p);
  }

  /** One limb of the result and the carry to the next. */
  lemma Digit(n: nat, p: nat)
    ensures (n % BASE) * p + (n / BASE) * (BASE * p) == n * p
  {
    MulAssoc(n / BASE, BASE, p);
    Distribute(n / BASE * BASE, n % BASE, p);
  }

  /** A value below the modulus, off by a multiple of it, is the remainder. */
  lemma Truncated(v: nat, carry: nat, exact: nat, n: nat)
    requires v < Pow(BASE, n) && v + carry * Pow(BASE, n) == exact
    ensures v == exact % Modulus(n)
  {
    QuotientUnique(exact, Pow(BASE, n), carry, v);
  }

  lemma BaseIsPower()
    ensures BASE == Pow(2, 32)
  {
    assert Pow(2, 8) == 0x100;
    PowAdd(2, 8, 8);
    assert Pow(2, 16) == 0x1_0000;
    PowAdd(2, 16, 16);
  }

  /** A power of two splits into whole limbs and the bits within one. */
  lemma PowerSplit(k: nat, t: nat)
    ensures Pow(2, 32 * k + t) == Pow(BASE, k) * Pow(2, t)
  {
    BaseIsPower();
    PowAdd(2, 32 * k, t);
    PowPow(2, 32, k);
  }

  lemma PowerOfLimb(t: nat)
    requires t <= 32
    ensures BASE == Pow(2, t) * Pow(2, 32 - t) && 0 < Pow(2, t) <= BASE
  {
    BaseIsPower();
    PowAdd(2, t, 32 - t);
    PowPositive(2, t);
    PowMono(2, t, 32);
  }

  // ----- Shifts of one limb -----

  function Shl(x: nat, n: nat): nat {
    x * Pow(2, n) % BASE
  }

  function Shr(x: nat, n: nat): nat {
    PowPositive(2, n);
    x / Pow(2, n)
  }

  // ----- Bitwise or -----

  /** The bits of both. */
  function Or(a: nat, b: nat): nat {
    if a == 0 && b == 0 then 0
    else 2 * Or(a / 2, b / 2) + (if a % 2 == 1 || b % 2 == 1 then 1 else 0)
  }

  lemma {:induction false} OrZero(b: nat)
    ensures Or(0, b) == b
  {
    if b > 0 {
      OrZero(b / 2);
    }
  }

  lemma {:induction false} OrSymmetric(a: nat, b: nat)
    ensures Or(a, b) == Or(b, a)
  {
    if a > 0 || b > 0 {
      OrSymmetric(a / 2, b / 2);
    }
  }

  /** Without common bits it is a sum. */
  lemma {:induction false} OrDisjoint(a: nat, b: nat, s: nat)
    requires a < Pow(2, s) && b % (PowPositive(2, s); Pow(2, s)) == 0
    ensures Or(a, b) == a + b
    decreases s
  {
    if s == 0 {
      OrZero(b);
    } else {
      var p := Pow(2, s - 1);
      PowPositive(2, s - 1);
      var q := b / Pow(2, s);
      assert b == q * (2 * p);
      assert b / 2 == q * p && b % 2 == 0 by {
        MulAssoc(q, 2, p);
        QuotientUnique(b, 2, q * p, 0);
      }
      QuotientUnique(b / 2, p, q, 0);
      OrDisjoint(a / 2, b / 2, s - 1);
    }
  }
}
