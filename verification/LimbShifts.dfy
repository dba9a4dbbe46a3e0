/** What the limb-wise shifts do to the value. */
module LimbShifts {
  import opened Powers
  import opened Limbs

  function At(a: seq<nat>, j: int): nat {
    if 0 <= j < |a| then a[j] else 0
  }

  /** Limb `j` of `a` shifted left by `k` limbs and `s` bits. */
  function LeftLimb(a: seq<nat>, k: nat, s: nat, j: int): nat
    requires s < 32
  {
    PowPositive(2, 32 - s);
    At(a, j - k) * Pow(2, s) % BASE + At(a, j - k - 1) / Pow(2, 32 - s)
  }

  function Take(a: seq<nat>, m: int): seq<nat> {
    if m <= 0 then [] else if m <= |a| then a[..m] else a
  }

  /** The bits of a limb that stay in it and those that move to the next. */
  lemma MovedBits(x: nat, s: nat)
    requires s < 32
    ensures Pow(2, 32 - s) > 0 && x / Pow(2, 32 - s) == x * Pow(2, s) / BASE
  {
    PowerOfLimb(32 - s);
    PowPositive(2, s);
    DivCancel(x, Pow(2, 32 - s), Pow(2, s));
  }

  lemma {:induction false} LeftPrefix(a: seq<nat>, k: nat, s: nat, r: seq<nat>, j: nat)
    requires s < 32 && |r| == |a| && j <= |a|
    requires forall i :: 0 <= i < |r| ==> r[i] == LeftLimb(a, k, s, i)
    ensures Pow(2, 32 - s) > 0
    ensures Value(r[..j]) + At(a, j - k - 1) / Pow(2, 32 - s) * Pow(BASE, j) == Value(Take(a, j - k)) * Pow(2, 32 * k + s)
  {
    hide Pow; hide Take;
    PowPositive(2, 32 - s);
    if j == 0 {
      assert At(a, 0 - k - 1) == 0;
      assert Take(a, 0 - k) == [] by { TakeNone(a, k); }
    } else {
      var i := j - 1;
      LeftPrefix(a, k, s, r, i);
      var x, p, f := At(a, i - k), Pow(BASE, i), Pow(2, 32 * k + s);
      var carry := At(a, i - k - 1) / Pow(2, 32 - s);
      MovedBits(x, s);
      assert Pow(BASE, j) == BASE * p by { PowStep(BASE, i); }
      Digit(x * Pow(2, s), p);
      assert r[..j] == r[..i] + [r[i]];
      ValueAppend(r[..i], r[i]);
      Distribute(x * Pow(2, s) % BASE, carry, p);
      var y := x * Pow(2, s);
      assert Value(r[..j]) == Value(r[..i]) + (y % BASE * p + carry * p);
      assert x / Pow(2, 32 - s) * Pow(BASE, j) == y / BASE * (BASE * p);
      TakeStep(a, k, s, i);
    }
  }

  lemma TakeNone(a: seq<nat>, k: nat)
    ensures Take(a, 0 - k) == []
  {
  }

  lemma TakeStep(a: seq<nat>, k: nat, s: nat, i: nat)
    requires i < |a|
    ensures Value(Take(a, i + 1 - k)) * Pow(2, 32 * k + s) ==
            Value(Take(a, i - k)) * Pow(2, 32 * k + s) + At(a, i - k) * Pow(2, s) * Pow(BASE, i)
  {
    if i >= k {
      hide Pow; hide Value;
      var m := i - k;
      var x := a[m];
      assert a[..m + 1] == a[..m] + [x];
      ValueAppend(a[..m], x);
      Distribute(Value(a[..m]), x * Pow(BASE, m), Pow(2, 32 * k + s));
      PowerSplit(k, s);
      PowAdd(BASE, m, k);
      Regroup(x, Pow(BASE, m), Pow(BASE, k), Pow(2, s));
      assert Take(a, m) == a[..m] && Take(a, m + 1) == a[..m + 1];
    }
  }

  lemma Regroup(x: nat, p: nat, q: nat, f: nat)
    ensures x * p * (q * f) == x * f * (p * q)
  {
    MulAssoc(x, p, q * f);
    MulAssoc(x, f, p * q);
    assert p * (q * f) == f * (p * q) by {
      MulAssoc(p, q, f);
    }
  }

  /** What is shifted past the end is a multiple of the modulus. */
  lemma LeftLost(a: seq<nat>, k: nat, s: nat) returns (lost: nat)
    ensures Value(a) * Pow(2, 32 * k + s) == Value(Take(a, |a| - k)) * Pow(2, 32 * k + s) + lost * Pow(BASE, |a|)
  {
    hide Pow; hide Value;
    var n := |a|;
    var f := Pow(2, 32 * k + s);
    var m := if k <= n then n - k else 0;
    var e := m + k - n;
    assert Take(a, n - k) == a[..m];
    ValueSplit(a, m);
    var high := Value(a[m..]);
    Distribute(Value(a[..m]), high * Pow(BASE, m), f);
    PowerSplit(k, s);
    Regroup(high, Pow(BASE, m), Pow(BASE, k), Pow(2, s));
    PowAdd(BASE, m, k);
    PowAdd(BASE, e, n);
    MulAssoc(high * Pow(2, s), Pow(BASE, e), Pow(BASE, n));
    lost := high * Pow(2, s) * Pow(BASE, e);
  }

  /** Shifting left multiplies, and loses what no longer fits. */
  lemma LeftValue(a: seq<nat>, k: nat, s: nat, r: seq<nat>)
    requires s < 32 && |r| == |a| && AreLimbs(r)
    requires forall i :: 0 <= i < |r| ==> r[i] == LeftLimb(a, k, s, i)
    ensures Value(r) == Value(a) * Pow(2, 32 * k + s) % Modulus(|a|)
  {
    hide Pow; hide Value; hide LeftLimb; hide Take; hide At; hide Modulus;
    var n := |a|;
    LeftPrefix(a, k, s, r, n);
    assert r[..n] == r;
    var carry := At(a, n - k - 1) / Pow(2, 32 - s);
    var lost := LeftLost(a, k, s);
    ValueBound(r);
    Distribute(carry, lost, Pow(BASE, n));
    Truncated(Value(r), carry + lost, Value(a) * Pow(2, 32 * k + s), n);
  }

  // ----- Right -----

  function RightLimb(a: seq<nat>, k: nat, s: nat, j: int): nat
    requires s < 32
  {
    PowPositive(2, s);
    At(a, j + k) / Pow(2, s) + At(a, j + k + 1) * Pow(2, 32 - s) % BASE
  }

  /** `n` limbs of `a` from limb `k` on, with zeros past its end. */
  function Window(a: seq<nat>, k: nat, n: nat): (r: seq<nat>)
    ensures |r| == n && forall i :: 0 <= i < n ==> r[i] == At(a, k + i)
  {
    seq<nat>(n, i requires 0 <= i < n => At(a, k + i))
  }

  lemma ReceivedBits(x: nat, s: nat)
    requires s < 32
    ensures Pow(2, s) > 0 && x * Pow(2, 32 - s) % BASE == x % Pow(2, s) * Pow(2, 32 - s)
  {
    hide Pow;
    PowerOfLimb(s);
    PowPositive(2, 32 - s);
    var p, h := Pow(2, s), Pow(2, 32 - s);
    var q, t := x / p, x % p;
    assert x == q * p + t;
    Distribute(q * p, t, h);
    MulAssoc(q, p, h);
    MulMono(t, p - 1, h);
    Distribute(p, 1, h);
    QuotientUnique(x * h, BASE, q, t * h);
  }

  lemma {:induction false} RightPrefix(a: seq<nat>, k: nat, s: nat, r: seq<nat>, j: nat)
    requires s < 32 && |r| == |a| && j <= |a|
    requires forall i :: 0 <= i < |r| ==> r[i] == RightLimb(a, k, s, i)
    ensures Pow(2, s) > 0
    ensures Value(Window(a, k, j)) + At(a, k + j) % Pow(2, s) * Pow(BASE, j) == Value(r[..j]) * Pow(2, s) + At(a, k) % Pow(2, s)
  {
    hide Pow;
    PowPositive(2, s);
    if j == 0 {
      assert Pow(BASE, 0) == 1 by { PowBase(BASE); }
    } else {
      var i := j - 1;
      RightPrefix(a, k, s, r, i);
      var p, t := Pow(BASE, i), Pow(2, s);
      var x, y := At(a, k + i), At(a, k + i + 1);
      assert Window(a, k, j) == Window(a, k, i) + [x];
      ValueAppend(Window(a, k, i), x);
      assert r[..j] == r[..i] + [r[i]];
      ValueAppend(r[..i], r[i]);
      PowStep(BASE, i);
      RightStep(x, y, s, p);
      Distribute(Value(r[..i]), r[i] * p, t);
    }
  }

  lemma RightTotal(a: seq<nat>, k: nat, s: nat, r: seq<nat>)
    requires s < 32 && |r| == |a|
    requires forall i :: 0 <= i < |r| ==> r[i] == RightLimb(a, k, s, i)
    ensures Pow(2, s) > 0
    ensures Value(Window(a, k, |a|)) == Value(r) * Pow(2, s) + At(a, k) % Pow(2, s)
  {
    hide Pow; hide Value; hide RightLimb; hide Window;
    RightPrefix(a, k, s, r, |a|);
    assert r[..|a|] == r;
    QuotientUnique(0, Pow(2, s), 0, 0);
    assert At(a, k + |a|) == 0;
  }

  lemma RightStep(x: nat, y: nat, s: nat, p: nat)
    requires s < 32
    ensures Pow(2, s) > 0
    ensures (x / Pow(2, s) + y * Pow(2, 32 - s) % BASE) * p * Pow(2, s) + x % Pow(2, s) * p == x * p + y % Pow(2, s) * (BASE * p)
  {
    hide Pow;
    ReceivedBits(y, s);
    PowerOfLimb(s);
    var t, h := Pow(2, s), Pow(2, 32 - s);
    var q, u := x / t, y % t;
    assert x == q * t + x % t;
    calc {
      (q + u * h) * p * t + x % t * p;
      { Swap(q + u * h, p, t); Distribute(q, u * h, t); MulAssoc(u, h, t); }
      (q * t + u * BASE) * p + x % t * p;
      { Distribute(q * t + u * BASE, x % t, p); Distribute(x, u * BASE, p); }
      x * p + u * BASE * p;
      { MulAssoc(u, BASE, p); }
      x * p + u * (BASE * p);
    }
  }

  lemma Swap(a: int, b: int, c: int)
    ensures a * b * c == a * c * b
  {
    MulAssoc(a, b, c);
    MulAssoc(a, c, b);
  }

  lemma WindowValue(a: seq<nat>, k: nat)
    requires AreLimbs(a)
    ensures Pow(BASE, k) > 0 && Value(Window(a, k, |a|)) == Value(a) / Pow(BASE, k)
  {
    hide Pow; hide Value;
    PowPositive(BASE, k);
    if k <= |a| {
      WindowInside(a, k);
      ValueSplit(a, k);
      ValueBound(a[..k]);
      QuotientUnique(Value(a), Pow(BASE, k), Value(a[k..]), Value(a[..k]));
    } else {
      ValueZero(Window(a, k, |a|));
      ValueBound(a);
      PowMono(BASE, |a|, k);
      QuotientUnique(Value(a), Pow(BASE, k), 0, Value(a));
    }
  }

  lemma WindowInside(a: seq<nat>, k: nat)
    requires k <= |a|
    ensures Value(Window(a, k, |a|)) == Value(a[k..])
  {
    hide Pow; hide Value;
    var w, m := Window(a, k, |a|), |a| - k;
    assert w[..m] == a[k..];
    ValueSplit(w, m);
    ValueZero(w[m..]);
  }

  /** Shifting right divides. */
  lemma RightValue(a: seq<nat>, k: nat, s: nat, r: seq<nat>)
    requires s < 32 && |r| == |a| && AreLimbs(a)
    requires forall i :: 0 <= i < |r| ==> r[i] == RightLimb(a, k, s, i)
    ensures Pow(2, 32 * k + s) > 0 && Value(r) == Value(a) / Pow(2, 32 * k + s)
  {
    hide Pow; hide Value; hide RightLimb; hide Window; hide At;
    RightTotal(a, k, s, r);
    WindowValue(a, k);
    PowerSplit(k, s);
    QuotientTwice(Value(a), Pow(BASE, k), Pow(2, s), Value(r), At(a, k) % Pow(2, s));
  }

  lemma QuotientTwice(n: nat, p: nat, t: nat, q: nat, r: nat)
    requires 0 < p && r < t && n / p == q * t + r
    ensures 0 < p * t && n / (p * t) == q
  {
    QuotientUnique(n / p, t, q, r);
    DivDiv(n, p, t);
  }
}
