/** The heights that skip pointers, walks and locators go to. */
module ChainHeights {
  import opened Powers

  // ----- Skip heights -----

  /** The bits of both. */
  function And(a: nat, b: nat): (r: nat)
    ensures r <= a && r <= b
  {
    if a == 0 || b == 0 then 0
    else 2 * And(a / 2, b / 2) + (if a % 2 == 1 && b % 2 == 1 then 1 else 0)
  }

  function InvertLowestOne(n: nat): (r: nat)
    ensures r < n || r == n == 0
  {
    if n == 0 then 0 else And(n, n - 1)
  }

  function GetSkipHeight(height: nat): (r: nat)
    ensures r < height || r == height == 0
  {
    if height < 2 then 0
    else if height % 2 == 1 then InvertLowestOne(InvertLowestOne(height - 1)) + 1
    else InvertLowestOne(height)
  }

  // ----- The walk of GetAncestor -----

  /** Whether a walk from `w` towards `t` follows the skip pointer. */
  predicate TakesSkip(w: nat, t: nat)
    requires w > t
  {
    var s, p := GetSkipHeight(w), GetSkipHeight(w - 1);
    s == t || (s > t && !(p < s - 2 && p >= t))
  }

  function NextHeight(w: nat, t: nat): (r: nat)
    requires w > t
    ensures t <= r < w
  {
    if TakesSkip(w, t) then GetSkipHeight(w) else w - 1
  }

  function Steps(w: nat, t: nat): nat
    decreases w
  {
    if w <= t then 0 else 1 + Steps(NextHeight(w, t), t)
  }

  /** Less than the square of the number of bits. */
  function WalkLimit(bits: nat): (r: nat)
    requires bits >= 1
  {
    MulMono(0, bits - 1, bits);
    bits * (bits - 1) + 1
  }

  // ----- The lowest one of a number -----

  lemma {:induction false} AndSelf(n: nat)
    ensures And(n, n) == n
  {
    if n > 0 {
      AndSelf(n / 2);
    }
  }

  lemma InvertOdd(m: nat)
    ensures InvertLowestOne(2 * m + 1) == 2 * m
  {
    var n := 2 * m + 1;
    assert n / 2 == m && (n - 1) / 2 == m;
    AndSelf(m);
  }

  lemma InvertEven(h: nat)
    ensures InvertLowestOne(2 * h) == 2 * InvertLowestOne(h)
  {
    if h > 0 {
      assert 2 * h / 2 == h && (2 * h - 1) / 2 == h - 1;
    }
  }

  /** The lowest one of a number is at bit `k`, and becomes a zero. */
  lemma {:induction false} LowestOneCleared(m: nat, k: nat)
    ensures m * Pow(2, k + 1) >= 0
    ensures InvertLowestOne(m * Pow(2, k + 1) + Pow(2, k)) == m * Pow(2, k + 1)
    decreases k
  {
    hide InvertLowestOne;
    MulMono(0, m, Pow(2, k + 1));
    if k == 0 {
      assert Pow(2, 1) == 2 && Pow(2, 0) == 1;
      InvertOdd(m);
    } else {
      LowestOneCleared(m, k - 1);
      var t := m * Pow(2, k);
      assert m * Pow(2, k + 1) == 2 * t by { Doubled(m, Pow(2, k)); }
      InvertEven(t + Pow(2, k - 1));
    }
  }

  // ----- Locators -----

  /** How far back entry `i` of a locator lies: one by one at first, then doubling. */
  function Gap(i: nat): (g: nat) {
    if i <= 10 then i else 9 + Pow(2, i - 10)
  }

  /** The step taken back from the `n`-th entry. */
  function Stride(n: nat): nat {
    if n <= 11 then 1 else Pow(2, n - 11)
  }

  lemma GapStep(n: nat)
    requires n >= 1
    ensures Gap(n) == Gap(n - 1) + Stride(n) && Stride(n) >= 1
  {
    if n > 11 {
      PowPositive(2, n - 11);
    } else if n == 11 {
      assert Pow(2, 1) == 2;
    }
  }

  lemma {:induction false} GapMono(i: nat, j: nat)
    requires i < j
    ensures Gap(i) < Gap(j)
    decreases j
  {
    GapStep(j);
    if i < j - 1 {
      GapMono(i, j - 1);
    }
  }

  /** Height of entry `i` of the locator for a block at height `top`; genesis ends it. */
  function LocatorHeight(top: nat, i: nat): (h: nat)
    ensures h <= top
  {
    if Gap(i) <= top then top - Gap(i) else 0
  }
}
