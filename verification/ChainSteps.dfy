/** How many blocks a walk back along the skip list visits. */
module ChainSteps {
  import opened Powers
  import opened ChainHeights

  /** After `n` steps of the walk from `x` towards `t` it stands at `y`. */
  predicate Reaches(x: nat, t: nat, y: nat, n: nat) {
    if n == 0 then x == y else x > t && Reaches(NextHeight(x, t), t, y, n - 1)
  }

  lemma {:induction false} ReachesOn(x: nat, t: nat, y: nat, n: nat, z: nat, k: nat)
    requires Reaches(x, t, y, n) && Reaches(y, t, z, k)
    ensures Reaches(x, t, z, n + k)
    decreases n
  {
    if n > 0 {
      ReachesOn(NextHeight(x, t), t, y, n - 1, z, k);
    }
  }

  lemma {:induction false} StepsSplit(x: nat, t: nat, y: nat, n: nat)
    requires Reaches(x, t, y, n)
    ensures Steps(x, t) == n + Steps(y, t)
    decreases n
  {
    if n > 0 {
      StepsSplit(NextHeight(x, t), t, y, n - 1);
    }
  }

  lemma OneStep(x: nat, t: nat)
    requires x > t
    ensures Reaches(x, t, NextHeight(x, t), 1)
  {
    assert Reaches(NextHeight(x, t), t, NextHeight(x, t), 0);
  }

  /** From an odd height the skip is taken unless it overshoots. */
  lemma OddStep(x: nat, t: nat)
    requires x % 2 == 1 && t < x
    ensures NextHeight(x, t) == if GetSkipHeight(x) >= t then GetSkipHeight(x) else x - 1
    ensures x >= 3 ==> GetSkipHeight(x) == InvertLowestOne(InvertLowestOne(x - 1)) + 1
  {
    hide InvertLowestOne;
  }

  lemma SkipOfOdd(x: nat)
    requires x % 2 == 1
    ensures x >= 3 ==> GetSkipHeight(x) == InvertLowestOne(InvertLowestOne(x - 1)) + 1
    ensures x == 1 ==> GetSkipHeight(x) == InvertLowestOne(InvertLowestOne(x - 1))
  {
  }

  // ----- Aligned heights -----

  /** A multiple of 2^c. */
  predicate Aligned(b: nat, c: nat) {
    PowPositive(2, c);
    b % Pow(2, c) == 0
  }

  lemma AlignedOf(m: nat, c: nat, b: nat)
    requires b == m * Pow(2, c)
    ensures Aligned(b, c)
  {
    PowPositive(2, c);
    QuotientUnique(b, Pow(2, c), m, 0);
  }

  lemma AlignedParts(b: nat, c: nat) returns (m: nat)
    requires Aligned(b, c)
    ensures b == m * Pow(2, c)
  {
    PowPositive(2, c);
    m := b / Pow(2, c);
  }

  lemma AlignedHalf(b: nat, c: nat)
    requires c >= 1 && Aligned(b, c)
    ensures Aligned(b, c - 1) && Aligned(b + Pow(2, c - 1), c - 1)
    ensures b % 2 == 0 && InvertLowestOne(b + Pow(2, c - 1)) == b
  {
    hide Aligned; hide InvertLowestOne; hide Pow;
    var p := Pow(2, c - 1);
    PowStep2(c - 1);
    var m := AlignedParts(b, c);
    assert b == (2 * m) * p && b + p == (2 * m + 1) * p by {
      MulAssoc(m, 2, p);
      Distribute(2 * m, 1, p);
    }
    AlignedOf(2 * m, c - 1, b);
    AlignedOf(2 * m + 1, c - 1, b + p);
    assert b == 2 * (m * p) by { MulAssoc(2, m, p); }
    LowestOneCleared(m, c - 1);
  }

  lemma AlignedLess(b: nat, c: nat, d: nat)
    requires Aligned(b, c) && d <= c
    ensures Aligned(b, d)
    decreases c
  {
    if d < c {
      AlignedHalf(b, c);
      AlignedLess(b, c - 1, d);
    }
  }

  lemma SmallPowers()
    ensures Pow(2, 0) == 1 && Pow(2, 1) == 2 && Pow(2, 2) == 4 && Pow(2, 3) == 8
  {
  }

  /** The skip of the height just below an aligned one and a half block. */
  lemma SkipBefore(b: nat, c: nat)
    requires c >= 2 && Aligned(b, c) && b > 0
    ensures Pow(2, c - 1) >= 1
    ensures var s := GetSkipHeight(b + Pow(2, c - 1) - 1);
            && (c == 2 ==> s == InvertLowestOne(InvertLowestOne(b)) + 1)
            && (c == 3 ==> s == InvertLowestOne(b) + 1)
            && (c >= 4 ==> s >= b + 1)
  {
    hide InvertLowestOne; hide Aligned; hide Pow; hide GetSkipHeight;
    SmallPowers();
    AlignedHalf(b, c);
    PowStep2(c - 2);
    var h := Pow(2, c - 1);
    var x := b + h - 2;
    assert (x + 1) % 2 == 1;
    SkipOfOdd(x + 1);
    if c == 3 {
      AlignedLess(b, 3, 2);
      AlignedHalf(b, 2);
    } else if c >= 4 {
      BeforeDeep(b, c);
    }
  }

  lemma PowStep2(e: nat)
    ensures Pow(2, e + 1) == 2 * Pow(2, e) && Pow(2, e) >= 1
  {
    PowPositive(2, e);
  }

  lemma BeforeDeep(b: nat, c: nat)
    requires c >= 4 && Aligned(b, c)
    ensures b + Pow(2, c - 1) >= 8 && InvertLowestOne(InvertLowestOne(b + Pow(2, c - 1) - 2)) >= b
  {
    hide InvertLowestOne; hide Aligned;
    var h := Pow(2, c - 1);
    SmallPowers();
    PowMono(2, 3, c - 1);
    AlignedHalf(b, c);
    AlignedLess(b + h, c - 1, 3);
    AlignedBelow(b + h, 3);
    AlignedLess(b + h - 8, 3, 3);
    AlignedHalf(b + h - 8, 3);
    AlignedHalf(b + h - 4, 2);
  }

  lemma AlignedBelow(b: nat, c: nat)
    requires Aligned(b, c) && b > 0
    ensures b >= Pow(2, c) && Aligned(b - Pow(2, c), c)
  {
    hide Aligned; hide Pow;
    var m := AlignedParts(b, c);
    assert m > 0;
    MulMono(1, m, Pow(2, c));
    Distribute(m, 1, Pow(2, c));
    AlignedOf(m - 1, c, b - Pow(2, c));
  }

  // ----- Down to an aligned height -----

  ghost predicate Landing(b: nat, y: nat) {
    y == b + 1 || y == b || y == InvertLowestOne(b) + 1 || y == InvertLowestOne(InvertLowestOne(b)) + 1
  }

  lemma FromHalf(b: nat, c: nat, t: nat) returns (y: nat, k: nat)
    requires c >= 2 && Aligned(b, c) && t < b
    ensures Reaches(b + Pow(2, c - 1), t, y, k) && k <= 2 && y >= t && Landing(b, y)
  {
    hide InvertLowestOne; hide Aligned; hide Reaches;
    var x := b + Pow(2, c - 1);
    AlignedHalf(b, c);
    PowStep2(c - 2);
    SkipBefore(b, c);
    OneStep(x, t);
    if NextHeight(x, t) == b {
      return b, 1;
    }
    OddStep(x - 1, t);
    OneStep(x - 1, t);
    ReachesOn(x, t, x - 1, 1, GetSkipHeight(x - 1), 1);
    return GetSkipHeight(x - 1), 2;
  }

  lemma FromHalfPlus(b: nat, c: nat, t: nat) returns (y: nat, k: nat)
    requires c >= 2 && Aligned(b, c) && t < b
    ensures Reaches(b + Pow(2, c - 1) + 1, t, y, k) && k <= 2 && y >= t && Landing(b, y)
  {
    hide Aligned; hide Reaches; hide And;
    var x := b + Pow(2, c - 1);
    AlignedHalf(b, c);
    PowStep2(c - 2);
    SkipBefore(b, c);
    OddStep(x + 1, t);
    OneStep(x + 1, t);
    if InvertLowestOne(b) + 1 >= t {
      return InvertLowestOne(b) + 1, 1;
    }
    OneStep(x, t);
    ReachesOn(x + 1, t, x, 1, b, 1);
    return b, 2;
  }

  /** Within an aligned block at most two steps per bit lead to its beginning or past it. */
  lemma {:induction false} Descend(b: nat, c: nat, x: nat, t: nat) returns (y: nat, n: nat)
    requires c >= 1 && Aligned(b, c) && t < b <= x < b + Pow(2, c)
    ensures Reaches(x, t, y, n) && n <= 2 * (c - 1) && y >= t && Landing(b, y)
    decreases c
  {
    hide Aligned; hide InvertLowestOne;
    if c == 1 {
      SmallPowers();
      return x, 0;
    }
    hide Reaches;
    AlignedHalf(b, c);
    PowStep2(c - 1);
    var h := b + Pow(2, c - 1);
    if x < h {
      y, n := Descend(b, c - 1, x, t);
    } else {
      y, n := Descend(h, c - 1, x, t);
      if y == h {
        var z, k := FromHalf(b, c, t);
        ReachesOn(x, t, y, n, z, k);
        y, n := z, n + k;
      } else if y == h + 1 {
        var z, k := FromHalfPlus(b, c, t);
        ReachesOn(x, t, y, n, z, k);
        y, n := z, n + k;
      }
    }
  }

  // ----- The whole walk -----

  /** From the beginning of the upper half of a block, or one above, into the lower half. */
  lemma FromTop(a: nat, b: nat, y: nat, t: nat, q: nat)
    requires b >= 2 && Aligned(a, b) && a <= t < a + Pow(2, b - 1)
    requires y == a + Pow(2, b - 1) || y == a + Pow(2, b - 1) + 1
    requires forall z: nat :: t < z < a + Pow(2, b - 1) ==> Steps(z, t) <= q
    ensures Steps(y, t) <= 2 + q
  {
    hide Aligned; hide And; hide Steps; hide Pow; hide NextHeight; hide InvertLowestOne;
    AlignedHalf(a, b);
    PowStep2(b - 2);
    var h := a + Pow(2, b - 1);
    TopStep(a, h, t);
    StepsNext(h, t);
    NoStep(NextHeight(h, t), t);
    if y == h + 1 {
      OddStep(y, t);
      StepsNext(y, t);
      NoStep(NextHeight(y, t), t);
    }
  }

  lemma TopStep(a: nat, h: nat, t: nat)
    requires h % 2 == 0 && InvertLowestOne(h) == a <= t < h
    ensures NextHeight(h, t) == if t == a then a else h - 1
  {
  }

  lemma StepsNext(x: nat, t: nat)
    requires t < x
    ensures Steps(x, t) == 1 + Steps(NextHeight(x, t), t)
  {
  }

  /** Between two heights of an aligned block of 2^b there are at most b * (b - 1) + 1 steps. */
  lemma {:induction false} BlockSteps(a: nat, b: nat, x: nat, t: nat)
    requires b >= 1 && Aligned(a, b) && a <= t < x < a + Pow(2, b)
    ensures Steps(x, t) <= WalkLimit(b)
    decreases b
  {
    hide Aligned; hide InvertLowestOne; hide Steps; hide WalkLimit;
    AlignedHalf(a, b);
    PowStep2(b - 1);
    if b == 1 {
      SmallPowers();
      LastStep(t);
      FirstLimit();
    } else {
      var h := a + Pow(2, b - 1);
      var q := WalkLimit(b - 1);
      LimitStep(b);
      forall z: nat | t < z < h ensures Steps(z, t) <= q {
        BlockSteps(a, b - 1, z, t);
      }
      if t >= h {
        BlockSteps(h, b - 1, x, t);
      } else if x >= h {
        var y, n := Descend(h, b - 1, x, t);
        StepsSplit(x, t, y, n);
        if y == h || y == h + 1 {
          FromTop(a, b, y, t, q);
        } else {
          NoStep(y, t);
        }
      }
    }
  }

  lemma LimitStep(b: nat)
    requires b >= 2
    ensures WalkLimit(b) == 2 * (b - 2) + 2 + WalkLimit(b - 1)
  {
  }

  lemma FirstLimit()
    ensures WalkLimit(1) == 1
  {
  }

  lemma NoStep(y: nat, t: nat)
    ensures y <= t ==> Steps(y, t) == 0
  {
  }

  lemma LastStep(t: nat)
    ensures Steps(t + 1, t) == 1
  {
  }

  /** So a walk back from a height below 2^b visits at most b * (b - 1) + 1 further blocks. */
  lemma WalkBound(b: nat, x: nat, t: nat)
    requires b >= 1 && t <= x < Pow(2, b)
    ensures Steps(x, t) <= WalkLimit(b)
  {
    hide Steps;
    AlignedOf(0, b, 0);
    NoStep(x, t);
    if t < x {
      BlockSteps(0, b, x, t);
    }
  }

  // ----- And some walks are that long -----

  lemma OnesCleared(j: nat, m: nat)
    requires m < j
    ensures Pow(2, j) >= Pow(2, m + 1) && InvertLowestOne(Pow(2, j) - Pow(2, m)) == Pow(2, j) - Pow(2, m + 1)
  {
    hide InvertLowestOne; hide Pow;
    var q, p := Pow(2, j - m - 1), Pow(2, m + 1);
    PowPositive(2, j - m - 1);
    PowAdd(2, j - m - 1, m + 1);
    PowMono(2, m + 1, j);
    PowStep2(m);
    Distribute(q, 1, p);
    LowestOneCleared(q - 1, m);
  }

  /** From a height of all ones, each odd skip clears only two of them. */
  lemma {:induction false} OddRun(j: nat, i: nat)
    requires 2 * i + 1 < j
    ensures Pow(2, j) >= 1 && Pow(2, j) >= Pow(2, 2 * i + 1)
    ensures Reaches(Pow(2, j) - 1, 2, Pow(2, j) - Pow(2, 2 * i + 1) + 1, i)
    decreases i
  {
    hide InvertLowestOne; hide Pow; hide Reaches; hide GetSkipHeight;
    SmallPowers();
    PowPositive(2, j);
    PowMono(2, 2 * i + 1, j);
    if i == 0 {
      StandStill(Pow(2, j) - 1, 2);
    } else {
      var k := 2 * i - 1;
      OddRun(j, i - 1);
      OnesCleared(j, k);
      OnesCleared(j, k + 1);
      var x := Pow(2, j) - Pow(2, k) + 1;
      var y := Pow(2, j) - Pow(2, k + 2) + 1;
      HalfOrMore(j, k);
      HalfOrMore(j, k + 2);
      assert x % 2 == 1 by { EvenPower(j); EvenPower(k); }
      SkipOfOdd(x);
      OddStep(x, 2);
      OneStep(x, 2);
      ReachesOn(Pow(2, j) - 1, 2, x, i - 1, y, 1);
    }
  }

  lemma StandStill(x: nat, t: nat)
    ensures Reaches(x, t, x, 0)
  {
  }

  lemma EvenPower(e: nat)
    requires e >= 1
    ensures Pow(2, e) % 2 == 0
  {
    hide Pow;
    var half := Pow(2, e - 1);
    PowStep(2, e - 1);
    QuotientUnique(Pow(2, e), 2, half, 0);
  }

  lemma HalfOrMore(j: nat, k: nat)
    requires k < j && j >= 2
    ensures Pow(2, j) - Pow(2, k) >= 2
  {
    SmallPowers();
    PowMono(2, k, j - 1);
    PowMono(2, 1, j - 1);
    PowStep2(j - 1);
  }

  /** What is left of the upper half is passed at its very beginning. */
  lemma UpperEnd(j: nat, x: nat)
    requires j >= 5 && (x == Pow(2, j - 1) + 1 || x == Pow(2, j - 1) + Pow(2, j - 2) + 1)
    ensures Pow(2, j - 1) >= 1 && Steps(x, 2) >= 2 + Steps(Pow(2, j - 1) - 1, 2)
  {
    hide InvertLowestOne; hide Pow; hide Steps; hide NextHeight; hide Aligned;
    SmallPowers();
    var h := Pow(2, j - 1);
    PowMono(2, 4, j - 1);
    PowStep2(3);
    EvenPower(j - 1);
    EvenPower(j - 2);
    PowerCleared(j - 1);
    TopStep(0, h, 2);
    StepsNext(h, 2);
    StepsNext(x, 2);
    SkipOfOdd(x);
    OddStep(x, 2);
    if x == h + 1 {
      ZeroCleared();
    } else {
      AlignedOf(1, j - 1, h);
      AlignedHalf(h, j - 1);
      SkipBefore(h, j - 1);
      StepsNext(x - 1, 2);
      EvenSkip(x - 1, h, 2);
    }
  }

  lemma PowerCleared(e: nat)
    ensures InvertLowestOne(Pow(2, e)) == 0
  {
    LowestOneCleared(0, e);
  }

  lemma ZeroCleared()
    ensures InvertLowestOne(0) == 0
  {
  }

  lemma EvenSkip(x: nat, s: nat, t: nat)
    requires x >= 2 && x % 2 == 0 && InvertLowestOne(x) == s > t && GetSkipHeight(x - 1) >= s - 2
    ensures NextHeight(x, t) == s
  {
  }

  /** The walk from 2^j - 1 back to height 2 takes about a quarter of the square of the bits. */
  lemma {:induction false} WalkLong(j: nat)
    requires j >= 4
    ensures Pow(2, j) >= 1 && 4 * Steps(Pow(2, j) - 1, 2) >= j * j + 3 * j - 28
    decreases j
  {
    hide Steps; hide Pow; hide Reaches;
    PowPositive(2, j);
    if j > 4 {
      WalkLong(j - 1);
      var i := (j - 2) / 2;
      OddRun(j, i);
      var x := Pow(2, j) - Pow(2, 2 * i + 1) + 1;
      StepsSplit(Pow(2, j) - 1, 2, x, i);
      PowStep2(j - 1);
      PowStep2(j - 2);
      UpperEnd(j, x);
      assert (j - 1) * (j - 1) + 3 * (j - 1) - 28 + 2 * (j + 1) == j * j + 3 * j - 28;
    }
  }
}
