/** One step of each limb loop, on values. */
module LimbSteps {
  import opened Powers
  import opened Limbs
  import opened LimbShifts

  const TWO64 := 0x1_0000_0000_0000_0000

  /** Addition: the limbs done, the carry, and the limbs of both numbers seen. */
  lemma AddStep(r: seq<nat>, a: seq<nat>, b: seq<nat>, carry: nat, x: nat, y: nat)
    requires |r| == |a| == |b| && Value(r) + carry * Pow(BASE, |r|) == Value(a) + Value(b)
    ensures var n := carry + x + y;
            Value(r + [n % BASE]) + n / BASE * Pow(BASE, |r| + 1) == Value(a + [x]) + Value(b + [y])
  {
    hide Value; hide Pow;
    ValueAppend(r, (carry + x + y) % BASE);
    ValueAppend(a, x);
    ValueAppend(b, y);
    PowStep(BASE, |r|);
    AddDigit(carry, x, y, Pow(BASE, |r|));
  }

  lemma AddDigit(carry: nat, x: nat, y: nat, p: nat)
    ensures var n := carry + x + y; n % BASE * p + n / BASE * (BASE * p) == carry * p + x * p + y * p
  {
    Digit(carry + x + y, p);
    Distribute(carry + x, y, p);
    Distribute(carry, x, p);
  }

  lemma ScaleStep(r: seq<nat>, a: seq<nat>, f: nat, carry: nat, x: nat)
    requires |r| == |a| && Value(r) + carry * Pow(BASE, |r|) == f * Value(a)
    ensures var n := carry + f * x;
            Value(r + [n % BASE]) + n / BASE * Pow(BASE, |r| + 1) == f * Value(a + [x])
  {
    hide Value; hide Pow;
    ValueAppend(r, (carry + f * x) % BASE);
    ValueAppend(a, x);
    PowStep(BASE, |r|);
    ScaleDigit(f, carry, x, Value(a), Pow(BASE, |r|));
  }

  lemma ScaleDigit(f: nat, carry: nat, x: nat, v: nat, p: nat)
    ensures var n := carry + f * x; n % BASE * p + n / BASE * (BASE * p) == carry * p + f * (v + x * p) - f * v
  {
    Digit(carry + f * x, p);
    Distribute(carry, f * x, p);
    MulAssoc(f, x, p);
  }

  /** Neither a carry nor a product of limbs leaves 64 bits. */
  lemma NoOverflow(carry: nat, y: nat, f: nat, x: nat)
    requires carry < BASE && y < BASE && f < BASE && x < BASE
    ensures f * x >= 0 && carry + y + f * x < TWO64 && (carry + y + f * x) / BASE < BASE
  {
    MulMono(f, BASE - 1, x);
    var n := carry + y + f * x;
    assert f * x <= (BASE - 1) * (BASE - 1);
  }

  /** Row `j` of the multiplication, limb by limb. */
  lemma RowStep(r: seq<nat>, before: seq<nat>, b: seq<nat>, j: nat, f: nat, carry: nat, y: nat, x: nat)
    requires |r| == |before| == |b| + j
    requires Value(r) + carry * Pow(BASE, |r|) == Value(before) + f * Value(b) * Pow(BASE, j)
    ensures var n := carry + y + f * x;
            Value(r + [n % BASE]) + n / BASE * Pow(BASE, |r| + 1) == Value(before + [y]) + f * Value(b + [x]) * Pow(BASE, j)
  {
    hide Value; hide Pow;
    var n, p, q := carry + y + f * x, Pow(BASE, |r|), Pow(BASE, j);
    ValueAppend(r, n % BASE);
    ValueAppend(before, y);
    ValueAppend(b, x);
    PowStep(BASE, |r|);
    Digit(n, p);
    Distribute(carry + y, f * x, p);
    Distribute(carry, y, p);
    PowAdd(BASE, |b|, j);
    ScaledSum(f, Value(b), x, Pow(BASE, |b|), q);
  }

  lemma ScaledSum(f: nat, v: nat, x: nat, p: nat, q: nat)
    ensures f * (v + x * p) * q == f * v * q + f * x * (p * q)
  {
    Distribute(v, x * p, f);
    assert f * (v + x * p) == f * v + f * (x * p);
    Distribute(f * v, f * (x * p), q);
    MulAssoc(f, x, p);
    MulAssoc(f * x, p, q);
  }

  /** A whole row: what is cut off is a multiple of the modulus. */
  lemma RowDone(v: nat, carry: nat, before: nat, a: seq<nat>, b: seq<nat>, n: nat, j: nat, f: nat, lost: nat) returns (more: nat)
    requires |b| == n && j < n && |a| == j
    requires before + lost * Pow(BASE, n) == Value(a) * Value(b)
    requires v + carry * Pow(BASE, n) == before + f * Value(b[..n - j]) * Pow(BASE, j)
    ensures v + more * Pow(BASE, n) == Value(a + [f]) * Value(b)
  {
    hide Value; hide Pow;
    var m, q := Pow(BASE, n), Pow(BASE, j);
    var cut := Value(b[n - j..]);
    ValueSplit(b, n - j);
    PowAdd(BASE, n - j, j);
    ValueAppend(a, f);
    Distribute(Value(a), f * q, Value(b));
    RowProduct(f, q, Value(b[..n - j]), cut, Pow(BASE, n - j), Value(b));
    Distribute(carry, lost, m);
    Distribute(carry + lost, f * cut, m);
    more := carry + lost + f * cut;
  }

  lemma RowProduct(f: nat, q: nat, low: nat, cut: nat, p: nat, v: nat)
    requires v == low + cut * p
    ensures f * q * v == f * low * q + f * cut * (p * q)
  {
    ScaledSum(f, low, cut, p, q);
    Swap(f, q, v);
  }

  // ----- Combining the parts of a shifted limb -----

  lemma JoinLeft(x: nat, y: nat, s: nat)
    requires x < BASE && y < BASE && s < 32
    ensures Pow(2, 32 - s) > 0
    ensures Or(x / Pow(2, 32 - s), y * Pow(2, s) % BASE) == x / Pow(2, 32 - s) + y * Pow(2, s) % BASE < BASE
    ensures s == 0 ==> x / Pow(2, 32 - s) == 0
    ensures Or(0, x / Pow(2, 32 - s)) == x / Pow(2, 32 - s) < BASE
  {
    hide Pow; hide Or;
    PowerOfLimb(s);
    PowerOfLimb(32 - s);
    var p, h := Pow(2, s), Pow(2, 32 - s);
    var hi := x / h;
    assert hi < p by { BelowQuotient(x, h, p); }
    assert y * p % BASE == y % h * p by { KeptBits(y, s); }
    Multiple(y * p % BASE, p, y % h);
    OrDisjoint(hi, y * p % BASE, s);
    OrZero(hi);
    MulMono(y % h, h - 1, p);
    Distribute(h, 1, p);
    if s == 0 {
      PowBase(2);
    }
  }

  lemma KeptBits(y: nat, s: nat)
    requires s < 32
    ensures Pow(2, 32 - s) > 0 && y * Pow(2, s) % BASE == y % Pow(2, 32 - s) * Pow(2, s)
  {
    hide Pow;
    PowPositive(2, 32 - s);
    if s == 0 {
      PowBase(2);
      BaseIsPower();
    } else {
      ReceivedBits(y, 32 - s);
    }
  }

  lemma JoinRight(x: nat, y: nat, s: nat)
    requires x < BASE && y < BASE && s < 32
    ensures Pow(2, s) > 0
    ensures Or(x / Pow(2, s), y * Pow(2, 32 - s) % BASE) == x / Pow(2, s) + y * Pow(2, 32 - s) % BASE < BASE
    ensures s == 0 ==> y * Pow(2, 32 - s) % BASE == 0
    ensures Or(0, x / Pow(2, s)) == x / Pow(2, s) < BASE
  {
    hide Pow; hide Or;
    PowerOfLimb(s);
    PowPositive(2, 32 - s);
    var p, h := Pow(2, s), Pow(2, 32 - s);
    var lo := x / p;
    assert lo < h by { BelowQuotient(x, p, h); }
    ReceivedBits(y, s);
    Multiple(y * h % BASE, h, y % p);
    OrDisjoint(lo, y * h % BASE, 32 - s);
    OrZero(lo);
    MulMono(y % p, p - 1, h);
    Distribute(p, 1, h);
    PowMono(2, 32 - s, 32);
    BaseIsPower();
    if s == 0 {
      PowBase(2);
    }
  }

  lemma Multiple(n: nat, d: nat, q: nat)
    requires 0 < d && n == q * d
    ensures n % d == 0
  {
    QuotientUnique(n, d, q, 0);
  }
}
