/** Powers, and division by them. */
module Powers {

  function Pow(b: nat, e: nat): nat {
    if e == 0 then 1 else b * Pow(b, e - 1)
  }

  lemma PowBase(b: nat)
    ensures Pow(b, 0) == 1
  {
  }

  lemma PowStep(b: nat, e: nat)
    ensures Pow(b, e + 1) == b * Pow(b, e)
  {
  }

  lemma {:induction false} PowPositive(b: nat, e: nat)
    requires b > 0
    ensures Pow(b, e) > 0
  {
    if e > 0 {
      PowPositive(b, e - 1);
    }
  }

  lemma {:induction false} PowAdd(b: nat, x: nat, y: nat)
    ensures Pow(b, x + y) == Pow(b, x) * Pow(b, y)
  {
    if x > 0 {
      PowAdd(b, x - 1, y);
      MulAssoc(b, Pow(b, x - 1), Pow(b, y));
    }
  }

  lemma {:induction false} PowPow(b: nat, x: nat, y: nat)
    ensures Pow(Pow(b, x), y) == Pow(b, x * y)
  {
    if y > 0 {
      PowPow(b, x, y - 1);
      PowAdd(b, x, x * (y - 1));
      assert x * y == x + x * (y - 1);
    }
  }

  lemma {:induction false} PowMono(b: nat, x: nat, y: nat)
    requires b > 0 && x <= y
    ensures Pow(b, x) <= Pow(b, y)
  {
    if x < y {
      PowMono(b, x, y - 1);
      PowPositive(b, y - 1);
      MulMono(1, b, Pow(b, y - 1));
    }
  }

  lemma {:induction false} PowStrict(b: nat, x: nat, y: nat)
    requires b > 1 && x < y
    ensures Pow(b, x) < Pow(b, y)
  {
    PowMono(b, x + 1, y);
    PowPositive(b, x);
    MulMono(2, b, Pow(b, x));
  }

  // ----- Products -----

  lemma MulAssoc(a: int, b: int, c: int)
    ensures a * b * c == a * (b * c)
  {
  }

  lemma MulMono(a: int, b: int, c: int)
    requires a <= b && 0 <= c
    ensures a * c <= b * c
  {
  }

  lemma MulStrict(a: int, b: int, c: int)
    requires a * c < b * c && 0 < c
    ensures a < b
  {
    if b <= a {
      MulMono(b, a, c);
    }
  }

  lemma Distribute(a: int, b: int, c: int)
    ensures (a + b) * c == a * c + b * c && (a - b) * c == a * c - b * c
  {
  }

  lemma Doubled(m: int, p: int)
    ensures m * (2 * p) == 2 * (m * p)
  {
  }

  // ----- Quotients -----

  lemma BelowQuotient(x: nat, d: nat, q: nat)
    requires 0 < d && x < q * d
    ensures x / d < q
  {
    MulStrict(x / d, q, d);
  }

  lemma QuotientUnique(n: int, d: int, q: int, r: int)
    requires 0 <= r < d && n == q * d + r
    ensures n / d == q && n % d == r
  {
    var p := n / d;
    assert n == p * d + n % d;
    Distribute(p, q, d);
    if p > q {
      MulMono(1, p - q, d);
    } else if p < q {
      MulMono(1, q - p, d);
      Distribute(q, p, d);
    }
  }

  /** Multiples of the modulus do not matter. */
  lemma ModMultiple(n: int, k: int, d: int)
    requires 0 < d
    ensures (n + k * d) % d == n % d
  {
    Distribute(n / d, k, d);
    assert n == n / d * d + n % d;
    QuotientUnique(n + k * d, d, n / d + k, n % d);
  }

  lemma DivDiv(n: nat, a: nat, b: nat)
    requires 0 < a && 0 < b
    ensures 0 < a * b && n / (a * b) == n / a / b
  {
    MulMono(1, b, a);
    var q, r := n / a, n % a;
    var p, t := q / b, q % b;
    assert n == q * a + r && q == p * b + t;
    assert n == p * (a * b) + (t * a + r) by {
      Distribute(p * b, t, a);
      MulAssoc(p, b, a);
    }
    MulMono(t, b - 1, a);
    Distribute(b, 1, a);
    QuotientUnique(n, a * b, p, t * a + r);
  }

  lemma DivMono(m: nat, n: nat, d: nat)
    requires m <= n && 0 < d
    ensures m / d <= n / d
  {
    var p, q := m / d, n / d;
    if p > q {
      MulMono(q + 1, p, d);
      Distribute(q, 1, d);
    }
  }

  /** Cancelling a common factor. */
  lemma DivCancel(n: nat, d: nat, c: nat)
    requires 0 < d && 0 < c
    ensures 0 < d * c && n * c / (d * c) == n / d
  {
    MulMono(1, d, c);
    var q, r := n / d, n % d;
    assert n == q * d + r;
    Distribute(q * d, r, c);
    MulAssoc(q, d, c);
    MulMono(r, d - 1, c);
    Distribute(d, 1, c);
    QuotientUnique(n * c, d * c, q, r * c);
  }
}
