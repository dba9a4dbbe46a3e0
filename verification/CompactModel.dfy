/**
 The compact form of a number: eight bits of exponent to the base 256, a sign bit, and a mantissa of
 23 bits.
 */
module CompactModel {
  import opened Powers

  const SIGN := 0x80_0000
  const EXPONENT := 0x100_0000
  const WORD := 0x1_0000_0000

  function Exponent(c: nat): nat { c / EXPONENT }
  function Mantissa(c: nat): nat { c % SIGN }
  predicate HasSign(c: nat) { c / SIGN % 2 == 1 }

  /** Powers of 256. */
  function Bytes(n: nat): (p: nat)
    ensures p > 0
  {
    PowPositive(256, n);
    Pow(256, n)
  }

  /** mantissa * 256^(exponent - 3), rounded down. */
  function Expand(c: nat): nat {
    if Exponent(c) <= 3 then Mantissa(c) / Bytes(3 - Exponent(c)) else Mantissa(c) * Bytes(Exponent(c) - 3)
  }

  function ByteSize(v: nat): nat {
    if v == 0 then 0 else 1 + ByteSize(v / 256)
  }

  /** `v` in units of 256^(n - 3), rounded down. */
  function Scaled(v: nat, n: nat): nat {
    if n <= 3 then v * Bytes(3 - n) else v / Bytes(n - 3)
  }

  function ToCompact(v: nat, negative: bool): nat {
    var n := ByteSize(v);
    var m := Scaled(v, n);
    var (mantissa, size) := if m >= SIGN then (m / 256, n + 1) else (m, n);
    mantissa + size * EXPONENT + (if negative && mantissa != 0 then SIGN else 0)
  }

  /** The parts of a normal form: no shorter exponent would do. */
  ghost predicate Normal(v: nat, size: nat, mantissa: nat) {
    if v == 0 then size == 0 && mantissa == 0
    else SIGN / 256 <= mantissa < SIGN && mantissa == Scaled(v, size)
  }

  lemma BytesStep(n: nat)
    ensures Bytes(n + 1) == 256 * Bytes(n)
  {
  }

  lemma {:induction false} ByteSizeBounds(v: nat)
    requires v > 0
    ensures ByteSize(v) > 0 && Bytes(ByteSize(v) - 1) <= v < Bytes(ByteSize(v))
  {
    var n := ByteSize(v);
    if v >= 256 {
      ByteSizeBounds(v / 256);
      BytesStep(n - 1);
      BytesStep(n - 2);
    } else {
      assert ByteSize(v / 256) == 0;
      assert Pow(256, 1) == 256 && Pow(256, 0) == 1;
    }
  }

  /** One more byte of exponent drops the last byte of the mantissa. */
  lemma ScaledStep(v: nat, n: nat)
    ensures Scaled(v, n + 1) == Scaled(v, n) / 256
  {
    hide Pow;
    if n < 3 {
      BytesStep(2 - n);
      var p := Bytes(2 - n);
      assert v * (256 * p) == v * p * 256;
      QuotientUnique(v * Bytes(3 - n), 256, v * p, 0);
    } else {
      BytesStep(n - 3);
      if n == 3 { NoBytes(); }
      DivDiv(v, Bytes(n - 3), 256);
    }
  }

  lemma NoBytes()
    ensures Bytes(0) == 1
  {
  }

  lemma {:induction false} ScaledLater(v: nat, n: nat, k: nat)
    requires n < k
    ensures Scaled(v, k) <= Scaled(v, n) / 256
    decreases k
  {
    hide Scaled;
    ScaledStep(v, k - 1);
    if n < k - 1 {
      ScaledLater(v, n, k - 1);
    }
  }

  lemma ScaledMono(v: nat, w: nat, n: nat)
    requires v <= w
    ensures Scaled(v, n) <= Scaled(w, n)
  {
    if n <= 3 {
      MulMono(v, w, Bytes(3 - n));
    } else {
      DivMono(v, w, Bytes(n - 3));
    }
  }

  /** At its byte size a number has a mantissa of exactly three bytes. */
  lemma ThreeBytes(v: nat)
    requires v > 0
    ensures 0x1_0000 <= Scaled(v, ByteSize(v)) < EXPONENT
  {
    hide Pow; hide Bytes; hide ByteSize;
    var n := ByteSize(v);
    ByteSizeBounds(v);
    if n <= 3 {
      NoBytes();
      BytesStep(0);
      BytesStep(1);
      BytesStep(2);
      assert n == 1 || n == 2 || n == 3;
    } else {
      var p := Bytes(n - 3);
      BytesStep(n - 3);
      BytesStep(n - 2);
      BytesStep(n - 1);
      Between(v, p);
    }
  }

  lemma Between(v: nat, p: nat)
    requires p > 0 && 0x1_0000 * p <= v < EXPONENT * p
    ensures 0x1_0000 <= v / p < EXPONENT
  {
    DivMono(0x1_0000 * p, v, p);
    QuotientUnique(0x1_0000 * p, p, 0x1_0000, 0);
    MulStrict(v / p, EXPONENT, p);
  }

  /** ToCompact yields the normal form, and both assertions of GetCompact hold on the way. */
  lemma ToCompactNormal(v: nat, negative: bool)
    ensures var c := ToCompact(v, negative);
            && Normal(v, Exponent(c), Mantissa(c))
            && HasSign(c) == (negative && v != 0)
            && (Exponent(c) == ByteSize(v) || Exponent(c) == ByteSize(v) + 1)
            && c == Exponent(c) * EXPONENT + (if HasSign(c) then SIGN else 0) + Mantissa(c)
  {
    hide Scaled; hide ByteSize;
    if v == 0 {
      ZeroScaled();
    } else {
      ThreeBytes(v);
      ScaledStep(v, ByteSize(v));
    }
    var m := Scaled(v, ByteSize(v));
    var (mantissa, size) := if m >= SIGN then (m / 256, ByteSize(v) + 1) else (m, ByteSize(v));
    Fields(mantissa, size, negative && mantissa != 0);
  }

  /** The three fields can be read back. */
  lemma Fields(mantissa: nat, size: nat, sign: bool)
    requires mantissa < SIGN
    ensures var c := mantissa + size * EXPONENT + (if sign then SIGN else 0);
            Mantissa(c) == mantissa && Exponent(c) == size && HasSign(c) == sign
  {
  }

  lemma ZeroScaled()
    ensures Scaled(0, 0) == 0 && ByteSize(0) == 0
  {
  }

  /** A number has only one normal form. */
  lemma NormalUnique(v: nat, n: nat, m: nat, k: nat, l: nat)
    requires Normal(v, n, m) && Normal(v, k, l)
    ensures n == k && m == l
  {
    hide Scaled;
    if v > 0 {
      if n < k { ScaledLater(v, n, k); }
      if k < n { ScaledLater(v, k, n); }
    }
  }

  lemma {:induction false} ByteSizeBelow(v: nat, n: nat)
    requires v < Bytes(n)
    ensures ByteSize(v) <= n
  {
    if v > 0 {
      ByteSizeBounds(v);
      if ByteSize(v) > n {
        PowMono(256, n, ByteSize(v) - 1);
      }
    }
  }

  /** 256-bit numbers need an exponent of at most 33, so their compact form fits 32 bits. */
  lemma CompactFits(v: nat, negative: bool)
    requires v < Bytes(32)
    ensures Exponent(ToCompact(v, negative)) <= 33 && ToCompact(v, negative) < WORD
  {
    hide Scaled; hide ToCompact; hide Bytes;
    ByteSizeBelow(v, 32);
    ToCompactNormal(v, negative);
  }

  // ----- Rounding -----

  /** What the normal form stands for: the number without the bytes that were dropped. */
  lemma NormalValue(v: nat, c: nat)
    requires Normal(v, Exponent(c), Mantissa(c))
    ensures Expand(c) <= v
    ensures Exponent(c) <= 3 ==> Expand(c) == v
    ensures Exponent(c) > 3 ==> Expand(c) == v - v % Bytes(Exponent(c) - 3)
    ensures Normal(Expand(c), Exponent(c), Mantissa(c))
  {
    hide Pow; hide Bytes;
    var n, m := Exponent(c), Mantissa(c);
    if n <= 3 {
      QuotientUnique(v * Bytes(3 - n), Bytes(3 - n), v, 0);
    } else {
      var p := Bytes(n - 3);
      assert v == m * p + v % p;
      QuotientUnique(m * p, p, m, 0);
      MulMono(1, m, p);
    }
  }

  /** Decoding what was encoded rounds down, by less than one part in 2^15; the sign survives. */
  lemma DecodeEncode(v: nat, negative: bool)
    ensures var c := ToCompact(v, negative);
            && Expand(c) <= v && (v - Expand(c)) * 0x8000 <= Expand(c)
            && (v < SIGN ==> Expand(c) == v)
            && HasSign(c) == (negative && v != 0)
            && (Mantissa(c) == 0 <==> v == 0)
  {
    hide Scaled; hide ToCompact; hide Pow; hide Bytes; hide Expand;
    var c := ToCompact(v, negative);
    ToCompactNormal(v, negative);
    NormalValue(v, c);
    if Exponent(c) > 3 {
      RoundingBound(v, c);
    }
  }

  lemma RoundingBound(v: nat, c: nat)
    requires v > 0 && Normal(v, Exponent(c), Mantissa(c)) && Exponent(c) > 3
    ensures Expand(c) <= v && (v - Expand(c)) * 0x8000 <= Expand(c) && v >= SIGN
  {
    hide Pow; hide Bytes;
    var n, m := Exponent(c), Mantissa(c);
    var p := Bytes(n - 3);
    NormalValue(v, c);
    MulMono(0x8000, m, p);
    LongPowers(n - 3);
    assert 0x8000 * p >= SIGN;
  }

  lemma LongPowers(k: nat)
    requires k >= 1
    ensures Bytes(k) >= 256
  {
    PowMono(256, 1, k);
    assert Pow(256, 1) == 256;
  }

  /** Encoding what was decoded from an encoding gives the same encoding. */
  lemma EncodeIdempotent(v: nat, negative: bool)
    ensures ToCompact(Expand(ToCompact(v, negative)), negative) == ToCompact(v, negative)
  {
    hide Scaled; hide ToCompact; hide Pow; hide Bytes; hide Expand;
    var c := ToCompact(v, negative);
    var w := Expand(c);
    ToCompactNormal(v, negative);
    NormalValue(v, c);
    ToCompactNormal(w, negative);
    var d := ToCompact(w, negative);
    NormalUnique(w, Exponent(c), Mantissa(c), Exponent(d), Mantissa(d));
  }

  /** Larger numbers have larger compact forms. */
  lemma CompactMonotone(v: nat, w: nat)
    requires v <= w
    ensures ToCompact(v, false) <= ToCompact(w, false)
  {
    hide Scaled; hide ToCompact;
    var c, d := ToCompact(v, false), ToCompact(w, false);
    ToCompactNormal(v, false);
    ToCompactNormal(w, false);
    if v > 0 {
      ScaledMono(v, w, Exponent(c));
      if Exponent(d) < Exponent(c) {
        ScaledLater(w, Exponent(d), Exponent(c));
      }
    }
  }

  /** No number with a compact form lies strictly between the rounded one and the original. */
  lemma NearestBelow(v: nat, negative: bool, d: nat)
    requires Expand(d) <= v
    ensures Expand(d) <= Expand(ToCompact(v, negative))
  {
    hide Scaled; hide ToCompact; hide Pow; hide Bytes; hide Expand;
    var c := ToCompact(v, negative);
    ToCompactNormal(v, negative);
    NormalValue(v, c);
    if Exponent(c) > 3 {
      if Exponent(d) >= Exponent(c) {
        MultipleBelow(d, Exponent(c), v);
      } else {
        ShorterBelow(d, c, v);
      }
    }
  }

  lemma MultipleBelow(d: nat, n: nat, v: nat)
    requires 3 < n <= Exponent(d) && Expand(d) <= v
    ensures Expand(d) <= v - v % Bytes(n - 3)
  {
    hide Pow; hide Bytes;
    var k := Exponent(d);
    var p, q, m := Bytes(n - 3), Bytes(k - n), Mantissa(d);
    assert Bytes(k - 3) == q * p by { BytesAdd(k - n, n - 3); }
    MulAssoc(m, q, p);
    var t := m * q;
    assert v == v / p * p + v % p;
    if t > v / p {
      MulMono(v / p + 1, t, p);
      Distribute(v / p, 1, p);
    } else {
      MulMono(t, v / p, p);
    }
  }

  lemma BytesAdd(a: nat, b: nat)
    ensures Bytes(a + b) == Bytes(a) * Bytes(b)
  {
    PowAdd(256, a, b);
  }

  lemma ShorterBelow(d: nat, c: nat, v: nat)
    requires v > 0 && Normal(v, Exponent(c), Mantissa(c)) && Exponent(c) > 3 && Exponent(d) < Exponent(c)
    ensures Expand(d) <= Expand(c)
  {
    hide Pow; hide Bytes; hide Scaled;
    var n, k := Exponent(c), Exponent(d);
    MulMono(0x8000, Mantissa(c), Bytes(n - 3));
    if k <= 3 {
      LongPowers(n - 3);
      QuotientDown(Mantissa(d), Bytes(3 - k));
      assert 0x8000 * Bytes(n - 3) >= SIGN;
    } else {
      MulMono(Mantissa(d), SIGN, Bytes(k - 3));
      BytesAdd(n - 1 - k, k - 2);
      BytesStep(k - 3);
      MulMono(1, Bytes(n - 1 - k), Bytes(k - 2));
    }
  }

  lemma QuotientDown(m: nat, d: nat)
    requires 0 < d
    ensures m / d <= m
  {
    MulMono(1, d, m / d);
  }

  // ----- Overflow -----

  /** The flag as SetCompact computes it. */
  predicate OverflowFlag(c: nat) {
    var size := Exponent(c);
    var word := if size <= 3 then Mantissa(c) / Bytes(3 - size) else Mantissa(c);
    word != 0 && (size > 34 || (word > 0xff && size > 33) || (word > 0xffff && size > 32))
  }

  /** It says exactly that the number does not fit 256 bits. */
  lemma OverflowExact(c: nat)
    ensures OverflowFlag(c) <==> Expand(c) >= Bytes(32)
  {
    hide Pow; hide Bytes;
    var size, m := Exponent(c), Mantissa(c);
    if size <= 3 {
      QuotientDown(m, Bytes(3 - size));
      BytesGrow(3, 32);
      BytesOf3();
    } else if size > 34 {
      BytesGrow(32, size - 3);
      if m > 0 { MulMono(1, m, Bytes(size - 3)); }
    } else {
      var p := Bytes(size - 3);
      OverflowEdge(m, size);
    }
  }

  lemma BytesGrow(a: nat, b: nat)
    requires a <= b
    ensures Bytes(a) <= Bytes(b)
  {
    PowMono(256, a, b);
  }

  lemma BytesOf3()
    ensures Bytes(3) == EXPONENT
  {
  }

  lemma OverflowEdge(m: nat, size: nat)
    requires 3 < size <= 34 && m < SIGN
    ensures m * Bytes(size - 3) >= Bytes(32) <==> (m > 0xff && size > 33) || (m > 0xffff && size > 32)
  {
    hide Pow; hide Bytes;
    BytesStep(31);
    BytesStep(30);
    BytesStep(29);
    if size == 34 {
      Threshold(m, Bytes(31), 0x100);
    } else if size == 33 {
      Threshold(m, Bytes(30), 0x1_0000);
    } else {
      BytesGrow(size - 3, 29);
      MulMono(m, SIGN, Bytes(size - 3));
    }
  }

  lemma Threshold(m: nat, p: nat, t: nat)
    requires p > 0
    ensures m * p >= t * p <==> m >= t
  {
    if m >= t {
      MulMono(t, m, p);
    } else {
      MulMono(m + 1, t, p);
      Distribute(m, 1, p);
    }
  }
}
