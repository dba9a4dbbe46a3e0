/** SetCompact and GetCompact on 256-bit numbers. */
module Compact {
  import opened Powers
  import Limbs
  import opened LimbSteps
  import opened ArithUint
  import opened CompactModel

  method SetCompact(a: BaseUint, nCompact: nat) returns (negative: bool, overflow: bool)
    requires a.Valid() && a.pn.Length == 8 && nCompact < WORD
    modifies a.pn
    ensures a.Valid() && a.Num() == Expand(nCompact) % Bytes(32)
    ensures overflow <==> Expand(nCompact) >= Bytes(32)
    ensures negative <==> HasSign(nCompact) && Expand(nCompact) != 0
  {
    hide Pow; hide Bytes; hide Limbs.Value; hide Limbs.AreLimbs;
    var nSize := nCompact / EXPONENT;
    var nWord: nat := nCompact % SIGN;
    OverflowExact(nCompact);
    ByteRange();
    if nSize <= 3 {
      BytePower(3 - nSize);
      nWord := nWord / Pow(2, 8 * (3 - nSize));
      QuotientDown(Mantissa(nCompact), Bytes(3 - nSize));
      a.Assign(nWord);
      SmallRest(nWord);
    } else {
      BytePower(nSize - 3);
      a.Assign(nWord);
      a.ShiftLeft(8 * (nSize - 3));
      Nonzero(nWord, Bytes(nSize - 3));
    }
    negative := nWord != 0 && nCompact / SIGN % 2 == 1;
    overflow := nWord != 0 && (nSize > 34 || (nWord > 0xff && nSize > 33) || (nWord > 0xffff && nSize > 32));
  }

  method GetCompact(a: BaseUint, fNegative: bool) returns (nCompact: nat)
    requires a.Valid() && a.pn.Length == 8
    ensures nCompact == ToCompact(a.Num(), fNegative) < WORD
  {
    hide Pow; hide Bytes; hide Limbs.Value; hide Limbs.AreLimbs; hide Scaled; hide Limbs.Or; hide Limbs.Modulus; hide ByteSize;
    ghost var v := a.Num();
    var bits := a.Bits();
    var nSize := (bits + 7) / 8;
    SizeFromBits(v, bits);
    assert v < Bytes(32) by { InRange(a.pn[..]); ByteRange(); }
    CompactFits(v, fNegative);
    MantissaSize(v, nSize);
    SizeLimit(v);
    nCompact := GetMantissa(a, nSize);
    if nCompact / SIGN % 2 == 1 {
      nCompact := nCompact / 256;
      nSize := nSize + 1;
    }
    assert nCompact < SIGN;
    assert nSize < 256;
    JoinSize(nCompact, nSize);
    ghost var m := nCompact;
    nCompact := Limbs.Or(nCompact, nSize * EXPONENT);
    if fNegative && nCompact % SIGN != 0 {
      JoinSign(m, nSize);
      nCompact := Limbs.Or(nCompact, SIGN);
    }
  }

  /** The three highest bytes. */
  method GetMantissa(a: BaseUint, nSize: nat) returns (nCompact: nat)
    requires a.Valid() && nSize == ByteSize(a.Num())
    ensures nCompact == Scaled(a.Num(), nSize)
  {
    hide Pow; hide Bytes; hide Limbs.Value; hide Limbs.AreLimbs; hide Scaled; hide Limbs.Or; hide ByteSize;
    if nSize <= 3 {
      BytePower(3 - nSize);
      var low := a.GetLow64();
      ShortMantissa(a.Num(), nSize);
      nCompact := low * Pow(2, 8 * (3 - nSize)) % WORD;
    } else {
      BytePower(nSize - 3);
      var bn := new BaseUint.Copy(a);
      bn.ShiftRight(8 * (nSize - 3));
      var low := bn.GetLow64();
      LongMantissa(a.Num(), nSize);
      nCompact := low % WORD;
    }
  }

  // ----- Powers of two and of 256 -----

  lemma BytePower(k: nat)
    ensures Pow(2, 8 * k) == Bytes(k)
  {
    assert Pow(2, 8) == 256;
    PowPow(2, 8, k);
  }

  lemma ByteRange()
    ensures Limbs.Modulus(8) == Bytes(32)
  {
    hide Pow;
    Limbs.BaseIsPower();
    PowPow(2, 32, 8);
    BytePower(32);
  }

  lemma SmallRest(w: nat)
    requires w < SIGN
    ensures w % Bytes(32) == w
  {
    hide Pow;
    BytesGrow(3, 32);
    BytesOf3();
    QuotientUnique(w, Bytes(32), 0, w);
  }

  lemma Nonzero(w: nat, p: nat)
    requires p > 0
    ensures w * p == 0 <==> w == 0
  {
    if w > 0 { MulMono(1, w, p); }
  }

  lemma SizeFromBits(v: nat, bits: nat)
    requires v < Pow(2, bits) && (bits > 0 ==> Pow(2, bits - 1) <= v)
    ensures (bits + 7) / 8 == ByteSize(v)
  {
    hide Pow; hide ByteSize;
    ZeroBits(v, bits);
    var n := (bits + 7) / 8;
    BytePower(n);
    if v == 0 {
      NoSize();
    } else {
      BytePower(n - 1);
      PowMono(2, bits, 8 * n);
      PowMono(2, 8 * (n - 1), bits - 1);
      ByteSizeBelow(v, n);
      ByteSizeBounds(v);
      if ByteSize(v) < n {
        BytesGrow(ByteSize(v), n - 1);
      }
    }
  }

  lemma SizeLimit(v: nat)
    requires v < Bytes(32)
    ensures ByteSize(v) <= 32
  {
    ByteSizeBelow(v, 32);
  }

  lemma NoSize()
    ensures ByteSize(0) == 0
  {
  }

  lemma MantissaSize(v: nat, n: nat)
    requires n == ByteSize(v)
    ensures Scaled(v, n) < EXPONENT && (v == 0 ==> Scaled(v, n) == 0)
    ensures Scaled(v, n) / SIGN % 2 == 1 <==> Scaled(v, n) >= SIGN
  {
    hide Scaled;
    if v == 0 {
      ZeroScaled();
    } else {
      ThreeBytes(v);
    }
  }

  lemma ShortMantissa(v: nat, n: nat)
    requires n == ByteSize(v) && n <= 3
    ensures v % TWO64 * Bytes(3 - n) % WORD == Scaled(v, n)
  {
    hide ByteSize;
    MantissaSize(v, n);
    if v > 0 {
      ByteSizeBounds(v);
      BytesGrow(n, 3);
      BytesOf3();
    }
  }

  lemma LongMantissa(v: nat, n: nat)
    requires n == ByteSize(v) && n > 3
    ensures v / Bytes(n - 3) % TWO64 % WORD == Scaled(v, n)
  {
    hide ByteSize;
    MantissaSize(v, n);
  }

  // ----- Joining the fields -----

  lemma JoinSize(m: nat, size: nat)
    requires m < EXPONENT
    ensures Limbs.Or(m, size * EXPONENT) == m + size * EXPONENT
  {
    hide Limbs.Or;
    assert Pow(2, 24) == EXPONENT by {
      assert Pow(2, 8) == 0x100;
      PowAdd(2, 8, 8);
      PowAdd(2, 8, 16);
    }
    QuotientUnique(size * EXPONENT, EXPONENT, size, 0);
    Limbs.OrDisjoint(m, size * EXPONENT, 24);
  }

  lemma JoinSign(m: nat, size: nat)
    requires m < SIGN
    ensures Limbs.Or(m + size * EXPONENT, SIGN) == m + SIGN + size * EXPONENT
  {
    assert Pow(2, 23) == SIGN by {
      assert Pow(2, 8) == 0x100 && Pow(2, 7) == 0x80;
      PowAdd(2, 8, 8);
      PowAdd(2, 7, 16);
    }
    FreeMiddle(m, size, 23);
  }

  lemma OrStep(a: nat, b: nat)
    ensures Limbs.Or(a, b) == 2 * Limbs.Or(a / 2, b / 2) + (if a % 2 == 1 || b % 2 == 1 then 1 else 0)
  {
  }

  /** Setting a clear bit between lower and higher ones. */
  lemma {:induction false} FreeMiddle(m: nat, h: nat, s: nat)
    requires m < Pow(2, s)
    ensures h * (2 * Pow(2, s)) >= 0
    ensures Limbs.Or(m + h * (2 * Pow(2, s)), Pow(2, s)) == m + Pow(2, s) + h * (2 * Pow(2, s))
    decreases s
  {
    hide Limbs.Or;
    if s == 0 {
      assert Pow(2, 0) == 1 && m == 0;
      OrStep(2 * h, 1);
      Limbs.OrSymmetric(h, 0);
      Limbs.OrZero(h);
    } else {
      var p := Pow(2, s - 1);
      assert Pow(2, s) == 2 * p;
      FreeMiddle(m / 2, h, s - 1);
      var k := h * (2 * p);
      assert h * (2 * Pow(2, s)) == 2 * k by { Doubled(h, 2 * p); }
      OrStep(m + 2 * k, 2 * p);
      assert (m + 2 * k) / 2 == m / 2 + k && (m + 2 * k) % 2 == m % 2;
      assert 2 * p / 2 == p && 2 * p % 2 == 0;
    }
  }

}
