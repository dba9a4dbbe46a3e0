/** Fixed-width unsigned integers on an array of 32-bit limbs; 256 bits is the width of eight. */
module ArithUint {
  import opened Powers
  import opened Limbs
  import opened LimbShifts
  import opened LimbSteps

  class BaseUint {
    const pn: array<nat>

    ghost predicate Valid()
      reads this, pn
    {
      pn.Length >= 2 && AreLimbs(pn[..])
    }

    ghost function Num(): nat
      reads this, pn
    {
      Value(pn[..])
    }

    /** 2 to the number of bits. */
    ghost function Range(): (m: nat)
      ensures m > 0
    {
      Modulus(pn.Length)
    }

    constructor (width: nat, b: nat)
      requires width >= 2 && b < TWO64
      ensures Valid() && fresh(pn) && pn.Length == width && Num() == b
    {
      pn := new nat[width];
      new;
      Assign(b);
    }

    constructor Copy(b: BaseUint)
      requires b.Valid()
      ensures Valid() && fresh(pn) && pn[..] == b.pn[..]
    {
      pn := new nat[b.pn.Length];
      new;
      for i := 0 to pn.Length
        invariant pn[..i] == b.pn[..i]
      {
        pn[i] := b.pn[i];
      }
      assert pn[..pn.Length] == pn[..] && b.pn[..pn.Length] == b.pn[..];
    }

    method Assign(b: nat)
      requires pn.Length >= 2 && b < TWO64
      modifies pn
      ensures Valid() && Num() == b && pn[0] == b % BASE && pn[1] == b / BASE
    {
      pn[0] := b % BASE;
      pn[1] := b / BASE;
      for i := 2 to pn.Length
        invariant pn[0] == b % BASE && pn[1] == b / BASE && forall j :: 2 <= j < i ==> pn[j] == 0
      {
        pn[i] := 0;
      }
      LowValue(pn[..], b);
    }

    /** Addition modulo the range; `b` may be this number itself. */
    method Add(b: BaseUint)
      requires Valid() && b.Valid() && b.pn.Length == pn.Length
      modifies pn
      ensures Valid() && Num() == (old(Num()) + old(b.Num())) % Range()
    {
      hide Value; hide Pow;
      var carry: nat := 0;
      ghost var x, y := pn[..], b.pn[..];
      assert Value([]) == 0 by { ValueZero([]); }
      for i := 0 to pn.Length
        invariant AreLimbs(pn[..]) && carry <= 1
        invariant pn[i..] == x[i..] && b.pn[i..] == y[i..]
        invariant Value(pn[..i]) + carry * Pow(BASE, i) == Value(x[..i]) + Value(y[..i])
      {
        var n := carry + pn[i] + b.pn[i];
        assert n < TWO64;
        AddStep(pn[..i], x[..i], y[..i], carry, x[i], y[i]);
        assert pn[i] == x[i..][0] && b.pn[i] == y[i..][0];
        ghost var done := pn[..i];
        pn[i] := n % BASE;
        carry := n / BASE;
        assert pn[..i + 1] == done + [n % BASE];
        assert x[..i + 1] == x[..i] + [x[i]] && y[..i + 1] == y[..i] + [y[i]];
        assert forall j :: i + 1 <= j < pn.Length ==> pn[j] == x[i..][j - i] && b.pn[j] == y[i..][j - i];
      }
      assert pn[..pn.Length] == pn[..] && x[..pn.Length] == x && y[..pn.Length] == y;
      ValueBound(pn[..]);
      Truncated(Num(), carry, Value(x) + Value(y), pn.Length);
    }

    /** One more, modulo the range. */
    method Increment()
      requires Valid()
      modifies pn
      ensures Valid() && Num() == (old(Num()) + 1) % Range()
    {
      hide Value; hide Pow; hide Rippling; hide Modulus; hide AreLimbs;
      ghost var x := pn[..];
      RippleStart(x);
      var i := 0;
      pn[0] := (pn[0] + 1) % BASE;
      assert pn[..] == x[0 := pn[0]];
      while pn[i] == 0 && i < pn.Length - 1
        invariant 0 <= i < pn.Length && Rippling(x, pn[..], i)
        decreases pn.Length - i
      {
        RippleNext(x, pn[..], i);
        i := i + 1;
        ghost var y := pn[..];
        pn[i] := (pn[i] + 1) % BASE;
        assert pn[..] == y[i := pn[i]];
      }
      Ripple(x, pn[..], i);
    }

    /** One less, modulo the range: what Increment undoes. */
    method Decrement()
      requires Valid()
      modifies pn
      ensures Valid() && (Num() + 1) % Range() == old(Num())
    {
      hide Value; hide Pow; hide Rippling; hide Modulus; hide AreLimbs;
      ghost var x := pn[..];
      RippleBackStart(x);
      var i := 0;
      pn[0] := (pn[0] + BASE - 1) % BASE;
      assert pn[..] == x[0 := pn[0]];
      while pn[i] == BASE - 1 && i < pn.Length - 1
        invariant 0 <= i < pn.Length && Rippling(pn[..], x, i)
        decreases pn.Length - i
      {
        RippleBack(pn[..], x, i);
        i := i + 1;
        ghost var y := pn[..];
        pn[i] := (pn[i] + BASE - 1) % BASE;
        assert pn[..] == y[i := pn[i]];
      }
      RippleLast(pn[..], x, i);
      Ripple(pn[..], x, i);
    }

    /** Two's complement: the number that adds up to zero with this one. */
    method Negate() returns (ret: BaseUint)
      requires Valid()
      ensures ret.Valid() && fresh(ret) && fresh(ret.pn) && ret.pn.Length == pn.Length
      ensures ret.Num() == (Range() - Num()) % Range()
    {
      hide Value; hide Pow;
      ret := new BaseUint(pn.Length, 0);
      ghost var x := pn[..];
      for i := 0 to pn.Length
        invariant fresh(ret) && fresh(ret.pn) && ret.pn.Length == pn.Length && AreLimbs(ret.pn[..])
        invariant forall j :: 0 <= j < i ==> ret.pn[j] == BASE - 1 - x[j]
      {
        ret.pn[i] := BASE - 1 - pn[i];
      }
      Complement(x, ret.pn[..]);
      ret.Increment();
    }

    method Subtract(b: BaseUint)
      requires Valid() && b.Valid() && b.pn.Length == pn.Length
      modifies pn
      ensures Valid() && Num() == (old(Num()) - old(b.Num())) % Range()
    {
      hide Value; hide Pow; hide AreLimbs; hide Modulus;
      var neg := b.Negate();
      ghost var x, y := Num(), b.Num();
      assert neg.pn != pn;
      Add(neg);
      NegatedSum(x, y, Range());
    }

    /** Multiplication by one limb. */
    method Scale(b32: nat)
      requires Valid() && b32 < BASE
      modifies pn
      ensures Valid() && Num() == old(Num()) * b32 % Range()
    {
      hide Value; hide Pow; hide ScaleDone; hide Modulus;
      var carry: nat := 0;
      ghost var x := pn[..];
      ScaleStart(x, b32);
      for i := 0 to pn.Length
        invariant ScaleDone(pn[..], x, i, b32, carry)
      {
        ScaleNext(pn[..], x, i, b32, carry);
        ghost var s := pn[..];
        var n: nat := carry + b32 * pn[i];
        assert n < TWO64;
        pn[i] := n % BASE;
        carry := n / BASE;
        assert pn[..] == s[i := pn[i]];
      }
      ScaleFinish(pn[..], x, b32, carry);
    }

    /**
     Schoolbook multiplication modulo the range. It clears this number before it reads `b`, so a
     number multiplied by itself ends up zero.
     */
    method Multiply(b: BaseUint)
      requires Valid() && b.Valid() && b.pn.Length == pn.Length
      modifies pn
      ensures Valid()
      ensures Num() == if b.pn == pn then 0 else old(Num()) * old(b.Num()) % Range()
    {
      hide Value; hide Pow; hide RowsDone; hide Modulus; hide RowDoing;
      var a := new BaseUint.Copy(this);
      Assign(0);
      ghost var x, y := a.pn[..], b.pn[..];
      ghost var lost: nat := 0;
      AllZero(pn[..]);
      RowsStart(pn[..], x, y);
      for j := 0 to pn.Length
        invariant a.pn[..] == x && b.pn[..] == y && fresh(a.pn) && a.pn.Length == pn.Length
        invariant b.pn == pn ==> Zeros(pn[..])
        invariant RowsDone(pn[..], x, y, j, lost)
      {
        var carry: nat := 0;
        ghost var before := pn[..];
        RowStart(before, x, y, j, lost);
        var i := 0;
        while i + j < pn.Length
          invariant 0 <= i <= pn.Length - j
          invariant a.pn[..] == x && b.pn[..] == y && fresh(a.pn) && a.pn.Length == pn.Length
          invariant b.pn == pn ==> Zeros(pn[..]) && carry == 0
          invariant RowDoing(pn[..], before, x[j], y, i, j, carry)
        {
          RowNext(pn[..], before, x[j], y, i, j, carry);
          ghost var s := pn[..];
          var n: nat := carry + pn[i + j] + a.pn[j] * b.pn[i];
          assert n < TWO64;
          assert b.pn == pn ==> n == 0 by { if b.pn == pn { ZeroProduct(a.pn[j], b.pn[i]); } }
          pn[i + j] := n % BASE;
          carry := n / BASE;
          assert pn[..] == s[i + j := pn[i + j]];
          assert b.pn == pn ==> pn[..] == y;
          i := i + 1;
        }
        lost := RowFinish(pn[..], before, x, y, j, carry, lost);
      }
      if b.pn == pn {
        ValueZero(pn[..]);
      }
      RowsFinish(pn[..], x, y, lost);
    }

    method ShiftLeft(shift: nat)
      requires Valid()
      modifies pn
      ensures Valid() && Num() == old(Num()) * Pow(2, shift) % Range()
    {
      hide Value; hide Pow; hide Modulus; hide LeftPart; hide Or; hide Shl; hide Shr;
      var a := new BaseUint.Copy(this);
      Assign(0);
      AllZero(pn[..]);
      ghost var x := a.pn[..];
      var k, bits := shift / 32, shift % 32;
      LeftStart(pn[..], x, k, bits);
      for i := 0 to pn.Length
        invariant a.pn[..] == x && fresh(a.pn) && a.pn.Length == pn.Length
        invariant forall j :: 0 <= j < pn.Length ==> pn[j] == LeftPart(x, k, bits, i, j)
      {
        LeftNext(x, k, bits, i);
        if i + k + 1 < pn.Length && bits != 0 {
          pn[i + k + 1] := Or(pn[i + k + 1], Shr(a.pn[i], 32 - bits));
        }
        if i + k < pn.Length {
          pn[i + k] := Or(pn[i + k], Shl(a.pn[i], bits));
        }
      }
      LeftFinish(pn[..], x, k, bits);
    }

    method ShiftRight(shift: nat)
      requires Valid()
      modifies pn
      ensures Valid() && Pow(2, shift) > 0 && Num() == old(Num()) / Pow(2, shift)
    {
      hide Value; hide Pow; hide Modulus; hide RightPart; hide Or; hide Shl; hide Shr;
      var a := new BaseUint.Copy(this);
      Assign(0);
      AllZero(pn[..]);
      ghost var x := a.pn[..];
      var k, bits := shift / 32, shift % 32;
      RightStart(pn[..], x, k, bits);
      for i := 0 to pn.Length
        invariant a.pn[..] == x && fresh(a.pn) && a.pn.Length == pn.Length
        invariant forall j :: 0 <= j < pn.Length ==> pn[j] == RightPart(x, k, bits, i, j)
      {
        RightNext(x, k, bits, i);
        if i - k - 1 >= 0 && bits != 0 {
          pn[i - k - 1] := Or(pn[i - k - 1], Shl(a.pn[i], 32 - bits));
        }
        if i - k >= 0 {
          pn[i - k] := Or(pn[i - k], Shr(a.pn[i], bits));
        }
      }
      RightFinish(pn[..], x, k, bits);
    }

    /** The order of the numbers. */
    method CompareTo(b: BaseUint) returns (r: int)
      requires Valid() && b.Valid() && b.pn.Length == pn.Length
      ensures r == if Num() < b.Num() then -1 else if Num() > b.Num() then 1 else 0
    {
      hide Value; hide Pow;
      var i := pn.Length - 1;
      while i >= 0
        invariant -1 <= i < pn.Length
        invariant forall j :: i < j < pn.Length ==> pn[j] == b.pn[j]
      {
        if pn[i] < b.pn[i] {
          assert pn[..][i + 1..] == b.pn[..][i + 1..];
          ValueOrder(pn[..], b.pn[..], i);
          return -1;
        }
        if pn[i] > b.pn[i] {
          assert pn[..][i + 1..] == b.pn[..][i + 1..];
          ValueOrder(b.pn[..], pn[..], i);
          return 1;
        }
        i := i - 1;
      }
      assert pn[..] == b.pn[..];
      return 0;
    }

    /** The position of the highest bit set plus one, or zero. */
    method Bits() returns (r: nat)
      requires Valid()
      ensures Num() < Pow(2, r) && (r > 0 ==> Pow(2, r - 1) <= Num()) && r <= 32 * pn.Length
    {
      hide Value; hide Pow;
      var pos := pn.Length - 1;
      while pos >= 0
        invariant -1 <= pos < pn.Length && forall j :: pos < j < pn.Length ==> pn[j] == 0
      {
        if pn[pos] != 0 {
          var bits := 31;
          BaseIsPower();
          while bits > 0
            invariant 0 <= bits <= 31 && pn[pos] < Pow(2, bits + 1)
          {
            PowPositive(2, bits);
            TestBit(pn[pos], bits);
            if pn[pos] / Pow(2, bits) % 2 == 1 {
              TopBit(pn[..], pos, bits);
              return 32 * pos + bits + 1;
            }
            bits := bits - 1;
          }
          PowBase(2);
          TopBit(pn[..], pos, 0);
          return 32 * pos + 1;
        }
        pos := pos - 1;
      }
      ValueZero(pn[..]);
      PowPositive(2, 0);
      return 0;
    }

    method GetLow64() returns (r: nat)
      requires Valid()
      ensures r == Num() % TWO64
    {
      hide Or;
      LowPart(pn[..]);
      return Or(pn[0], pn[1] * BASE);
    }

    /** One bit of the quotient. */
    method DivideBit(num: BaseUint, div: BaseUint, shift: nat, ghost N: nat, ghost D: nat)
      requires num.pn != div.pn && num.pn != pn && div.pn != pn && shift < 32 * pn.Length
      requires Valid() && num.Valid() && div.Valid() && num.pn.Length == div.pn.Length == pn.Length
      requires Dividing(Num(), num.Num(), div.Num(), N, D, shift + 1) && LowClear(pn[..], shift + 1)
      modifies pn, num.pn, div.pn
      ensures Valid() && num.Valid() && div.Valid()
      ensures Dividing(Num(), num.Num(), div.Num(), N, D, shift) && LowClear(pn[..], shift)
    {
      hide Value; hide Pow; hide Modulus; hide AreLimbs; hide LowClear; hide Or; hide Dividing;
      var c := num.CompareTo(div);
      InRange(num.pn[..]);
      DivideNext(Num(), num.Num(), div.Num(), N, D, shift, Range());
      SetBit(pn[..], shift);
      if c >= 0 {
        num.Subtract(div);
        ghost var s := pn[..];
        pn[shift / 32] := Or(pn[shift / 32], Pow(2, shift % 32));
        assert pn[..] == s[shift / 32 := pn[shift / 32]];
      }
      div.ShiftRight(1);
    }

    /**
     Shift-and-subtract division: the floor quotient, with the remainder left over in `num`. It
     fails on zero, and then this number has already been cleared.
     */
    method Divide(b: BaseUint) returns (ok: bool, num: BaseUint)
      requires Valid() && b.Valid() && b.pn.Length == pn.Length
      modifies pn
      ensures Valid() && num.Valid() && ok == (old(b.Num()) > 0)
      ensures ok ==> Num() == old(Num()) / old(b.Num()) && num.Num() == old(Num()) % old(b.Num())
      ensures !ok ==> Num() == 0
    {
      hide Value; hide Pow; hide Modulus; hide AreLimbs; hide LowClear; hide Or; hide Dividing;
      ghost var N, D := Num(), b.Num();
      var div := new BaseUint.Copy(b);
      num := new BaseUint.Copy(this);
      Assign(0);
      var numBits := num.Bits();
      var divBits := div.Bits();
      ZeroBits(D, divBits);
      if divBits == 0 {
        return false, num;
      }
      if divBits > numBits {
        PowMono(2, numBits, divBits - 1);
        QuotientUnique(N, D, 0, N);
        return true, num;
      }
      var shift := numBits - divBits;
      div.ShiftLeft(shift);
      DivideStart(N, D, numBits, divBits, pn.Length);
      ClearStart(pn[..], shift + 1);
      ok := true;
      while shift >= 0
        invariant -1 <= shift < 32 * pn.Length
        invariant fresh(num.pn) && fresh(div.pn) && num.pn != div.pn && num.pn != pn && div.pn != pn
        invariant Valid() && num.Valid() && div.Valid() && num.pn.Length == div.pn.Length == pn.Length
        invariant Dividing(Num(), num.Num(), div.Num(), N, D, shift + 1)
        invariant LowClear(pn[..], shift + 1)
      {
        DivideBit(num, div, shift, N, D);
        shift := shift - 1;
      }
      DivideFinish(Num(), num.Num(), div.Num(), N, D);
    }
  }

  /** Three times three, computed as a number multiplied by itself. */
  method SquareOfThree(width: nat) returns (a: BaseUint)
    requires width >= 2
    ensures a.Num() == 0 && 3 * 3 % a.Range() == 9
  {
    hide Value; hide AreLimbs;
    a := new BaseUint(width, 3);
    a.Multiply(a);
    PowMono(BASE, 1, width);
    PowStep(BASE, 0);
    QuotientUnique(9, a.Range(), 0, 9);
  }

  // ----- Facts about the loops -----

  lemma LowValue(s: seq<nat>, b: nat)
    requires |s| >= 2 && b < TWO64 && s[0] == b % BASE && s[1] == b / BASE && forall j :: 2 <= j < |s| ==> s[j] == 0
    ensures Value(s) == b && AreLimbs(s)
  {
    ValueSplit(s, 2);
    ValueZero(s[2..]);
    assert s[..2] == [s[0]] + [s[1]];
    ValueAppend([], s[0]);
    ValueAppend([s[0]], s[1]);
    assert [] + [s[0]] == [s[0]];
  }

  lemma LowPart(s: seq<nat>)
    requires AreLimbs(s) && |s| >= 2
    ensures Or(s[0], s[1] * BASE) == Value(s) % TWO64
  {
    hide Or; hide Value;
    BaseIsPower();
    QuotientUnique(s[1] * BASE, BASE, s[1], 0);
    OrDisjoint(s[0], s[1] * BASE, 32);
    ValueSplit(s, 2);
    assert s[..2] == [] + [s[0]] + [s[1]];
    ValueAppend([], s[0]);
    ValueAppend([] + [s[0]], s[1]);
    ValueZero([]);
    assert Pow(BASE, 0) == 1 && Pow(BASE, 1) == BASE && Pow(BASE, 2) == TWO64;
    QuotientUnique(Value(s), TWO64, Value(s[2..]), s[0] + s[1] * BASE);
  }

  /** All ones below limb `i` turn to zeros, limb `i` goes up by one, the rest stays. */
  ghost predicate Rippling(x: seq<nat>, y: seq<nat>, i: nat) {
    && |x| == |y| && i < |x| && AreLimbs(x) && AreLimbs(y)
    && y[i] == (x[i] + 1) % BASE && (forall j :: i < j < |x| ==> y[j] == x[j])
    && forall j :: 0 <= j < i ==> y[j] == 0 && x[j] == BASE - 1
  }

  lemma RippleStart(x: seq<nat>)
    requires AreLimbs(x) && |x| > 0
    ensures Rippling(x, x[0 := (x[0] + 1) % BASE], 0)
  {
  }

  lemma RippleBackStart(x: seq<nat>)
    requires AreLimbs(x) && |x| > 0
    ensures Rippling(x[0 := (x[0] + BASE - 1) % BASE], x, 0)
  {
  }

  lemma RippleNext(x: seq<nat>, y: seq<nat>, i: nat)
    requires Rippling(x, y, i) && y[i] == 0 && i + 1 < |x|
    ensures Rippling(x, y[i + 1 := (y[i + 1] + 1) % BASE], i + 1)
  {
  }

  lemma RippleBack(x: seq<nat>, y: seq<nat>, i: nat)
    requires Rippling(x, y, i) && x[i] == BASE - 1 && i + 1 < |x|
    ensures Rippling(x[i + 1 := (x[i + 1] + BASE - 1) % BASE], y, i + 1)
  {
  }

  lemma RippleLast(x: seq<nat>, y: seq<nat>, i: nat)
    requires Rippling(x, y, i) && (x[i] != BASE - 1 || i == |x| - 1)
    ensures y[i] != 0 || i == |x| - 1
    ensures AreLimbs(x) && Value(y) < Modulus(|x|)
  {
    ValueBound(y);
  }

  lemma Ripple(x: seq<nat>, y: seq<nat>, i: nat)
    requires Rippling(x, y, i) && (y[i] != 0 || i == |x| - 1)
    ensures AreLimbs(y) && Value(y) == (Value(x) + 1) % Modulus(|x|)
  {
    hide Value; hide Pow;
    ValueSplit(x, i + 1);
    ValueSplit(y, i + 1);
    assert x[i + 1..] == y[i + 1..];
    RippleLow(x[..i], y[..i], x[i], y[i]);
    assert x[..i + 1] == x[..i] + [x[i]] && y[..i + 1] == y[..i] + [y[i]];
    ValueBound(y);
    if y[i] != 0 {
      RippleSum(Value(x), Value(y), 0, |x|);
    } else {
      assert x[i + 1..] == [];
      ValueZero([]);
      RippleSum(Value(x), Value(y), 1, |x|);
    }
  }

  lemma RippleSum(x: nat, y: nat, carry: nat, n: nat)
    requires y < Pow(BASE, n) && y + carry * Pow(BASE, n) == x + 1
    ensures y == (x + 1) % Modulus(n)
  {
    Truncated(y, carry, x + 1, n);
  }

  lemma RippleLow(x: seq<nat>, y: seq<nat>, a: nat, b: nat)
    requires |x| == |y| && a < BASE && b == (a + 1) % BASE
    requires forall j :: 0 <= j < |x| ==> y[j] == 0 && x[j] == BASE - 1
    ensures Value(y + [b]) + (if b == 0 then Pow(BASE, |x| + 1) else 0) == Value(x + [a]) + 1
  {
    hide Value; hide Pow;
    ValueAppend(x, a);
    ValueAppend(y, b);
    ValueZero(y);
    AllOnes(x);
    PowStep(BASE, |x|);
    Distribute(a, 1, Pow(BASE, |x|));
  }

  lemma {:induction false} AllOnes(x: seq<nat>)
    requires forall j :: 0 <= j < |x| ==> x[j] == BASE - 1
    ensures Value(x) + 1 == Pow(BASE, |x|)
  {
    if x != [] {
      var n := |x| - 1;
      AllOnes(x[..n]);
      Distribute(BASE, 1, Pow(BASE, n));
    }
  }

  lemma {:induction false} ComplementSum(x: seq<nat>, y: seq<nat>)
    requires |x| == |y| && forall j :: 0 <= j < |x| ==> x[j] + y[j] == BASE - 1
    ensures Value(x) + Value(y) + 1 == Pow(BASE, |x|)
  {
    if x != [] {
      var n := |x| - 1;
      ComplementSum(x[..n], y[..n]);
      Distribute(x[n], y[n], Pow(BASE, n));
      Distribute(BASE, 1, Pow(BASE, n));
    }
  }

  lemma Complement(x: seq<nat>, y: seq<nat>)
    requires |x| == |y| && AreLimbs(x) && AreLimbs(y) && forall j :: 0 <= j < |x| ==> y[j] == BASE - 1 - x[j]
    ensures (Value(y) + 1) % Modulus(|x|) == (Modulus(|x|) - Value(x)) % Modulus(|x|)
  {
    ComplementSum(x, y);
  }

  lemma NegatedSum(x: nat, y: nat, m: nat)
    requires y < m || m > 0
    ensures m > 0 && (x + (m - y) % m) % m == (x - y) % m
  {
    var q := (m - y) / m;
    assert m - y == q * m + (m - y) % m;
    ModMultiple(x + (m - y) % m, q, m);
    ModMultiple(x - y, 1, m);
  }

  // ----- Multiplication by one limb -----

  ghost predicate ScaleDone(s: seq<nat>, x: seq<nat>, i: nat, f: nat, carry: nat) {
    && |s| == |x| && i <= |x| && AreLimbs(s) && carry < BASE && s[i..] == x[i..]
    && Value(s[..i]) + carry * Pow(BASE, i) == f * Value(x[..i])
  }

  lemma ScaleStart(x: seq<nat>, f: nat)
    requires AreLimbs(x)
    ensures ScaleDone(x, x, 0, f, 0)
  {
    assert x[..0] == [];
  }

  lemma ScaleNext(s: seq<nat>, x: seq<nat>, i: nat, f: nat, carry: nat)
    requires ScaleDone(s, x, i, f, carry) && i < |x| && f < BASE
    ensures f * s[i] >= 0
    ensures var n := carry + f * s[i]; n < TWO64 && ScaleDone(s[i := n % BASE], x, i + 1, f, n / BASE)
  {
    hide Value; hide Pow;
    assert s[i] == s[i..][0] && x[i] == x[i..][0];
    NoOverflow(carry, 0, f, s[i]);
    ScaleStep(s[..i], x[..i], f, carry, x[i]);
    var n := carry + f * s[i];
    var t := s[i := n % BASE];
    assert t[..i + 1] == s[..i] + [n % BASE] && x[..i + 1] == x[..i] + [x[i]];
    assert t[i + 1..] == s[i..][1..] && x[i + 1..] == x[i..][1..];
  }

  lemma ScaleFinish(s: seq<nat>, x: seq<nat>, f: nat, carry: nat)
    requires ScaleDone(s, x, |x|, f, carry)
    ensures AreLimbs(s) && Value(s) == Value(x) * f % Modulus(|x|)
  {
    hide Value; hide Pow; hide Modulus;
    assert s[..|x|] == s && x[..|x|] == x;
    ValueBound(s);
    MulMono(0, Value(x), f);
    var exact := Value(x) * f;
    assert exact == f * Value(x);
    Truncated(Value(s), carry, exact, |x|);
  }

  // ----- Multiplication -----

  predicate Zeros(s: seq<nat>) {
    forall i :: 0 <= i < |s| ==> s[i] == 0
  }

  lemma ZeroProduct(a: nat, b: nat)
    requires b == 0
    ensures a * b == 0
  {
  }

  lemma {:induction false} AllZero(s: seq<nat>)
    requires Value(s) == 0
    ensures Zeros(s)
  {
    if s != [] {
      var n := |s| - 1;
      PowPositive(BASE, n);
      MulMono(1, Pow(BASE, n), s[n]);
      AllZero(s[..n]);
      assert forall i :: 0 <= i < n ==> s[i] == s[..n][i];
    }
  }

  /** After `j` rows; `lost` counts what fell off the top. */
  ghost predicate RowsDone(s: seq<nat>, x: seq<nat>, y: seq<nat>, j: nat, lost: nat) {
    && |s| == |x| == |y| && j <= |x| && AreLimbs(s) && AreLimbs(x) && AreLimbs(y)
    && Value(s) + lost * Pow(BASE, |x|) == Value(x[..j]) * Value(y)
  }

  /** Within row `j`, after `i` limbs. */
  ghost predicate RowDoing(s: seq<nat>, before: seq<nat>, f: nat, y: seq<nat>, i: nat, j: nat, carry: nat) {
    && |s| == |before| == |y| && i + j <= |y| && AreLimbs(s) && AreLimbs(y) && f < BASE && carry < BASE
    && s[i + j..] == before[i + j..]
    && Value(s[..i + j]) + carry * Pow(BASE, i + j) == Value(before[..i + j]) + f * Value(y[..i]) * Pow(BASE, j)
  }

  lemma RowsStart(s: seq<nat>, x: seq<nat>, y: seq<nat>)
    requires |s| == |x| == |y| && AreLimbs(s) && AreLimbs(x) && AreLimbs(y) && Value(s) == 0
    ensures RowsDone(s, x, y, 0, 0)
  {
    assert x[..0] == [];
  }

  lemma RowStart(s: seq<nat>, x: seq<nat>, y: seq<nat>, j: nat, lost: nat)
    requires RowsDone(s, x, y, j, lost) && j < |x|
    ensures RowDoing(s, s, x[j], y, 0, j, 0)
  {
    hide Pow;
    assert y[..0] == [];
    assert x[j] * Value([]) == 0;
  }

  lemma RowNext(s: seq<nat>, before: seq<nat>, f: nat, y: seq<nat>, i: nat, j: nat, carry: nat)
    requires RowDoing(s, before, f, y, i, j, carry) && i + j < |y|
    ensures f * y[i] >= 0
    ensures var n := carry + s[i + j] + f * y[i];
            n < TWO64 && RowDoing(s[i + j := n % BASE], before, f, y, i + 1, j, n / BASE)
  {
    hide Value; hide Pow;
    var k := i + j;
    assert s[k] == s[k..][0] && before[k] == before[k..][0];
    NoOverflow(carry, s[k], f, y[i]);
    RowStep(s[..k], before[..k], y[..i], j, f, carry, s[k], y[i]);
    var n := carry + s[k] + f * y[i];
    var t := s[k := n % BASE];
    assert t[..k + 1] == s[..k] + [n % BASE] && before[..k + 1] == before[..k] + [before[k]];
    assert y[..i + 1] == y[..i] + [y[i]];
    assert t[k + 1..] == s[k..][1..] && before[k + 1..] == before[k..][1..];
  }

  lemma RowFinish(s: seq<nat>, before: seq<nat>, x: seq<nat>, y: seq<nat>, j: nat, carry: nat, lost: nat) returns (more: nat)
    requires RowsDone(before, x, y, j, lost) && j < |x| && RowDoing(s, before, x[j], y, |x| - j, j, carry)
    ensures RowsDone(s, x, y, j + 1, more)
  {
    hide Value; hide Pow;
    var n := |x|;
    assert s[..n] == s && before[..n] == before;
    more := RowDone(Value(s), carry, Value(before), x[..j], y, n, j, x[j], lost);
    assert x[..j + 1] == x[..j] + [x[j]];
  }

  lemma RowsFinish(s: seq<nat>, x: seq<nat>, y: seq<nat>, lost: nat)
    requires RowsDone(s, x, y, |x|, lost)
    ensures AreLimbs(s) && Value(s) == Value(x) * Value(y) % Modulus(|x|)
  {
    hide Value; hide Pow; hide Modulus;
    assert x[..|x|] == x;
    ValueBound(s);
    MulMono(0, Value(x), Value(y));
    var exact := Value(x) * Value(y);
    Truncated(Value(s), lost, exact, |x|);
  }

  // ----- Shifts -----

  /** Limb `j` of the result after the first `i` limbs were moved left. */
  ghost function LeftPart(x: seq<nat>, k: nat, s: nat, i: int, j: int): nat
    requires s < 32
  {
    PowPositive(2, 32 - s);
    if j < i + k then LeftLimb(x, k, s, j)
    else if j == i + k then At(x, j - k - 1) / Pow(2, 32 - s)
    else 0
  }

  lemma LeftStart(z: seq<nat>, x: seq<nat>, k: nat, s: nat)
    requires |z| == |x| && Zeros(z) && s < 32
    ensures forall j :: 0 <= j < |z| ==> z[j] == LeftPart(x, k, s, 0, j)
  {
    hide Pow;
    PowPositive(2, 32 - s);
    QuotientUnique(0, Pow(2, 32 - s), 0, 0);
  }

  lemma LeftNext(x: seq<nat>, k: nat, s: nat, i: nat)
    requires i < |x| && AreLimbs(x) && s < 32
    ensures forall j :: j != i + k && j != i + k + 1 ==> LeftPart(x, k, s, i + 1, j) == LeftPart(x, k, s, i, j)
    ensures LeftPart(x, k, s, i + 1, i + k) == Or(LeftPart(x, k, s, i, i + k), Shl(x[i], s))
    ensures LeftPart(x, k, s, i + 1, i + k + 1) ==
            if s == 0 then LeftPart(x, k, s, i, i + k + 1)
            else Or(LeftPart(x, k, s, i, i + k + 1), Shr(x[i], 32 - s))
  {
    hide Pow; hide Or;
    JoinLeft(At(x, i - 1), x[i], s);
    JoinLeft(x[i], x[i], s);
  }

  lemma LeftFinish(r: seq<nat>, x: seq<nat>, k: nat, s: nat)
    requires |r| == |x| && AreLimbs(x) && s < 32
    requires forall j :: 0 <= j < |r| ==> r[j] == LeftPart(x, k, s, |x|, j)
    ensures AreLimbs(r) && Value(r) == Value(x) * Pow(2, 32 * k + s) % Modulus(|x|)
  {
    hide Pow; hide Value; hide Modulus;
    forall j | 0 <= j < |r| ensures r[j] == LeftLimb(x, k, s, j) && r[j] < BASE {
      JoinLeft(At(x, j - k - 1), At(x, j - k), s);
    }
    LeftValue(x, k, s, r);
  }

  ghost function RightPart(x: seq<nat>, k: nat, s: nat, i: int, j: int): nat
    requires s < 32
  {
    PowPositive(2, s);
    if j + k + 1 < i then RightLimb(x, k, s, j)
    else if j + k + 1 == i then At(x, j + k) / Pow(2, s)
    else 0
  }

  lemma RightStart(z: seq<nat>, x: seq<nat>, k: nat, s: nat)
    requires |z| == |x| && Zeros(z) && s < 32
    ensures forall j :: 0 <= j < |z| ==> z[j] == RightPart(x, k, s, 0, j)
  {
  }

  lemma RightNext(x: seq<nat>, k: nat, s: nat, i: nat)
    requires i < |x| && AreLimbs(x) && s < 32
    ensures forall j :: j != i - k && j != i - k - 1 ==> RightPart(x, k, s, i + 1, j) == RightPart(x, k, s, i, j)
    ensures RightPart(x, k, s, i + 1, i - k) == Or(RightPart(x, k, s, i, i - k), Shr(x[i], s))
    ensures i - k - 1 >= 0 ==>
              RightPart(x, k, s, i + 1, i - k - 1) ==
              if s == 0 then RightPart(x, k, s, i, i - k - 1)
              else Or(RightPart(x, k, s, i, i - k - 1), Shl(x[i], 32 - s))
  {
    hide Pow; hide Or;
    JoinRight(At(x, i - 1), x[i], s);
    JoinRight(x[i], x[i], s);
  }

  lemma RightFinish(r: seq<nat>, x: seq<nat>, k: nat, s: nat)
    requires |r| == |x| && AreLimbs(x) && s < 32
    requires forall j :: 0 <= j < |r| ==> r[j] == RightPart(x, k, s, |x|, j)
    ensures AreLimbs(r) && Pow(2, 32 * k + s) > 0 && Value(r) == Value(x) / Pow(2, 32 * k + s)
  {
    hide Pow; hide Value;
    QuotientUnique(0, BASE, 0, 0);
    PowPositive(2, s);
    QuotientUnique(0, Pow(2, s), 0, 0);
    forall j | 0 <= j < |r| ensures r[j] == RightLimb(x, k, s, j) && r[j] < BASE {
      JoinRight(At(x, j + k), At(x, j + k + 1), s);
    }
    RightValue(x, k, s, r);
  }

  // ----- Bits -----

  lemma TestBit(x: nat, t: nat)
    requires x < Pow(2, t + 1)
    ensures Pow(2, t) > 0 && (x / Pow(2, t) % 2 == 1 <==> Pow(2, t) <= x)
  {
    var p := Pow(2, t);
    PowPositive(2, t);
    PowStep(2, t);
    if p <= x {
      QuotientUnique(x, p, 1, x - p);
    } else {
      QuotientUnique(x, p, 0, x);
    }
  }

  lemma TopBit(s: seq<nat>, pos: nat, t: nat)
    requires AreLimbs(s) && pos < |s| && Pow(2, t) <= s[pos] < Pow(2, t + 1)
    requires forall j :: pos < j < |s| ==> s[j] == 0
    ensures Pow(2, 32 * pos + t) <= Value(s) < Pow(2, 32 * pos + t + 1)
  {
    hide Value; hide Pow;
    var p := Pow(BASE, pos);
    ValueSplit(s, pos + 1);
    ValueZero(s[pos + 1..]);
    assert s[..pos + 1] == s[..pos] + [s[pos]];
    ValueAppend(s[..pos], s[pos]);
    ValueBound(s[..pos]);
    PowerSplit(pos, t);
    PowerSplit(pos, t + 1);
    TopLimb(s[pos], Pow(2, t), Pow(2, t + 1), p);
  }

  lemma TopLimb(x: nat, lo: nat, hi: nat, p: nat)
    requires lo <= x < hi
    ensures p * lo <= x * p && x * p + p <= p * hi
  {
    MulMono(lo, x, p);
    MulMono(x + 1, hi, p);
    Distribute(x, 1, p);
  }

  // ----- Division -----

  lemma ZeroBits(d: nat, bits: nat)
    requires d < Pow(2, bits) && (bits > 0 ==> Pow(2, bits - 1) <= d)
    ensures bits == 0 <==> d == 0
  {
    if bits > 0 {
      PowPositive(2, bits - 1);
    }
  }

  /** Quotient so far, what is left of the dividend, and the divisor shifted by one less than `c`. */
  ghost predicate Dividing(q: nat, r: nat, d: nat, N: nat, D: nat, c: nat) {
    q * D + r == N && r < D * Pow(2, c) && (c > 0 ==> d == D * Pow(2, c - 1))
  }

  /** Shifted to the same length, the divisor still fits and doubled exceeds the dividend. */
  lemma DivideStart(N: nat, D: nat, nBits: nat, dBits: nat, width: nat)
    requires 0 < dBits <= nBits <= 32 * width && N < Pow(2, nBits)
    requires Pow(2, dBits - 1) <= D < Pow(2, dBits)
    ensures Dividing(0, N, D * Pow(2, nBits - dBits) % Modulus(width), N, D, nBits - dBits + 1)
  {
    hide Pow;
    var shift := nBits - dBits;
    PowPositive(2, shift);
    PowPositive(2, shift + 1);
    PowAdd(2, dBits, shift);
    PowAdd(2, dBits - 1, shift + 1);
    Distribute(Pow(2, dBits), D, Pow(2, shift));
    MulMono(1, Pow(2, dBits) - D, Pow(2, shift));
    MulMono(0, D, Pow(2, shift));
    MulMono(Pow(2, dBits - 1), D, Pow(2, shift + 1));
    PowMono(2, nBits, 32 * width);
    PowerSplit(width, 0);
    PowBase(2);
    QuotientUnique(D * Pow(2, shift), Modulus(width), 0, D * Pow(2, shift));
  }

  lemma DivideNext(q: nat, r: nat, d: nat, N: nat, D: nat, shift: nat, m: nat)
    requires Dividing(q, r, d, N, D, shift + 1) && r < m
    ensures Pow(2, 1) == 2
    ensures r < d ==> Dividing(q, r, d / 2, N, D, shift)
    ensures r >= d ==> Dividing(q + Pow(2, shift), (r - d) % m, d / 2, N, D, shift)
  {
    hide Pow;
    PowStep(2, shift);
    var p := Pow(2, shift);
    DivideStep(q, r, D, p, N);
    HalfShift(D, shift);
    if r >= d {
      QuotientUnique(r - d, m, 0, r - d);
    }
  }

  lemma DivideFinish(q: nat, r: nat, d: nat, N: nat, D: nat)
    requires Dividing(q, r, d, N, D, 0)
    ensures D > 0 && q == N / D && r == N % D
  {
    PowBase(2);
    QuotientUnique(N, D, q, r);
  }

  lemma DivideStep(q: nat, r: nat, d: nat, p: nat, n: nat)
    requires q * d + r == n && r < d * (2 * p)
    ensures r >= d * p ==> (q + p) * d + (r - d * p) == n && r - d * p < d * p
  {
    Distribute(q, p, d);
    assert d * (2 * p) == 2 * (d * p);
  }

  lemma InRange(s: seq<nat>)
    requires AreLimbs(s)
    ensures Value(s) < Modulus(|s|)
  {
    ValueBound(s);
  }

  lemma HalfShift(d: nat, shift: nat)
    ensures Pow(2, 1) == 2
    ensures shift > 0 ==> d * Pow(2, shift) / 2 == d * Pow(2, shift - 1)
  {
    if shift > 0 {
      var p := Pow(2, shift - 1);
      PowStep(2, shift - 1);
      assert d * (2 * p) == d * p * 2;
      QuotientUnique(d * Pow(2, shift), 2, d * p, 0);
    }
  }

  /** The lowest `c` bits are zero. */
  ghost predicate LowClear(s: seq<nat>, c: nat) {
    PowPositive(2, c % 32);
    && (forall j :: 0 <= j < c / 32 && j < |s| ==> s[j] == 0)
    && (c / 32 < |s| ==> s[c / 32] % Pow(2, c % 32) == 0)
  }

  lemma ClearStart(s: seq<nat>, c: nat)
    requires Value(s) == 0
    ensures LowClear(s, c)
  {
    AllZero(s);
    PowPositive(2, c % 32);
    QuotientUnique(0, Pow(2, c % 32), 0, 0);
  }

  /** Setting bit `shift`, with it and all lower bits clear, adds that power of two. */
  lemma SetBit(s: seq<nat>, shift: nat)
    requires AreLimbs(s) && shift < 32 * |s| && LowClear(s, shift + 1)
    ensures LowClear(s, shift)
    ensures var t := s[shift / 32 := Or(s[shift / 32], Pow(2, shift % 32))];
            AreLimbs(t) && Value(t) == Value(s) + Pow(2, shift) && LowClear(t, shift)
  {
    hide Value; hide Or; hide Pow;
    var w, b := shift / 32, shift % 32;
    var x := s[w];
    assert Pow(2, b + 1) > 0 && x % Pow(2, b + 1) == 0 by {
      PowPositive(2, b + 1);
      if b == 31 {
        assert x == 0;
        QuotientUnique(0, Pow(2, b + 1), 0, 0);
      }
    }
    PowPositive(2, b);
    FreeBit(x, b);
    ValueUpdate(s, w, x + Pow(2, b));
    PowerSplit(w, b);
  }

  lemma FreeBit(x: nat, b: nat)
    requires x < BASE && b < 32 && Pow(2, b + 1) > 0 && x % Pow(2, b + 1) == 0
    ensures Or(x, Pow(2, b)) == x + Pow(2, b) < BASE
    ensures Pow(2, b) > 0 && x % Pow(2, b) == 0 && (x + Pow(2, b)) % Pow(2, b) == 0
  {
    hide Or; hide Pow;
    var p := Pow(2, b);
    PowPositive(2, b);
    PowStep(2, b);
    OrSymmetric(x, p);
    OrDisjoint(p, x, b + 1);
    PowerOfLimb(b + 1);
    var q := x / Pow(2, b + 1);
    FreeRoom(x, p, q, Pow(2, 31 - b));
    QuotientUnique(x, p, 2 * q, 0);
    QuotientUnique(x + p, p, 2 * q + 1, 0);
  }

  lemma FreeRoom(x: nat, p: nat, q: nat, h: nat)
    requires 0 < p && x == q * (2 * p) && x < BASE && BASE == 2 * p * h
    ensures x + p < BASE && x == 2 * q * p && x + p == (2 * q + 1) * p
  {
    MulStrict(q, h, 2 * p);
    MulMono(q + 1, h, 2 * p);
    Distribute(q, 1, 2 * p);
    MulAssoc(2, q, p);
    Distribute(2 * q, 1, p);
  }
}
