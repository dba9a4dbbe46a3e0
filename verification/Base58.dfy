/** Base58 as the buffer loops compute it. */
module Base58 {
  import opened Common
  import opened Powers
  import opened Base58Model

  // ----- The buffers are large enough -----

  lemma {:induction false} PowBaseMono(a: nat, b: nat, e: nat)
    requires a <= b
    ensures Pow(a, e) <= Pow(b, e)
  {
    if e > 0 {
      PowBaseMono(a, b, e - 1);
      MulMono(a, b, Pow(a, e - 1));
      MulMono(Pow(a, e - 1), Pow(b, e - 1), b);
    }
  }

  lemma PowRoot(x: nat, y: nat, q: nat)
    requires Pow(x, q) < Pow(y, q)
    ensures x < y
  {
    if y <= x {
      PowBaseMono(y, x, q);
    }
  }

  /** If a^q <= b^p, then n digits to the base a fit n * p / q + 1 digits to the base b. */
  lemma RoomFor(a: nat, b: nat, p: nat, q: nat, n: nat)
    requires q > 0 && b >= 2 && Pow(a, q) <= Pow(b, p)
    ensures Pow(a, n) < Pow(b, n * p / q + 1)
  {
    hide Pow;
    var size := n * p / q + 1;
    assert n * p < size * q by { Distribute(n * p / q, 1, q); }
    PowPow(a, n, q);
    PowPow(a, q, n);
    PowPow(b, p, n);
    PowPow(b, size, q);
    assert n * q == q * n && p * n == n * p;
    PowBaseMono(Pow(a, q), Pow(b, p), n);
    MulMono(0, n, p);
    PowStrict(b, n * p, size * q);
    PowRoot(Pow(a, n), Pow(b, size), q);
  }

  /** a^x <= b^y and a^u <= b^v give a^(kx+u) <= b^(ky+v). */
  lemma ChainBound(a: nat, b: nat, x: nat, y: nat, k: nat, u: nat, v: nat)
    requires Pow(a, x) <= Pow(b, y) && Pow(a, u) <= Pow(b, v)
    ensures x * k + u >= 0 && y * k + v >= 0 && Pow(a, x * k + u) <= Pow(b, y * k + v)
  {
    hide Pow;
    MulMono(0, x, k);
    MulMono(0, y, k);
    PowPow(a, x, k);
    PowPow(b, y, k);
    PowBaseMono(Pow(a, x), Pow(b, y), k);
    PowAdd(a, x * k, u);
    PowAdd(b, y * k, v);
    MulMono(Pow(a, x * k), Pow(b, y * k), Pow(a, u));
    MulMono(Pow(a, u), Pow(b, v), Pow(b, y * k));
  }

  lemma PowersOf58()
    ensures Pow(58, 6) == 38068692544 && Pow(58, 11) == 24986644000165537792
  {
    assert Pow(58, 5) == 656356768;
    PowAdd(58, 1, 5);
    assert Pow(58, 1) == 58;
    PowAdd(58, 5, 6);
  }

  lemma PowersOf256()
    ensures Pow(256, 4) == 4294967296 && Pow(256, 5) == 1099511627776 && Pow(256, 8) == 18446744073709551616
  {
    assert Pow(256, 4) == 4294967296;
    assert Pow(256, 1) == 256;
    PowAdd(256, 1, 4);
    PowAdd(256, 4, 4);
  }

  /** A step of squaring, to keep the numbers concrete. */
  lemma Squared(b: nat, e: nat, v: nat)
    requires Pow(b, e) == v
    ensures Pow(b, 2 * e) == v * v
  {
    PowAdd(b, e, e);
  }

  /** 58^71 <= 256^52, the closest the two bases come. */
  lemma Close()
    ensures Pow(58, 71) <= Pow(256, 52)
  {
    hide Pow;
    PowersOf58();
    PowersOf256();
    var a := 24986644000165537792;
    Squared(58, 11, a);
    Squared(58, 22, a * a);
    PowAdd(58, 44, 22);
    assert Pow(58, 66) == a * a * (a * a) * (a * a);
    PowAdd(58, 66, 5);
    PowAdd(58, 5, 6);
    assert Pow(58, 5) * 38068692544 == a;
    var b := 18446744073709551616;
    Squared(256, 8, b);
    Squared(256, 16, b * b);
    PowAdd(256, 32, 16);
    PowAdd(256, 48, 4);
    assert Pow(256, 52) == b * b * (b * b) * (b * b) * 4294967296;
  }

  /** 138 / 100 + 1 digits to the base 58 hold the bytes. */
  lemma EncodeRoom(n: nat)
    ensures Pow(256, n) < Pow(58, n * 138 / 100 + 1)
  {
    hide Pow;
    PowersOf58();
    PowersOf256();
    ChainBound(256, 58, 8, 11, 12, 4, 6);
    RoomFor(256, 58, 138, 100, n);
  }

  /** 733 / 1000 + 1 bytes hold the digits. */
  lemma DecodeRoom(n: nat)
    ensures Pow(58, n) < Pow(256, n * 733 / 1000 + 1)
  {
    hide Pow;
    PowersOf58();
    PowersOf256();
    Close();
    ChainBound(58, 256, 71, 52, 14, 6, 5);
    RoomFor(58, 256, 733, 1000, n);
  }

  // ----- buffer = buffer * from + digit -----

  /** The last `i` digits are done. */
  ghost predicate Doing(s: seq<nat>, before: seq<nat>, i: nat, from: nat, to: nat, digit: nat, carry: nat) {
    && |s| == |before| && i <= |s| && AreDigits(s, to) && AreDigits(before, to) && carry < from
    && s[..|s| - i] == before[..|s| - i]
    && Number(s[|s| - i..], to) + carry * Pow(to, i) == Number(before[|s| - i..], to) * from + digit
  }

  lemma DoingStart(s: seq<nat>, from: nat, to: nat, digit: nat)
    requires AreDigits(s, to) && digit < from
    ensures Doing(s, s, 0, from, to, digit, digit)
  {
    assert s[|s|..] == [];
  }

  lemma DoingNext(s: seq<nat>, before: seq<nat>, i: nat, from: nat, to: nat, digit: nat, carry: nat, n: nat)
    requires Doing(s, before, i, from, to, digit, carry) && i < |s| && 0 < to
    requires n == carry + from * s[|s| - 1 - i]
    ensures n < from * to && Doing(s[|s| - 1 - i := n % to], before, i + 1, from, to, digit, n / to)
  {
    hide Number; hide Pow;
    var k := |s| - 1 - i;
    var d := before[k];
    assert s[k] == s[..k + 1][k] && d == before[..k + 1][k];
    MulMono(d, to - 1, from);
    Distribute(to, 1, from);
    var p := Pow(to, i);
    var t := s[k := n % to];
    assert t[k..] == [n % to] + s[k + 1..] && before[k..] == [d] + before[k + 1..];
    NumberCons(n % to, s[k + 1..], to);
    NumberCons(d, before[k + 1..], to);
    PowStep(to, i);
    CarryOn(n, to, p);
    ScaledDigit(d, p, from, Number(before[k + 1..], to));
    Distribute(carry, from * d, p);
    assert t[..k] == s[..k + 1][..k] && before[..k] == before[..k + 1][..k];
    assert n / to < from by { MulStrict(n / to, from, to); }
  }

  lemma CarryOn(n: nat, to: nat, p: nat)
    requires 0 < to
    ensures n % to * p + n / to * (to * p) == n * p
  {
    MulAssoc(n / to, to, p);
    Distribute(n / to * to, n % to, p);
  }

  lemma ScaledDigit(d: nat, p: nat, from: nat, rest: nat)
    ensures (d * p + rest) * from == from * d * p + rest * from
  {
    Distribute(d * p, rest, from);
    MulAssoc(from, d, p);
  }

  ghost predicate LeftZero(s: seq<nat>, length: nat) {
    length <= |s| && forall k :: 0 <= k < |s| - length ==> s[k] == 0
  }

  /** When the loop ends nothing is carried, given that the result fits the buffer. */
  lemma DoingDone(s: seq<nat>, before: seq<nat>, i: nat, from: nat, to: nat, digit: nat, carry: nat, length: nat)
    requires Doing(s, before, i, from, to, digit, carry) && LeftZero(before, length) && 0 < to
    requires i == |s| || (carry == 0 && length <= i)
    requires Number(before, to) * from + digit < Pow(to, |s|)
    ensures carry == 0 && Number(s, to) == Number(before, to) * from + digit && LeftZero(s, i)
  {
    hide Number; hide Pow;
    if i == |s| {
      assert s[0..] == s && before[0..] == before;
      NoCarry(Number(s, to), carry, Pow(to, i));
    } else {
      DoingStopped(s, before, i, from, to, digit);
    }
  }

  lemma DoingStopped(s: seq<nat>, before: seq<nat>, i: nat, from: nat, to: nat, digit: nat)
    requires Doing(s, before, i, from, to, digit, 0) && LeftZero(before, i)
    ensures Number(s, to) == Number(before, to) * from + digit && LeftZero(s, i)
  {
    hide Number; hide Pow; hide AreDigits;
    var m := |s| - i;
    assert forall k :: 0 <= k < m ==> s[k] == s[..m][k] && before[k] == before[..m][k];
    ZeroPrefix(s, m, to);
    ZeroPrefix(before, m, to);
  }

  lemma ZeroPrefix(s: seq<nat>, m: nat, to: nat)
    requires m <= |s| && forall k :: 0 <= k < m ==> s[k] == 0
    ensures Number(s, to) == Number(s[m..], to)
  {
    hide Number;
    assert s == Zeros(m) + s[m..];
    LeadingZeros(m, s[m..], to);
  }

  lemma NoCarry(v: nat, carry: nat, p: nat)
    requires v + carry * p < p
    ensures carry == 0
  {
    if carry > 0 {
      MulMono(1, carry, p);
    }
  }

  method Accumulate(buf: array<nat>, length: nat, from: nat, to: nat, digit: nat) returns (i: nat)
    requires AreDigits(buf[..], to) && LeftZero(buf[..], length) && digit < from && 0 < to
    requires Number(buf[..], to) * from + digit < Pow(to, buf.Length)
    modifies buf
    ensures AreDigits(buf[..], to) && LeftZero(buf[..], i)
    ensures Number(buf[..], to) == Number(old(buf[..]), to) * from + digit
  {
    hide Number; hide Pow; hide Doing; hide AreDigits; hide LeftZero;
    var carry: nat := digit;
    ghost var before := buf[..];
    i := 0;
    DoingStart(before, from, to, digit);
    while (carry != 0 || i < length) && i < buf.Length
      invariant i <= buf.Length && Doing(buf[..], before, i, from, to, digit, carry)
      decreases buf.Length - i
    {
      var k := buf.Length - 1 - i;
      ghost var s := buf[..];
      MulMono(0, buf[k], from);
      DoingNext(s, before, i, from, to, digit, carry, carry + from * buf[k]);
      carry := carry + from * buf[k];
      buf[k] := carry % to;
      carry := carry / to;
      assert buf[..] == s[k := buf[k]];
      i := i + 1;
    }
    DoingDone(buf[..], before, i, from, to, digit, carry, length);
    assert carry == 0;
    assert AreDigits(buf[..], to) by { DoingDigits(buf[..], before, i, from, to, digit, carry); }
  }

  lemma DoingDigits(s: seq<nat>, before: seq<nat>, i: nat, from: nat, to: nat, digit: nat, carry: nat)
    requires Doing(s, before, i, from, to, digit, carry)
    ensures AreDigits(s, to)
  {
  }

  /** The buffer without its leading zeros. */
  method Trimmed(buf: array<nat>, length: nat, b: nat) returns (digits: seq<nat>)
    requires AreDigits(buf[..], b) && LeftZero(buf[..], length) && b >= 2
    ensures digits == Digits(Number(buf[..], b), b)
  {
    var it := buf.Length - length;
    while it < buf.Length && buf[it] == 0
      invariant it <= buf.Length && forall k :: 0 <= k < it ==> buf[k] == 0
    {
      it := it + 1;
    }
    digits := buf[it..];
    assert buf[..] == Zeros(it) + digits;
    LeadingZeros(it, digits, b);
    DigitsUnique(digits, b);
  }

  lemma ZeroBuffer(s: seq<nat>, b: nat)
    requires forall i :: 0 <= i < |s| ==> s[i] == 0
    ensures Number(s, b) == 0
  {
    assert s == Zeros(|s|) + [];
    LeadingZeros(|s|, [], b);
  }

  /** After the next digit the number still is that of a prefix, and fits. */
  lemma Fits(digits: seq<nat>, k: nat, from: nat, to: nat, size: nat)
    requires k < |digits| && AreDigits(digits, from) && 1 <= from && Pow(from, |digits|) < Pow(to, size)
    ensures Number(digits[..k + 1], from) == Number(digits[..k], from) * from + digits[k] < Pow(to, size)
  {
    assert digits[..k + 1] == digits[..k] + [digits[k]];
    NumberAppend(digits[..k], digits[k], from);
    NumberBound(digits[..k + 1], from);
    PowMono(from, k + 1, |digits|);
  }

  method EncodeBase58(bytes: seq<nat>) returns (str: string)
    requires AreDigits(bytes, 256)
    ensures str == Encode(bytes)
  {
    hide Number; hide Pow; hide Digits; hide LeftZero;
    var zeroes := 0;
    while zeroes < |bytes| && bytes[zeroes] == 0
      invariant zeroes <= |bytes| && bytes[..zeroes] == Zeros(zeroes)
    {
      zeroes := zeroes + 1;
    }
    var rest := bytes[zeroes..];
    assert bytes == Zeros(zeroes) + rest;
    ZeroCountOf(zeroes, rest);
    LeadingZeros(zeroes, rest, 256);
    var size := |rest| * 138 / 100 + 1;
    EncodeRoom(|rest|);
    var b58 := new nat[size](_ => 0);
    var length := 0;
    StartBuffer(b58[..], rest, 256, 58);
    for p := 0 to |rest|
      invariant AreDigits(b58[..], 58) && LeftZero(b58[..], length)
      invariant Number(b58[..], 58) == Number(rest[..p], 256)
    {
      Fits(rest, p, 256, 58, size);
      length := Accumulate(b58, length, 256, 58, rest[p]);
    }
    assert rest[..|rest|] == rest;
    var digits := Trimmed(b58, length, 58);
    DigitsNumber(Number(bytes, 256), 58);
    str := Ones(zeroes) + ToLetters(digits);
  }

  lemma StartBuffer(s: seq<nat>, digits: seq<nat>, from: nat, to: nat)
    requires (forall i :: 0 <= i < |s| ==> s[i] == 0) && 0 < to
    ensures AreDigits(s, to) && LeftZero(s, 0) && Number(s, to) == Number(digits[..0], from)
  {
    ZeroBuffer(s, to);
  }

  /**
   The characters from `start` on up to white space or the end, of which the first `zeroes` are
   ones; it stops at the first that is not in the alphabet.
   */
  method DecodeDigits(psz: string, start: nat, zeroes: nat) returns (ok: bool, p: nat, digits: seq<nat>)
    requires start + zeroes <= |psz| && psz[start..start + zeroes] == Ones(zeroes)
    ensures start + zeroes <= p <= |psz| && Spaceless(psz[start..p])
    ensures !ok ==> p < |psz| && !IsSpace(psz[p]) && psz[p] !in ALPHABET
    ensures ok ==> p < |psz| ==> IsSpace(psz[p])
    ensures ok ==> FromLetters(psz[start..p]).Some? && digits == Digits(Number(FromLetters(psz[start..p]).value, 58), 256)
  {
    hide Number; hide Pow; hide Digits; hide LeftZero; hide Parsed; hide AreDigits;
    p := start + zeroes;
    var size := (|psz| - p) * 733 / 1000 + 1;
    DecodeRoom(|psz| - p);
    var b256 := new nat[size](_ => 0);
    var length := 0;
    StartBuffer(b256[..], [], 58, 256);
    ParsedStart(psz, start, zeroes);
    while p < |psz| && !IsSpace(psz[p])
      invariant start + zeroes <= p <= |psz|
      invariant AreDigits(b256[..], 256) && LeftZero(b256[..], length)
      invariant Parsed(psz, start, p, zeroes, Number(b256[..], 256))
    {
      var ch := Position(psz[p]);
      if ch.None? {
        ParsedMeans(psz, start, p, zeroes, Number(b256[..], 256));
        return false, p, [];
      }
      ParsedNext(psz, start, p, zeroes, Number(b256[..], 256), size);
      length := Accumulate(b256, length, 58, 256, ch.value);
      p := p + 1;
    }
    ok := true;
    ParsedMeans(psz, start, p, zeroes, Number(b256[..], 256));
    digits := Trimmed(b256, length, 256);
  }

  /** The characters up to `p` are in the alphabet and stand for the number `n`. */
  ghost predicate Parsed(psz: string, start: nat, p: nat, zeroes: nat, n: nat) {
    && start + zeroes <= p <= |psz| && Spaceless(psz[start..p]) && FromLetters(psz[start..p]).Some?
    && n == Number(FromLetters(psz[start..p]).value, 58) && FromLetters(psz[start..p]).value[..zeroes] == Zeros(zeroes)
  }

  lemma ParsedMeans(psz: string, start: nat, p: nat, zeroes: nat, n: nat)
    requires Parsed(psz, start, p, zeroes, n)
    ensures start <= p <= |psz| && Spaceless(psz[start..p]) && FromLetters(psz[start..p]).Some?
    ensures n == Number(FromLetters(psz[start..p]).value, 58)
  {
  }

  lemma ParsedStart(psz: string, start: nat, zeroes: nat)
    requires start + zeroes <= |psz| && psz[start..start + zeroes] == Ones(zeroes)
    ensures Parsed(psz, start, start + zeroes, zeroes, Number([], 58)) && Number([], 58) == 0
  {
    hide Number;
    OnesDigits(zeroes);
    ZeroBuffer(Zeros(zeroes), 58);
    ZeroBuffer([], 58);
  }

  lemma ParsedNext(psz: string, start: nat, p: nat, zeroes: nat, n: nat, size: nat)
    requires Parsed(psz, start, p, zeroes, n) && p < |psz| && !IsSpace(psz[p]) && Position(psz[p]).Some?
    requires Pow(58, |psz| - start - zeroes) < Pow(256, size)
    ensures var m := n * 58 + Position(psz[p]).value;
            m < Pow(256, size) && Parsed(psz, start, p + 1, zeroes, m)
  {
    hide Number; hide Pow; hide FromLetters; hide Position;
    NextLetter(psz, start, p);
    var digits := FromLetters(psz[start..p + 1]).value;
    assert digits[..|digits| - 1] == FromLetters(psz[start..p]).value;
    NextDigit(digits, zeroes, |psz| - start - zeroes, size);
  }

  lemma OnesDigits(n: nat)
    ensures FromLetters(Ones(n)) == Some(Zeros(n))
  {
    assert Ones(n) == ToLetters(Zeros(n));
    FromToLetters(Zeros(n));
  }

  lemma NextLetter(psz: string, start: nat, p: nat)
    requires start <= p < |psz| && FromLetters(psz[start..p]).Some? && Position(psz[p]).Some?
    ensures FromLetters(psz[start..p + 1]) == Some(FromLetters(psz[start..p]).value + [Position(psz[p]).value])
    ensures !IsSpace(psz[p]) && Spaceless(psz[start..p]) ==> Spaceless(psz[start..p + 1])
  {
    hide Letters; hide Position; hide IsSpace;
    assert psz[start..p + 1] == psz[start..p] + [psz[p]];
    assert (psz[start..p] + [psz[p]])[..p - start] == psz[start..p];
  }

  /** The next number fits the buffer, which is sized for the characters after the leading ones. */
  lemma NextDigit(digits: seq<nat>, zeroes: nat, rest: nat, size: nat)
    requires AreDigits(digits, 58) && zeroes < |digits| <= zeroes + rest && digits[..|digits| - 1][..zeroes] == Zeros(zeroes)
    requires Pow(58, rest) < Pow(256, size)
    ensures var n := |digits| - 1;
            && Number(digits[..n], 58) * 58 + digits[n] == Number(digits, 58) < Pow(256, size)
            && digits[..zeroes] == Zeros(zeroes)
  {
    hide Pow; hide Number;
    var n := |digits| - 1;
    assert digits == digits[..n] + [digits[n]];
    NumberAppend(digits[..n], digits[n], 58);
    assert digits[..zeroes] == digits[..n][..zeroes];
    TailFits(digits, zeroes, rest);
  }

  lemma TailFits(digits: seq<nat>, zeroes: nat, rest: nat)
    requires AreDigits(digits, 58) && zeroes <= |digits| <= zeroes + rest && digits[..zeroes] == Zeros(zeroes)
    ensures Number(digits, 58) < Pow(58, rest)
  {
    hide Pow; hide Number;
    var tail := digits[zeroes..];
    assert digits == Zeros(zeroes) + tail;
    LeadingZeros(zeroes, tail, 58);
    NumberBound(tail, 58);
    PowMono(58, |tail|, rest);
  }

  lemma {:induction false} WordIs(t: string, n: nat)
    requires n <= |t| && Spaceless(t[..n]) && (n < |t| ==> IsSpace(t[n]))
    ensures Word(t) == n
  {
    assert forall k :: 0 <= k < n ==> t[k] == t[..n][k];
  }

  lemma BadLetter(t: string, n: nat)
    requires n < |t| && Spaceless(t[..n]) && !IsSpace(t[n]) && t[n] !in ALPHABET
    ensures DecodeWord(t[..Word(t)]) == None
  {
    hide FromLetters; hide Letters; hide Word; hide IsSpace; hide Number; hide Digits;
    var w := Word(t);
    assert forall k :: 0 <= k < n ==> t[k] == t[..n][k];
    assert n < w;
    assert t[..w][n] !in ALPHABET;
  }

  /** Leading ones are leading zero digits, and there are no more of them. */
  lemma OnesCount(word: string, zeroes: nat)
    requires zeroes <= |word| && word[..zeroes] == Ones(zeroes) && (zeroes < |word| ==> word[zeroes] != '1')
    requires FromLetters(word).Some?
    ensures ZeroCount(FromLetters(word).value) == zeroes
  {
    var digits := FromLetters(word).value;
    assert ALPHABET[0] == '1';
    forall i | 0 <= i < zeroes ensures digits[i] == 0 {
      assert ALPHABET[digits[i]] == word[..zeroes][i];
      if digits[i] > 0 { Ascending(0, digits[i]); }
    }
    assert digits == Zeros(zeroes) + digits[zeroes..];
    assert zeroes < |word| ==> ToLetters(digits)[zeroes] == word[zeroes];
    ZeroCountOf(zeroes, digits[zeroes..]);
  }

  /** `psz` is the C string: its characters up to the terminating NUL. */
  method DecodeBase58(psz: string) returns (ok: bool, vch: seq<nat>)
    ensures Decode(psz) == if ok then Some(vch) else None
  {
    hide Number; hide Digits; hide FromLetters; hide Word; hide DecodeWord; hide IsSpace; hide SkipSpaces; hide Letters;
    var start := SkipAll(psz, 0);
    assert psz[0..] == psz;
    ghost var t := psz[start..];
    var p, zeroes := start, 0;
    while p < |psz| && psz[p] == '1'
      invariant p == start + zeroes <= |psz| && psz[start..p] == Ones(zeroes)
    {
      assert psz[start..p + 1] == psz[start..p] + ['1'];
      zeroes := zeroes + 1;
      p := p + 1;
    }
    var digits;
    ghost var q := p;
    ok, p, digits := DecodeDigits(psz, start, zeroes);
    ghost var n := p - start;
    assert t[..n] == psz[start..p] && t[n..] == psz[p..];
    if !ok {
      BadLetter(t, n);
      return false, [];
    }
    WordIs(t, n);
    p := SkipAll(psz, p);
    if p < |psz| {
      return false, [];
    }
    assert t[..zeroes] == psz[start..q];
    WordDecoded(t, n, zeroes);
    vch := Zeros(zeroes) + digits;
  }

  lemma WordDecoded(t: string, n: nat, zeroes: nat)
    requires zeroes <= n <= |t| && t[..zeroes] == Ones(zeroes) && (zeroes < n ==> t[zeroes] != '1')
    requires FromLetters(t[..n]).Some?
    ensures DecodeWord(t[..n]) == Some(Zeros(zeroes) + Digits(Number(FromLetters(t[..n]).value, 58), 256))
  {
    hide FromLetters; hide Number; hide Digits; hide ZeroCount; hide Letters;
    assert t[..n][..zeroes] == t[..zeroes];
    OnesCount(t[..n], zeroes);
  }

  method SkipAll(psz: string, from: nat) returns (p: nat)
    requires from <= |psz|
    ensures from <= p <= |psz| && psz[p..] == SkipSpaces(psz[from..]) && (p < |psz| ==> !IsSpace(psz[p]))
  {
    p := from;
    while p < |psz| && IsSpace(psz[p])
      invariant from <= p <= |psz| && SkipSpaces(psz[from..]) == SkipSpaces(psz[p..])
    {
      assert psz[p..][1..] == psz[p + 1..];
      p := p + 1;
    }
  }
}
