/** Base58: numbers as big-endian digits, the alphabet, and what encoding and decoding mean. */
module Base58Model {
  import opened Common
  import opened Powers


  // ----- Big-endian digits -----

  predicate AreDigits(s: seq<nat>, b: nat) {
    forall i :: 0 <= i < |s| ==> s[i] < b
  }

  function Number(s: seq<nat>, b: nat): nat {
    if s == [] then 0 else Number(s[..|s| - 1], b) * b + s[|s| - 1]
  }

  /** The digits of a number without leading zeros. */
  function Digits(n: nat, b: nat): (s: seq<nat>)
    requires b >= 2
    decreases n
  {
    if n == 0 then [] else
      NextSmaller(n, b);
      Digits(n / b, b) + [n % b]
  }

  lemma NextSmaller(n: nat, b: nat)
    requires n > 0 && b >= 2
    ensures n / b < n
  {
    MulMono(2, b, n / b);
  }

  lemma NumberAppend(s: seq<nat>, x: nat, b: nat)
    ensures Number(s + [x], b) == Number(s, b) * b + x
  {
    assert (s + [x])[..|s|] == s;
  }

  lemma {:induction false} DigitsNumber(n: nat, b: nat)
    requires b >= 2
    ensures Number(Digits(n, b), b) == n && AreDigits(Digits(n, b), b)
    ensures n > 0 ==> Digits(n, b) != [] && Digits(n, b)[0] != 0
    decreases n
  {
    hide Number; hide Digits;
    if n == 0 {
      NoDigits(b);
    } else {
      var q, r := DigitsStep(n, b);
      DigitsNumber(q, b);
      NumberAppend(Digits(q, b), r, b);
      if q == 0 { NoDigits(b); }
    }
  }

  lemma NoDigits(b: nat)
    requires b >= 2
    ensures Digits(0, b) == [] && Number([], b) == 0
  {
  }

  lemma DigitsStep(n: nat, b: nat) returns (q: nat, r: nat)
    requires n > 0 && b >= 2
    ensures q < n && r < b && n == q * b + r && Digits(n, b) == Digits(q, b) + [r]
  {
    NextSmaller(n, b);
    q, r := n / b, n % b;
  }

  /** They are the only digits of that number that do not start with a zero. */
  lemma {:induction false} DigitsUnique(s: seq<nat>, b: nat)
    requires b >= 2 && AreDigits(s, b) && (s != [] ==> s[0] != 0)
    ensures Digits(Number(s, b), b) == s
    decreases |s|
  {
    if s != [] {
      var front, last := s[..|s| - 1], s[|s| - 1];
      DigitsUnique(front, b);
      QuotientUnique(Number(s, b), b, Number(front, b), last);
      if front != [] {
        Leading(front, b);
        MulMono(1, Number(front, b), b);
      }
      assert Digits(Number(s, b), b) == Digits(Number(front, b), b) + [last];
    }
  }

  lemma {:induction false} Leading(s: seq<nat>, b: nat)
    requires s != [] && s[0] != 0 && b >= 1
    ensures Number(s, b) > 0
    decreases |s|
  {
    if |s| > 1 {
      Leading(s[..|s| - 1], b);
      MulMono(1, Number(s[..|s| - 1], b), b);
    } else {
      assert s[..0] == [];
    }
  }

  lemma {:induction false} NumberBound(s: seq<nat>, b: nat)
    requires AreDigits(s, b) && b >= 1
    ensures Number(s, b) < Pow(b, |s|)
    decreases |s|
  {
    if s != [] {
      var n := |s| - 1;
      NumberBound(s[..n], b);
      MulMono(Number(s[..n], b) + 1, Pow(b, n), b);
      Distribute(Number(s[..n], b), 1, b);
    }
  }

  /** One digit more on the left. */
  lemma {:induction false} NumberCons(x: nat, s: seq<nat>, b: nat)
    ensures Number([x] + s, b) == x * Pow(b, |s|) + Number(s, b)
    decreases |s|
  {
    if s == [] {
      assert ([x] + s)[..0] == [];
    } else {
      var n := |s| - 1;
      NumberCons(x, s[..n], b);
      assert ([x] + s)[..n + 1] == [x] + s[..n];
      Distribute(x * Pow(b, n), Number(s[..n], b), b);
      MulAssoc(x, Pow(b, n), b);
    }
  }

  function Zeros(n: nat): (s: seq<nat>)
    ensures |s| == n && forall i :: 0 <= i < n ==> s[i] == 0
  {
    seq<nat>(n, _ => 0)
  }

  lemma {:induction false} LeadingZeros(n: nat, s: seq<nat>, b: nat)
    ensures Number(Zeros(n) + s, b) == Number(s, b)
  {
    if n == 0 {
      assert Zeros(0) + s == s;
    } else {
      LeadingZeros(n - 1, s, b);
      assert Zeros(n) + s == [0] + (Zeros(n - 1) + s);
      NumberCons(0, Zeros(n - 1) + s, b);
    }
  }

  /** How many zeros a sequence starts with. */
  function ZeroCount(s: seq<nat>): (n: nat)
    ensures n <= |s| && s[..n] == Zeros(n) && (n < |s| ==> s[n] != 0)
  {
    if s == [] || s[0] != 0 then 0 else 1 + ZeroCount(s[1..])
  }

  lemma {:induction false} ZeroCountOf(n: nat, s: seq<nat>)
    requires s != [] ==> s[0] != 0
    ensures ZeroCount(Zeros(n) + s) == n
  {
    if n == 0 {
      assert Zeros(0) + s == s;
    } else {
      ZeroCountOf(n - 1, s);
      assert (Zeros(n) + s)[1..] == Zeros(n - 1) + s;
    }
  }

  // ----- The alphabet: digits, upper and lower case without 0, I, O and l -----

  function Letters(first: char, n: nat): (s: string)
    requires first as int + n <= 0x80
    ensures |s| == n && forall i :: 0 <= i < n ==> s[i] as int == first as int + i
  {
    seq(n, i requires 0 <= i < n => (first as int + i) as char)
  }

  const ALPHABET := Letters('1', 9) + Letters('A', 8) + Letters('J', 5) + Letters('P', 11) + Letters('a', 11) + Letters('m', 14)

  lemma Ascending(i: nat, j: nat)
    requires i < j < 58
    ensures |ALPHABET| == 58 && ALPHABET[i] < ALPHABET[j]
  {
  }

  /** Where a character stands in the alphabet. */
  function Position(c: char): (r: Option<nat>)
    ensures r.Some? ==> r.value < 58 && ALPHABET[r.value] == c
    ensures r.None? ==> c !in ALPHABET
  {
    Find(c, 0)
  }

  function Find(c: char, from: nat): (r: Option<nat>)
    requires from <= 58
    ensures r.Some? ==> r.value < 58 && ALPHABET[r.value] == c
    ensures r.None? ==> forall i :: from <= i < 58 ==> ALPHABET[i] != c
    decreases 58 - from
  {
    if from == 58 then None else if ALPHABET[from] == c then Some(from) else Find(c, from + 1)
  }

  lemma PositionOf(d: nat)
    requires d < 58
    ensures Position(ALPHABET[d]) == Some(d)
  {
    var r := Position(ALPHABET[d]);
    assert r.Some?;
    if r.value < d {
      Ascending(r.value, d);
    } else if d < r.value {
      Ascending(d, r.value);
    }
  }

  function ToLetters(s: seq<nat>): (r: string)
    requires AreDigits(s, 58)
    ensures |r| == |s| && forall i :: 0 <= i < |s| ==> r[i] == ALPHABET[s[i]]
  {
    seq(|s|, i requires 0 <= i < |s| => ALPHABET[s[i]])
  }

  /** The digits of a string, unless a character is not in the alphabet. */
  function FromLetters(s: string): (r: Option<seq<nat>>)
    ensures r.Some? <==> forall i :: 0 <= i < |s| ==> s[i] in ALPHABET
    ensures r.Some? ==> |r.value| == |s| && AreDigits(r.value, 58) && ToLetters(r.value) == s
  {
    if s == [] then Some([])
    else
      var rest, last := FromLetters(s[..|s| - 1]), Position(s[|s| - 1]);
      if rest.Some? && last.Some? then Some(rest.value + [last.value]) else None
  }

  lemma FromToLetters(s: seq<nat>)
    requires AreDigits(s, 58)
    ensures FromLetters(ToLetters(s)) == Some(s)
  {
    var r := FromLetters(ToLetters(s));
    assert r.Some?;
    forall i | 0 <= i < |s| ensures r.value[i] == s[i] {
      assert ToLetters(r.value)[i] == ToLetters(s)[i];
      PositionOf(s[i]);
      PositionOf(r.value[i]);
    }
    assert r.value == s;
  }

  // ----- Encoding and decoding -----

  function Ones(n: nat): (s: string)
    ensures |s| == n && forall i :: 0 <= i < n ==> s[i] == '1'
  {
    seq(n, _ => '1')
  }

  /** One '1' for each leading zero byte, then the number in base 58. */
  function Encode(bytes: seq<nat>): (r: string)
    requires AreDigits(bytes, 256)
  {
    DigitsNumber(Number(bytes, 256), 58);
    Ones(ZeroCount(bytes)) + ToLetters(Digits(Number(bytes, 256), 58))
  }

  predicate IsSpace(c: char) {
    c == ' ' || '\t' <= c <= '\r'
  }

  /** The part of a C string between leading and trailing white space, if there is none inside. */
  function SkipSpaces(s: string): (r: string) {
    if s != [] && IsSpace(s[0]) then SkipSpaces(s[1..]) else s
  }

  function Word(s: string): (r: nat)
    ensures r <= |s| && (forall i :: 0 <= i < r ==> !IsSpace(s[i])) && (r < |s| ==> IsSpace(s[r]))
  {
    if s == [] || IsSpace(s[0]) then 0 else 1 + Word(s[1..])
  }

  /** The bytes a trimmed string stands for. */
  function DecodeWord(w: string): (r: Option<seq<nat>>) {
    var digits := FromLetters(w);
    if digits.None? then None
    else Some(Zeros(ZeroCount(digits.value)) + Digits(Number(digits.value, 58), 256))
  }

  /** White space may surround the encoding, and nothing else. */
  function Decode(s: string): (r: Option<seq<nat>>) {
    var t := SkipSpaces(s);
    var n := Word(t);
    if SkipSpaces(t[n..]) != [] then None else DecodeWord(t[..n])
  }

  predicate Spaceless(s: string) {
    forall i :: 0 <= i < |s| ==> !IsSpace(s[i])
  }

  lemma LettersSpaceless(s: string)
    requires forall i :: 0 <= i < |s| ==> s[i] in ALPHABET
    ensures Spaceless(s)
  {
  }

  lemma DecodeSpaceless(s: string)
    requires Spaceless(s)
    ensures Decode(s) == DecodeWord(s)
  {
    assert Word(s) == |s|;
    assert s[..|s|] == s && s[|s|..] == [];
  }

  lemma EncodeLetters(bytes: seq<nat>)
    requires AreDigits(bytes, 256)
    ensures var digits := Zeros(ZeroCount(bytes)) + Digits(Number(bytes, 256), 58);
            AreDigits(digits, 58) && Encode(bytes) == ToLetters(digits)
  {
    hide Number; hide Digits; hide ZeroCount;
    DigitsNumber(Number(bytes, 256), 58);
  }

  lemma DecodeLetters(digits: seq<nat>)
    requires AreDigits(digits, 58)
    ensures Decode(ToLetters(digits)) == Some(Zeros(ZeroCount(digits)) + Digits(Number(digits, 58), 256))
  {
    hide Number; hide Digits; hide ZeroCount; hide FromLetters; hide Decode;
    FromToLetters(digits);
    LettersSpaceless(ToLetters(digits));
    DecodeSpaceless(ToLetters(digits));
  }

  /** Leading zeros change neither the number nor its digits in another base. */
  lemma SameDigits(z: nat, n: nat, b: nat)
    requires b >= 2
    ensures ZeroCount(Zeros(z) + Digits(n, b)) == z && Number(Zeros(z) + Digits(n, b), b) == n
  {
    DigitsNumber(n, b);
    ZeroCountOf(z, Digits(n, b));
    LeadingZeros(z, Digits(n, b), b);
  }

  /** A sequence of digits is its leading zeros and the digits of its number. */
  lemma SplitZeros(s: seq<nat>, b: nat)
    requires b >= 2 && AreDigits(s, b)
    ensures s == Zeros(ZeroCount(s)) + Digits(Number(s, b), b)
  {
    hide Number; hide Digits;
    var z := ZeroCount(s);
    assert s == Zeros(z) + s[z..];
    LeadingZeros(z, s[z..], b);
    DigitsUnique(s[z..], b);
  }

  /** Every byte vector survives, with its leading zeros. */
  lemma DecodeEncode(bytes: seq<nat>)
    requires AreDigits(bytes, 256)
    ensures Decode(Encode(bytes)) == Some(bytes)
  {
    hide Number; hide Digits; hide ZeroCount; hide FromLetters; hide Decode; hide Encode;
    var z, n := ZeroCount(bytes), Number(bytes, 256);
    EncodeLetters(bytes);
    DecodeLetters(Zeros(z) + Digits(n, 58));
    SameDigits(z, n, 58);
    SplitZeros(bytes, 256);
  }

  /** And every string over the alphabet is the encoding of what it decodes to. */
  lemma EncodeDecode(s: string)
    requires forall i :: 0 <= i < |s| ==> s[i] in ALPHABET
    ensures Decode(s).Some? && AreDigits(Decode(s).value, 256) && Encode(Decode(s).value) == s
  {
    hide Number; hide Digits; hide ZeroCount; hide FromLetters; hide Decode; hide Encode;
    var digits := FromLetters(s).value;
    var z, n := ZeroCount(digits), Number(digits, 58);
    DecodeLetters(digits);
    DigitsNumber(n, 256);
    SameDigits(z, n, 256);
    EncodeLetters(Zeros(z) + Digits(n, 256));
    SplitZeros(digits, 58);
  }
}
