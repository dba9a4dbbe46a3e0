/** FromData and Check of mnemonics, as the loops compute them. */
module Bip39 {
  import opened Common
  import opened Bits
  import Limbs
  import opened Powers
  import opened Bip39Model

  method FromData(words: seq<string>, h: seq<nat> -> seq<nat>, data: seq<nat>, len: int) returns (mnemonic: string)
    requires |words| == 2048 && IsHash(h) && (IsLength(len) ==> len <= |data|)
    ensures mnemonic == FromDataResult(words, h, data, len)
  {
    hide Terminated; hide IsHash;
    mnemonic := "";
    if len % 4 != 0 || len < 16 || len > 32 {
      return;
    }
    var checksum := HashOf(h, data[..len]);
    var bits := data[..len] + [checksum[0]];
    var mlen := len * 3 / 4;
    ghost var all := Indices(bits, mlen);
    assert all[..0] == [];
    assert Terminated(words, []) == "" by { NoWords(words); }
    for i := 0 to mlen
      invariant i < mlen ==> mnemonic == Terminated(words, all[..i])
      invariant i == mlen ==> mnemonic + " " == Terminated(words, all)
    {
      var idx := ReadIndex(bits, i);
      assert all[..i + 1] == all[..i] + [all[i]];
      TerminatedAppend(words, all[..i], all[i]);
      mnemonic := mnemonic + words[idx];
      if i < mlen - 1 {
        mnemonic := mnemonic + " ";
      } else {
        assert all[..i + 1] == all;
      }
    }
    assert Joined(words, all) + " " == mnemonic + " ";
    assert (mnemonic + " ")[..|mnemonic|] == mnemonic && (Joined(words, all) + " ")[..|mnemonic|] == Joined(words, all);
  }

  method HashOf(h: seq<nat> -> seq<nat>, data: seq<nat>) returns (r: seq<nat>)
    requires IsHash(h)
    ensures r == h(data) && |r| == 32 && AreBytes(r)
  {
    r := h(data);
  }

  lemma NoWords(words: seq<string>)
    requires |words| == 2048
    ensures Terminated(words, []) == ""
  {
  }

  /** The eleven bits of word `i`. */
  method ReadIndex(bits: seq<nat>, i: nat) returns (idx: nat)
    requires 11 * i + 11 <= 8 * |bits|
    ensures idx == IndexAt(bits, i, 11)
  {
    idx := 0;
    for j := 0 to 11
      invariant idx == IndexAt(bits, i, j)
    {
      idx := idx * 2;
      if BitOf(bits[(i * 11 + j) / 8], 7 - (i * 11 + j) % 8) {
        idx := idx + 1;
      }
    }
  }

  // ----- Check -----

  /** What the mnemonic says, if it consists of listed words. */
  ghost predicate Reads(words: seq<string>, mnemonic: string, idx: seq<nat>) {
    |words| == 2048 && AreIndices(idx) && mnemonic + " " == Terminated(words, idx)
  }

  /** The words up to position `i` are read, and every reading of the mnemonic begins with them. */
  ghost predicate Reading(words: seq<string>, mnemonic: string, i: nat, idx: seq<nat>) {
    && |words| == 2048 && AreIndices(idx) && i <= |mnemonic| + 1 && (mnemonic + " ")[..i] == Terminated(words, idx)
    && forall all :: Reads(words, mnemonic, all) ==> idx <= all
  }

  lemma ReadingStart(words: seq<string>, mnemonic: string)
    requires |words| == 2048
    ensures Reading(words, mnemonic, 0, [])
  {
  }

  /** The next word of any reading is the text up to the next blank. */
  lemma NextWord(words: seq<string>, mnemonic: string, i: nat, idx: seq<nat>, all: seq<nat>, n: nat)
    requires IsWordList(words) && Reading(words, mnemonic, i, idx) && Reads(words, mnemonic, all) && i < |mnemonic|
    requires i + n <= |mnemonic| && ' ' !in mnemonic[i..i + n]
    ensures |idx| < |all| && n <= |words[all[|idx|]]|
    ensures i + n == |mnemonic| || mnemonic[i + n] == ' ' ==> words[all[|idx|]] == mnemonic[i..i + n]
  {
    hide Terminated; hide Blanks;
    var k := |idx|;
    var m := mnemonic + " ";
    assert idx <= all;
    TerminatedSplit(words, all, k);
    assert all[..k] == idx;
    assert m == m[..i] + m[i..];
    assert m[i..] == Terminated(words, all[k..]);
    if k == |all| {
      assert all[k..] == [];
      NoWords(words);
      assert false;
    }
    TerminatedSplit(words, all[k..], 1);
    assert all[k..][..1] == [] + [all[k]];
    TerminatedAppend(words, [], all[k]);
    NoWords(words);
    var w := words[all[k]];
    var rest := Terminated(words, all[k..][1..]);
    assert m[i..] == w + " " + rest;
    FirstBlank(m[i..], w, rest, n);
    assert m[i..][..n] == mnemonic[i..i + n];
    assert m[i..][n] == if i + n == |mnemonic| then ' ' else mnemonic[i + n];
  }

  lemma FirstBlank(s: string, w: string, rest: string, n: nat)
    requires s == w + " " + rest && ' ' !in w && n < |s| && ' ' !in s[..n]
    ensures n <= |w| && (s[n] == ' ' ==> w == s[..n])
  {
    assert s[|w|] == ' ';
    assert forall k :: 0 <= k < n ==> s[k] == s[..n][k] && s[..n][k] in s[..n];
    assert n < |w| ==> s[n] == w[n];
  }

  lemma ReadingNext(words: seq<string>, mnemonic: string, i: nat, idx: seq<nat>, n: nat, x: nat)
    requires IsWordList(words) && Reading(words, mnemonic, i, idx) && i < |mnemonic|
    requires i + n <= |mnemonic| && ' ' !in mnemonic[i..i + n] && (i + n == |mnemonic| || mnemonic[i + n] == ' ')
    requires x < 2048 && words[x] == mnemonic[i..i + n]
    ensures Reading(words, mnemonic, i + n + 1, idx + [x])
  {
    hide Terminated;
    var m := mnemonic + " ";
    TerminatedAppend(words, idx, x);
    assert m[..i + n + 1] == m[..i] + mnemonic[i..i + n] + " ";
    forall all | Reads(words, mnemonic, all) ensures idx + [x] <= all {
      NextWord(words, mnemonic, i, idx, all, n);
      assert idx <= all;
      SameWord(words, x, all[|idx|]);
      assert all[..|idx| + 1] == idx + [x];
    }
  }

  lemma SameWord(words: seq<string>, x: nat, y: nat)
    requires IsWordList(words) && x < 2048 && y < 2048 && words[x] == words[y]
    ensures x == y
  {
  }

  /** Every word read so far ended at a blank. */
  lemma ReadingCount(words: seq<string>, mnemonic: string, i: nat, idx: seq<nat>)
    requires IsWordList(words) && Reading(words, mnemonic, i, idx)
    ensures |idx| <= Blanks(mnemonic) + 1
    ensures i <= |mnemonic| ==> |idx| <= Blanks(mnemonic)
    ensures i == |mnemonic| + 1 ==> |idx| == Blanks(mnemonic) + 1
  {
    hide Terminated; hide Blanks;
    var m := mnemonic + " ";
    WordCount(words, idx);
    BlanksConcat(mnemonic, " ");
    OneBlank();
    assert m == m[..i] + m[i..];
    BlanksConcat(m[..i], m[i..]);
    if i <= |mnemonic| {
      assert mnemonic == m[..i] + mnemonic[i..];
      BlanksConcat(m[..i], mnemonic[i..]);
    } else {
      assert m[..i] == m;
    }
  }

  method CountWords(mnemonic: string) returns (n: nat)
    ensures n == Blanks(mnemonic) + 1
  {
    n := 0;
    for i := 0 to |mnemonic|
      invariant n == Blanks(mnemonic[..i])
    {
      assert mnemonic[..i + 1][..i] == mnemonic[..i];
      if mnemonic[i] == ' ' {
        n := n + 1;
      }
    }
    assert mnemonic[..|mnemonic|] == mnemonic;
    n := n + 1;
  }

  /** The word at position `i`; it gives up on a word of more than nine letters. */
  method ReadWord(mnemonic: string, i: nat) returns (ok: bool, word: string)
    requires i <= |mnemonic|
    ensures i + |word| <= |mnemonic| && word == mnemonic[i..i + |word|] && ' ' !in word
    ensures ok ==> i + |word| == |mnemonic| || mnemonic[i + |word|] == ' '
    ensures !ok ==> |word| == 9 && i + 9 < |mnemonic| && mnemonic[i + 9] != ' '
  {
    word := "";
    while i + |word| < |mnemonic| && mnemonic[i + |word|] != ' '
      invariant i + |word| <= |mnemonic| && word == mnemonic[i..i + |word|] && ' ' !in word && |word| <= 9
      decreases |mnemonic| - |word|
    {
      if |word| >= 9 {
        return false, word;
      }
      assert mnemonic[i..i + |word| + 1] == mnemonic[i..i + |word|] + [mnemonic[i + |word|]];
      word := word + [mnemonic[i + |word|]];
    }
    ok := true;
  }

  method FindWord(words: seq<string>, word: string) returns (found: bool, x: nat)
    ensures found ==> x < |words| && words[x] == word
    ensures !found ==> word !in words
  {
    x := 0;
    while true
      invariant x <= |words| && word !in words[..x]
      decreases |words| - x
    {
      if x == |words| {
        return false, x;
      }
      if word == words[x] {
        return true, x;
      }
      x := x + 1;
    }
  }

  /** The bits before `k` are those of the words, and the others are still clear. */
  ghost predicate Filled(bytes: seq<nat>, idx: seq<nat>, k: nat) {
    && k <= 11 * |idx| && k <= 8 * |bytes| && AreBytes(bytes)
    && forall t :: 0 <= t < 8 * |bytes| ==> Bit(bytes, t) == (t < k && WordBit(idx, t))
  }

  /** Setting the bit at `k` where the words have one. */
  lemma FilledNext(s: seq<nat>, r: seq<nat>, idx: seq<nat>, k: nat)
    requires Filled(s, idx, k) && k < 11 * |idx| && k < 8 * |s|
    requires r == if WordBit(idx, k) then s[k / 8 := Limbs.Or(s[k / 8], Pow(2, 7 - k % 8))] else s
    ensures Filled(r, idx, k + 1)
  {
    hide Limbs.Or; hide BitOf; hide Pow; hide WordBit;
    SetBit(s[k / 8], 7 - k % 8);
    forall t | 0 <= t < 8 * |r| ensures Bit(r, t) == (t < k + 1 && WordBit(idx, t)) {
      assert Bit(s, t) == (t < k && WordBit(idx, t));
    }
  }

  lemma FilledMore(s: seq<nat>, idx: seq<nat>, x: nat)
    requires Filled(s, idx, 11 * |idx|)
    ensures Filled(s, idx + [x], 11 * |idx|)
  {
    hide Bit; hide BitOf;
    forall t | 0 <= t < 8 * |s| ensures Bit(s, t) == (t < 11 * |idx| && WordBit(idx + [x], t)) {
      if t < 11 * |idx| {
        assert (idx + [x])[t / 11] == idx[t / 11];
        assert WordBit(idx + [x], t) == WordBit(idx, t);
      }
    }
  }

  lemma FilledStart(s: seq<nat>)
    requires forall i :: 0 <= i < |s| ==> s[i] == 0
    ensures Filled(s, [], 0)
  {
    forall t | 0 <= t < 8 * |s| ensures !Bit(s, t) {
      ZeroBit(7 - t % 8);
    }
  }

  /** Append the eleven bits of a word index. */
  method WriteIndex(bits: array<nat>, nBitsCount: nat, x: nat, ghost idx: seq<nat>) returns (n: nat)
    requires Filled(bits[..], idx, 11 * |idx|) && nBitsCount == 11 * |idx| && nBitsCount + 11 <= 8 * bits.Length
    modifies bits
    ensures n == nBitsCount + 11 && Filled(bits[..], idx + [x], n)
  {
    hide Filled; hide BitOf; hide WordBit;
    ghost var all := idx + [x];
    FilledMore(bits[..], idx, x);
    n := nBitsCount;
    for ki := 0 to 11
      invariant n == nBitsCount + ki && Filled(bits[..], all, n)
    {
      ghost var s := bits[..];
      WordBitLast(idx, x, ki);
      if BitOf(x, 10 - ki) {
        bits[n / 8] := Limbs.Or(bits[n / 8], Pow(2, 7 - n % 8));
        assert bits[..] == s[n / 8 := Limbs.Or(s[n / 8], Pow(2, 7 - n % 8))];
      }
      FilledNext(s, bits[..], all, n);
      n := n + 1;
    }
  }

  lemma WordBitLast(idx: seq<nat>, x: nat, ki: nat)
    requires ki < 11
    ensures WordBit(idx + [x], 11 * |idx| + ki) == BitOf(x, 10 - ki)
  {
    var k := 11 * |idx| + ki;
    assert k / 11 == |idx| && k % 11 == ki;
  }

  /** A reading never ends in a blank, since no word is empty. */
  lemma TrailingBlank(words: seq<string>, mnemonic: string, idx: seq<nat>, all: seq<nat>)
    requires IsWordList(words) && Reading(words, mnemonic, |mnemonic|, idx)
    ensures !Reads(words, mnemonic, all)
  {
    hide Terminated; hide Blanks;
    if Reads(words, mnemonic, all) {
      var k, i := |idx|, |mnemonic|;
      var m := mnemonic + " ";
      assert idx <= all;
      TerminatedSplit(words, all, k);
      assert all[..k] == idx;
      assert m == m[..i] + " ";
      assert Terminated(words, all[k..]) == " ";
      LongEnough(words, all[k..]);
      assert false;
    }
  }

  lemma {:induction false} LongEnough(words: seq<string>, idx: seq<nat>)
    requires IsWordList(words) && AreIndices(idx)
    ensures |Terminated(words, idx)| != 1
  {
  }

  /** Read all words and append their bits; the buffer holds those of 24 words. */
  method ReadWords(words: seq<string>, mnemonic: string, nWordCount: nat, bits: array<nat>)
    returns (ok: bool, nBitsCount: nat, ghost idx: seq<nat>)
    requires IsWordList(words) && nWordCount == Blanks(mnemonic) + 1 <= 24
    requires bits.Length == 33 && forall k :: 0 <= k < 33 ==> bits[k] == 0
    modifies bits
    ensures ok ==> nBitsCount == 11 * |idx| && AreIndices(idx) && Filled(bits[..], idx, nBitsCount)
    ensures ok && |idx| == nWordCount ==> Reads(words, mnemonic, idx)
    ensures !ok || |idx| != nWordCount ==> forall all :: !Reads(words, mnemonic, all)
  {
    hide Reading; hide Reads; hide Filled; hide Blanks; hide IsWordList;
    ListSize(words);
    nBitsCount, idx := 0, [];
    FilledStart(bits[..]);
    ReadingStart(words, mnemonic);
    var i := 0;
    while i < |mnemonic|
      invariant i <= |mnemonic| + 1 && Reading(words, mnemonic, i, idx) && AreIndices(idx)
      invariant nBitsCount == 11 * |idx| && Filled(bits[..], idx, nBitsCount)
      decreases |mnemonic| - i
    {
      ReadingCount(words, mnemonic, i, idx);
      var short, word := ReadWord(mnemonic, i);
      if !short {
        NoReading(words, mnemonic, i, idx, word, false);
        return false, nBitsCount, idx;
      }
      i := i + |word|;
      var found, x := FindWord(words, word);
      if !found {
        NoReading(words, mnemonic, i - |word|, idx, word, true);
        return false, nBitsCount, idx;
      }
      nBitsCount := WriteIndex(bits, nBitsCount, x, idx);
      ReadingNext(words, mnemonic, i - |word|, idx, |word|, x);
      idx := idx + [x];
      i := i + 1;
    }
    ok := true;
    ReadingCount(words, mnemonic, i, idx);
    ReadingEnd(words, mnemonic, i, idx);
  }

  lemma ListSize(words: seq<string>)
    requires IsWordList(words)
    ensures |words| == 2048
  {
  }

  lemma NoReading(words: seq<string>, mnemonic: string, i: nat, idx: seq<nat>, word: string, whole: bool)
    requires IsWordList(words) && Reading(words, mnemonic, i, idx) && i < |mnemonic|
    requires i + |word| <= |mnemonic| && word == mnemonic[i..i + |word|] && ' ' !in word
    requires whole ==> (i + |word| == |mnemonic| || mnemonic[i + |word|] == ' ') && word !in words
    requires !whole ==> |word| == 9 && i + 9 < |mnemonic| && mnemonic[i + 9] != ' '
    ensures forall all :: !Reads(words, mnemonic, all)
  {
    hide Terminated; hide Reading;
    forall all ensures !Reads(words, mnemonic, all) {
      if Reads(words, mnemonic, all) {
        if whole {
          NextWord(words, mnemonic, i, idx, all, |word|);
          assert false;
        } else {
          assert mnemonic[i..i + 10] == word + [mnemonic[i + 9]];
          NextWord(words, mnemonic, i, idx, all, 10);
          assert false;
        }
      }
    }
  }

  lemma ReadingEnd(words: seq<string>, mnemonic: string, i: nat, idx: seq<nat>)
    requires IsWordList(words) && Reading(words, mnemonic, i, idx) && |mnemonic| <= i <= |mnemonic| + 1
    ensures i == |mnemonic| + 1 ==> Reads(words, mnemonic, idx)
    ensures i == |mnemonic| ==> forall all :: !Reads(words, mnemonic, all)
  {
    hide Terminated;
    if i == |mnemonic| {
      forall all ensures !Reads(words, mnemonic, all) {
        TrailingBlank(words, mnemonic, idx, all);
      }
    } else {
      assert (mnemonic + " ")[..i] == mnemonic + " ";
    }
  }

  // ----- The verdict -----

  lemma FilledPacked(idx: seq<nat>, bytes: seq<nat>)
    requires Filled(bytes, idx, 11 * |idx|)
    ensures Packed(idx, bytes) && AreBytes(bytes)
  {
    hide Bit; hide WordBit;
  }

  /** Equal bits from bit `m` of a byte on. */
  ghost predicate TopAgree(x: nat, y: nat, m: nat) {
    forall k :: m <= k < 8 ==> BitOf(x, k) == BitOf(y, k)
  }

  lemma TopBits(x: nat, y: nat, m: nat)
    requires x < 256 && y < 256 && m <= 8
    ensures Pow(2, m) > 0 && (x / Pow(2, m) == y / Pow(2, m) <==> TopAgree(x, y, m))
  {
    hide BitOf; hide Pow;
    PowPositive(2, m);
    var p := Pow(2, m);
    if x / p == y / p {
      forall k | m <= k < 8 ensures BitOf(x, k) == BitOf(y, k) {
        ShiftedBit(x, m, k - m);
        ShiftedBit(y, m, k - m);
      }
    }
    if TopAgree(x, y, m) {
      TopEqual(x, y, m);
    }
  }

  lemma TopEqual(x: nat, y: nat, m: nat)
    requires x < 256 && y < 256 && m <= 8 && TopAgree(x, y, m)
    ensures Pow(2, m) > 0 && x / Pow(2, m) == y / Pow(2, m)
  {
    hide BitOf; hide Pow;
    PowPositive(2, m);
    var p, n := Pow(2, m), 8 - m;
    forall k | 0 <= k < n ensures BitOf(x / p, k) == BitOf(y / p, k) {
      ShiftedBit(x, m, k);
      ShiftedBit(y, m, k);
    }
    PowAdd(2, n, m);
    EightBits();
    BelowQuotient(x, p, Pow(2, n));
    BelowQuotient(y, p, Pow(2, n));
    SameBits(x / p, y / p, n);
  }

  /** The words match entropy and checksum exactly when the checksum bits agree. */
  lemma ChecksumAgrees(idx: seq<nat>, bytes: seq<nat>, e: nat, sum: nat)
    requires Packed(idx, bytes) && AreBytes(bytes) && e < |bytes| && sum < 256
    requires 8 * e <= 11 * |idx| <= 8 * e + 8
    ensures var m := 8 * e + 8 - 11 * |idx|;
            Pow(2, m) > 0 && (Packed(idx, bytes[..e] + [sum]) <==> sum / Pow(2, m) == bytes[e] / Pow(2, m))
  {
    hide BitOf; hide Pow; hide Packed;
    var c := bytes[..e] + [sum];
    var m := 8 * e + 8 - 11 * |idx|;
    TopBits(sum, bytes[e], m);
    if Packed(idx, c) {
      forall k | m <= k < 8 ensures BitOf(sum, k) == BitOf(bytes[e], k) {
        PackedBit(idx, bytes, c, 8 * e + 7 - k);
        LastByte(bytes, c, e, k);
      }
    }
    if TopAgree(sum, bytes[e], m) {
      forall t | 0 <= t < 11 * |idx| ensures Bit(bytes, t) == Bit(c, t) {
        SameBit(bytes, c, e, t, m);
      }
      PackedFits(idx, bytes);
      PackedTransfer(idx, bytes, c);
    }
  }

  lemma LastByte(bytes: seq<nat>, c: seq<nat>, e: nat, k: nat)
    requires e < |bytes| && e < |c| && k < 8
    ensures Bit(bytes, 8 * e + 7 - k) == BitOf(bytes[e], k) && Bit(c, 8 * e + 7 - k) == BitOf(c[e], k)
  {
    hide BitOf;
    var t := 8 * e + 7 - k;
    assert t / 8 == e && 7 - t % 8 == k;
  }

  lemma SameBit(bytes: seq<nat>, c: seq<nat>, e: nat, t: nat, m: nat)
    requires e < |bytes| && |c| == e + 1 && c[..e] == bytes[..e] && m <= 8 && t < 8 * e + 8 - m
    requires TopAgree(c[e], bytes[e], m)
    ensures Bit(bytes, t) == Bit(c, t)
  {
    hide BitOf;
    if t < 8 * e {
      assert bytes[t / 8] == bytes[..e][t / 8] && c[t / 8] == c[..e][t / 8];
    } else {
      LastByte(bytes, c, e, 7 - t % 8);
    }
  }

  lemma MnemonicReads(words: seq<string>, h: seq<nat> -> seq<nat>, data: seq<nat>)
    requires IsWordList(words) && IsHash(h) && IsLength(|data|)
    ensures Reads(words, Mnemonic(words, h, data), Indices(Checksummed(data, h), |data| * 3 / 4))
  {
    MnemonicWords(words, h, data);
  }

  lemma ReadsSame(words: seq<string>, mnemonic: string, other: string, idx: seq<nat>)
    requires Reads(words, mnemonic, idx) && Reads(words, other, idx)
    ensures mnemonic == other
  {
    assert (mnemonic + " ")[..|mnemonic|] == mnemonic && (other + " ")[..|other|] == other;
  }

  lemma {:induction false} ReadsUnique(words: seq<string>, a: seq<nat>, b: seq<nat>)
    requires IsWordList(words) && AreIndices(a) && AreIndices(b) && Terminated(words, a) == Terminated(words, b)
    ensures a == b
    decreases |a|
  {
    WordCount(words, a);
    WordCount(words, b);
    if a != [] {
      var n := |a| - 1;
      var s, w, t, v := Terminated(words, a[..n]), words[a[n]], Terminated(words, b[..n]), words[b[n]];
      LastWord(s, w, t, v);
      SameWord(words, a[n], b[n]);
      ReadsUnique(words, a[..n], b[..n]);
      assert a == a[..n] + [a[n]] && b == b[..n] + [b[n]];
    }
  }

  lemma LastWord(s: string, w: string, t: string, v: string)
    requires s + w + " " == t + v + " " && ' ' !in w && ' ' !in v
    requires s == "" || s[|s| - 1] == ' '
    requires t == "" || t[|t| - 1] == ' '
    ensures s == t && w == v
  {
    var m := s + w + " ";
    assert |s| == |t| by {
      assert |s| > 0 ==> m[|s| - 1] == ' ';
      assert |t| > 0 ==> m[|t| - 1] == ' ';
      assert forall k :: |s| <= k < |s| + |w| ==> m[k] == w[k - |s|] && w[k - |s|] in w;
      assert forall k :: |t| <= k < |t| + |v| ==> m[k] == v[k - |t|] && v[k - |t|] in v;
    }
    assert s == m[..|s|] && t == m[..|t|];
    assert w == m[|s|..|m| - 1] && v == m[|t|..|m| - 1];
  }

  lemma Verdict(words: seq<string>, h: seq<nat> -> seq<nat>, mnemonic: string, idx: seq<nat>, bytes: seq<nat>)
    requires IsWordList(words) && IsHash(h) && Reads(words, mnemonic, idx) && |idx| in {12, 18, 24}
    requires Filled(bytes, idx, 11 * |idx|) && |bytes| == 33
    ensures var e := |idx| * 4 / 3; var m := 8 * e + 8 - 11 * |idx|;
            Pow(2, m) > 0 && (IsMnemonic(words, h, mnemonic) <==> h(bytes[..e])[0] / Pow(2, m) == bytes[e] / Pow(2, m))
  {
    hide Filled; hide Reads; hide Packed; hide Pow; hide Mnemonic; hide Indices; hide Terminated; hide IsWordList;
    ListSize(words);
    FilledPacked(idx, bytes);
    var e := |idx| * 4 / 3;
    var data := bytes[..e];
    assert IsEntropy(data) && |data| * 3 / 4 == |idx|;
    ChecksumAgrees(idx, bytes, e, h(data)[0]);
    if Packed(idx, Checksummed(data, h)) {
      AcceptsPacked(words, h, mnemonic, idx, data);
    }
    if IsMnemonic(words, h, mnemonic) {
      var d :| IsEntropy(d) && mnemonic == Mnemonic(words, h, d);
      OnlyEntropy(words, h, mnemonic, idx, bytes, d);
    }
  }

  lemma AcceptsPacked(words: seq<string>, h: seq<nat> -> seq<nat>, mnemonic: string, idx: seq<nat>, data: seq<nat>)
    requires IsWordList(words) && IsHash(h) && Reads(words, mnemonic, idx) && IsEntropy(data) && |data| * 3 / 4 == |idx|
    requires Packed(idx, Checksummed(data, h))
    ensures IsMnemonic(words, h, mnemonic)
  {
    hide Packed; hide Terminated; hide Mnemonic; hide Indices;
    PackedUnique(idx, Checksummed(data, h));
    MnemonicReads(words, h, data);
    ReadsSame(words, mnemonic, Mnemonic(words, h, data), idx);
  }

  /** The entropy behind an accepted mnemonic can only be what its words spell out. */
  lemma OnlyEntropy(words: seq<string>, h: seq<nat> -> seq<nat>, mnemonic: string, idx: seq<nat>, bytes: seq<nat>, d: seq<nat>)
    requires IsWordList(words) && IsHash(h) && Reads(words, mnemonic, idx) && |idx| in {12, 18, 24}
    requires Packed(idx, bytes) && AreBytes(bytes) && |bytes| == 33
    requires IsEntropy(d) && mnemonic == Mnemonic(words, h, d)
    ensures var data := bytes[..|idx| * 4 / 3]; d == data && Packed(idx, Checksummed(data, h))
  {
    hide Packed; hide Terminated; hide Mnemonic; hide Indices;
    var all := Checksummed(d, h);
    var other := Indices(all, |d| * 3 / 4);
    MnemonicReads(words, h, d);
    ReadsUnique(words, idx, other);
    IndicesPacked(all, |d| * 3 / 4);
    PackedBytes(idx, bytes, all, |d|);
    assert all[..|d|] == d;
  }

  /** Check accepts exactly the mnemonics of 16, 24 or 32 bytes. */
  method Check(words: seq<string>, h: seq<nat> -> seq<nat>, mnemonic: string) returns (r: bool)
    requires IsWordList(words) && IsHash(h)
    ensures r <==> IsMnemonic(words, h, mnemonic)
  {
    hide Filled; hide Reads; hide IsMnemonic; hide IsWordList; hide Blanks; hide Pow; hide IsHash;
    ListSize(words);
    MnemonicNeeds(words, h, mnemonic);
    if mnemonic == "" {
      NoBlanks(mnemonic);
      return false;
    }
    var nWordCount := CountWords(mnemonic);
    if nWordCount != 12 && nWordCount != 18 && nWordCount != 24 {
      return false;
    }
    var bits := new nat[33](_ => 0);
    var ok, nBitsCount; ghost var idx;
    ok, nBitsCount, idx := ReadWords(words, mnemonic, nWordCount, bits);
    if !ok || nBitsCount != nWordCount * 11 {
      return false;
    }
    Verdict(words, h, mnemonic, idx, bits[..]);
    var n := nWordCount * 4 / 3;
    ghost var before := bits[..];
    bits[32] := bits[n];
    var digest := HashOf(h, bits[..n]);
    assert bits[..n] == before[..n];
    forall k | 0 <= k < 32 {
      bits[k] := digest[k];
    }
    Masks();
    if nWordCount == 12 {
      r := bits[0] / 16 == bits[32] / 16;
    } else if nWordCount == 18 {
      r := bits[0] / 4 == bits[32] / 4;
    } else {
      r := bits[0] == bits[32];
    }
  }

  lemma Masks()
    ensures Pow(2, 4) == 16 && Pow(2, 2) == 4 && Pow(2, 0) == 1
  {
  }

  lemma MnemonicNeeds(words: seq<string>, h: seq<nat> -> seq<nat>, mnemonic: string)
    requires IsWordList(words) && IsHash(h)
    ensures IsMnemonic(words, h, mnemonic) ==> Blanks(mnemonic) + 1 in {12, 18, 24} && exists idx :: Reads(words, mnemonic, idx)
  {
    hide Terminated; hide Blanks; hide Mnemonic; hide Indices;
    if IsMnemonic(words, h, mnemonic) {
      var d :| IsEntropy(d) && mnemonic == Mnemonic(words, h, d);
      WordTotal(words, h, d);
      MnemonicReads(words, h, d);
    }
  }
}
