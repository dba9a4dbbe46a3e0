/** Mnemonics: entropy and its checksum as words of eleven bits. */
module Bip39Model {
  import opened Common
  import opened Bits
  import opened Powers

  /** 2048 different words, none empty, none longer than nine letters, without blanks. */
  ghost predicate IsWordList(words: seq<string>) {
    && |words| == 2048
    && (forall i :: 0 <= i < |words| ==> 0 < |words[i]| <= 9 && ' ' !in words[i])
    && forall i, j :: 0 <= i < j < |words| ==> words[i] != words[j]
  }

  // ----- Bits of a buffer -----

  /** Bit `k` of a sequence of bytes, the highest bit of each byte first. */
  predicate Bit(bytes: seq<nat>, k: nat)
    requires k < 8 * |bytes|
  {
    BitOf(bytes[k / 8], 7 - k % 8)
  }

  /** The first `j` of the eleven bits of word `i`, as a number. */
  function IndexAt(bytes: seq<nat>, i: nat, j: nat): (r: nat)
    requires j <= 11 && 11 * i + j <= 8 * |bytes|
    ensures r < Pow(2, j)
  {
    if j == 0 then 0
    else 2 * IndexAt(bytes, i, j - 1) + (if Bit(bytes, 11 * i + j - 1) then 1 else 0)
  }

  function Indices(bytes: seq<nat>, n: nat): (idx: seq<nat>)
    requires 11 * n <= 8 * |bytes|
    ensures |idx| == n && forall i :: 0 <= i < n ==> idx[i] == IndexAt(bytes, i, 11) < 2048
  {
    assert Pow(2, 11) == 2048;
    seq<nat>(n, i requires 0 <= i < n => IndexAt(bytes, i, 11))
  }

  predicate AreIndices(idx: seq<nat>) {
    forall i :: 0 <= i < |idx| ==> idx[i] < 2048
  }

  /** Bit `k` of a sequence of word indices, eleven bits each. */
  predicate WordBit(idx: seq<nat>, k: nat)
    requires k < 11 * |idx|
  {
    BitOf(idx[k / 11], 10 - k % 11)
  }

  /** The bits of the words, eleven each, are the first bits of the bytes. */
  ghost predicate Packed(idx: seq<nat>, bytes: seq<nat>) {
    && 11 * |idx| <= 8 * |bytes|
    && forall k :: 0 <= k < 11 * |idx| ==> WordBit(idx, k) == Bit(bytes, k)
  }

  lemma {:induction false} IndexBit(bytes: seq<nat>, i: nat, n: nat, j: nat)
    requires j < n <= 11 && 11 * i + n <= 8 * |bytes|
    ensures BitOf(IndexAt(bytes, i, n), n - 1 - j) == Bit(bytes, 11 * i + j)
    decreases n
  {
    if j < n - 1 {
      IndexBit(bytes, i, n - 1, j);
      assert IndexAt(bytes, i, n) / 2 == IndexAt(bytes, i, n - 1);
    }
  }

  lemma IndicesPacked(bytes: seq<nat>, n: nat)
    requires 11 * n <= 8 * |bytes|
    ensures Packed(Indices(bytes, n), bytes)
  {
    hide IndexAt;
    forall k | 0 <= k < 11 * n ensures WordBit(Indices(bytes, n), k) == Bit(bytes, k) {
      IndexBit(bytes, k / 11, 11, k % 11);
    }
  }

  lemma PackedUnique(idx: seq<nat>, bytes: seq<nat>)
    requires Packed(idx, bytes) && AreIndices(idx)
    ensures idx == Indices(bytes, |idx|)
  {
    hide IndexAt; hide Bit;
    var other := Indices(bytes, |idx|);
    IndicesPacked(bytes, |idx|);
    assert Pow(2, 11) == 2048;
    forall i | 0 <= i < |idx| ensures idx[i] == other[i] {
      forall k | 0 <= k < 11 ensures BitOf(idx[i], k) == BitOf(other[i], k) {
        var t := 11 * i + 10 - k;
        assert t / 11 == i && 10 - t % 11 == k;
        assert WordBit(idx, t) == Bit(bytes, t) == WordBit(other, t);
      }
      SameBits(idx[i], other[i], 11);
    }
  }

  /** Words fix the bits of the buffer they are packed into. */
  lemma PackedBit(idx: seq<nat>, a: seq<nat>, b: seq<nat>, k: nat)
    requires Packed(idx, a) && Packed(idx, b) && k < 11 * |idx|
    ensures Bit(a, k) == Bit(b, k)
  {
    assert WordBit(idx, k) == Bit(a, k) == Bit(b, k);
  }

  lemma PackedBytes(idx: seq<nat>, a: seq<nat>, b: seq<nat>, n: nat)
    requires Packed(idx, a) && Packed(idx, b) && AreBytes(a) && AreBytes(b)
    requires 8 * n <= 11 * |idx|
    ensures a[..n] == b[..n]
  {
    hide Packed;
    PackedFits(idx, a);
    PackedFits(idx, b);
    assert Pow(2, 8) == 256;
    forall i | 0 <= i < n ensures a[i] == b[i] {
      forall k | 0 <= k < 8 ensures BitOf(a[i], k) == BitOf(b[i], k) {
        var t := 8 * i + 7 - k;
        PackedBit(idx, a, b, t);
        assert t / 8 == i && 7 - t % 8 == k;
      }
      SameBits(a[i], b[i], 8);
    }
  }

  lemma PackedFits(idx: seq<nat>, a: seq<nat>)
    requires Packed(idx, a)
    ensures 11 * |idx| <= 8 * |a|
  {
  }

  /** Only the first bits matter. */
  lemma PackedTransfer(idx: seq<nat>, a: seq<nat>, b: seq<nat>)
    requires Packed(idx, a) && 11 * |idx| <= 8 * |b|
    requires forall k :: 0 <= k < 11 * |idx| ==> Bit(a, k) == Bit(b, k)
    ensures Packed(idx, b)
  {
    hide Bit; hide WordBit;
  }

  // ----- Words -----

  /** The words, each followed by a blank. */
  function Terminated(words: seq<string>, idx: seq<nat>): (s: string)
    requires |words| == 2048 && AreIndices(idx)
  {
    if idx == [] then "" else Terminated(words, idx[..|idx| - 1]) + words[idx[|idx| - 1]] + " "
  }

  lemma TerminatedAppend(words: seq<string>, idx: seq<nat>, x: nat)
    requires |words| == 2048 && AreIndices(idx) && x < 2048
    ensures AreIndices(idx + [x]) && Terminated(words, idx + [x]) == Terminated(words, idx) + words[x] + " "
  {
    assert (idx + [x])[..|idx|] == idx;
  }

  /** Splitting after the first words. */
  lemma {:induction false} TerminatedSplit(words: seq<string>, idx: seq<nat>, k: nat)
    requires |words| == 2048 && AreIndices(idx) && k <= |idx|
    ensures Terminated(words, idx) == Terminated(words, idx[..k]) + Terminated(words, idx[k..])
    decreases |idx|
  {
    if k == |idx| {
      assert idx[..k] == idx && idx[k..] == [];
    } else {
      var n := |idx| - 1;
      TerminatedSplit(words, idx[..n], k);
      assert idx[..n][..k] == idx[..k] && idx[..n][k..] == idx[k..][..n - k];
      assert idx[k..][|idx[k..]| - 1] == idx[n];
    }
  }

  /** The words with single blanks between them. */
  function Joined(words: seq<string>, idx: seq<nat>): (s: string)
    requires |words| == 2048 && AreIndices(idx)
    ensures idx != [] ==> s + " " == Terminated(words, idx)
  {
    var t := Terminated(words, idx);
    if idx == [] then "" else t[..|t| - 1]
  }

  function Blanks(s: string): nat {
    if s == [] then 0 else Blanks(s[..|s| - 1]) + (if s[|s| - 1] == ' ' then 1 else 0)
  }

  lemma {:induction false} BlanksConcat(a: string, b: string)
    ensures Blanks(a + b) == Blanks(a) + Blanks(b)
    decreases |b|
  {
    if b == [] {
      assert a + b == a;
    } else {
      BlanksConcat(a, b[..|b| - 1]);
      assert (a + b)[..|a + b| - 1] == a + b[..|b| - 1];
    }
  }

  lemma {:induction false} NoBlanks(s: string)
    requires ' ' !in s
    ensures Blanks(s) == 0
  {
    if s != [] {
      NoBlanks(s[..|s| - 1]);
    }
  }

  lemma {:induction false} WordCount(words: seq<string>, idx: seq<nat>)
    requires IsWordList(words) && AreIndices(idx)
    ensures Blanks(Terminated(words, idx)) == |idx|
  {
    if idx != [] {
      var n := |idx| - 1;
      var t, w := Terminated(words, idx[..n]), words[idx[n]];
      WordCount(words, idx[..n]);
      NoBlanks(w);
      BlanksConcat(t, w);
      BlanksConcat(t + w, " ");
      assert Blanks(" ") == 1 by { assert " "[..0] == ""; }
    }
  }

  // ----- FromData and Check -----

  predicate IsLength(len: int) {
    len % 4 == 0 && 16 <= len <= 32
  }

  function Checksummed(data: seq<nat>, h: seq<nat> -> seq<nat>): (r: seq<nat>)
    requires IsHash(h)
    ensures |r| == |data| + 1
  {
    data + [h(data)[0]]
  }

  /** The mnemonic of some entropy. */
  function Mnemonic(words: seq<string>, h: seq<nat> -> seq<nat>, data: seq<nat>): (s: string)
    requires |words| == 2048 && IsHash(h) && IsLength(|data|)
  {
    Joined(words, Indices(Checksummed(data, h), |data| * 3 / 4))
  }

  predicate IsEntropy(data: seq<nat>) {
    AreBytes(data) && |data| in {16, 24, 32}
  }

  /** A mnemonic of 16, 24 or 32 bytes of entropy. */
  ghost predicate IsMnemonic(words: seq<string>, h: seq<nat> -> seq<nat>, s: string)
    requires |words| == 2048 && IsHash(h)
  {
    exists data :: IsEntropy(data) && s == Mnemonic(words, h, data)
  }

  lemma MnemonicWords(words: seq<string>, h: seq<nat> -> seq<nat>, data: seq<nat>)
    requires IsWordList(words) && IsHash(h) && IsLength(|data|)
    ensures Blanks(Mnemonic(words, h, data)) + 1 == |data| * 3 / 4
    ensures Mnemonic(words, h, data) + " " == Terminated(words, Indices(Checksummed(data, h), |data| * 3 / 4))
  {
    hide Terminated; hide Blanks;
    var idx := Indices(Checksummed(data, h), |data| * 3 / 4);
    WordCount(words, idx);
    BlanksConcat(Mnemonic(words, h, data), " ");
    assert Blanks(" ") == 1 by { OneBlank(); }
  }

  lemma OneBlank()
    ensures Blanks(" ") == 1
  {
    assert " "[..0] == "";
  }

  /** What FromData returns. */
  function FromDataResult(words: seq<string>, h: seq<nat> -> seq<nat>, data: seq<nat>, len: int): (s: string)
    requires |words| == 2048 && IsHash(h) && (IsLength(len) ==> len <= |data|)
  {
    if IsLength(len) then Mnemonic(words, h, data[..len]) else ""
  }

  /** Of the five lengths FromData accepts, Check accepts the results of three. */
  lemma FromDataAccepted(words: seq<string>, h: seq<nat> -> seq<nat>, data: seq<nat>, len: int)
    requires IsWordList(words) && IsHash(h) && AreBytes(data) && (IsLength(len) ==> len <= |data|)
    ensures IsMnemonic(words, h, FromDataResult(words, h, data, len)) <==> len in {16, 24, 32}
  {
    hide Blanks; hide Mnemonic; hide IsHash;
    var s := FromDataResult(words, h, data, len);
    if len in {16, 24, 32} {
      assert IsEntropy(data[..len]);
    }
    if IsMnemonic(words, h, s) {
      var d :| IsEntropy(d) && s == Mnemonic(words, h, d);
      WordTotal(words, h, d);
      if IsLength(len) {
        WordTotal(words, h, data[..len]);
      } else {
        NoBlanks("");
        assert false;
      }
    }
  }

  /** The lengths FromData accepts give 12, 15, 18, 21 or 24 words. */
  lemma WordTotal(words: seq<string>, h: seq<nat> -> seq<nat>, data: seq<nat>)
    requires IsWordList(words) && IsHash(h) && IsLength(|data|)
    ensures var n := Blanks(Mnemonic(words, h, data));
            n > 0 && (|data| in {16, 24, 32} <==> n in {11, 17, 23})
  {
    hide Blanks; hide Mnemonic; hide IsWordList; hide IsHash; hide Terminated; hide Indices; hide Checksummed;
    MnemonicWords(words, h, data);
  }

  /** Twenty zero bytes are turned into fifteen words that Check refuses. */
  lemma TwentyBytesRefused(words: seq<string>, h: seq<nat> -> seq<nat>)
    requires IsWordList(words) && IsHash(h)
    ensures var data := seq<nat>(20, _ => 0);
            && FromDataResult(words, h, data, 20) == Mnemonic(words, h, data)
            && !IsMnemonic(words, h, Mnemonic(words, h, data))
  {
    hide Mnemonic;
    var data := seq<nat>(20, _ => 0);
    FromDataAccepted(words, h, data, 20);
    assert data[..20] == data;
  }

  /** The bits to spell: those of the data, then the first of the hash, one for every four bytes. */
  predicate DataBit(h: seq<nat> -> seq<nat>, data: seq<nat>, k: nat)
    requires IsHash(h) && 4 * k < 33 * |data| && |data| <= 32
  {
    if k < 8 * |data| then BitOf(data[k / 8], 7 - k % 8) else BitOf(h(data)[0], 7 - (k - 8 * |data|))
  }

  /** Three words for every four bytes, with exactly these bits. */
  ghost predicate SpelledBy(h: seq<nat> -> seq<nat>, data: seq<nat>, idx: seq<nat>)
    requires IsHash(h) && IsLength(|data|)
  {
    && 4 * |idx| == 3 * |data| && AreIndices(idx)
    && forall k :: 0 <= k < 11 * |idx| ==> WordBit(idx, k) == DataBit(h, data, k)
  }

  lemma ChecksummedBit(h: seq<nat> -> seq<nat>, data: seq<nat>, k: nat)
    requires IsHash(h) && 4 * k < 33 * |data| && |data| <= 32
    ensures k < 8 * |Checksummed(data, h)| && Bit(Checksummed(data, h), k) == DataBit(h, data, k)
  {
    hide BitOf; hide IsHash;
    if k >= 8 * |data| {
      assert k / 8 == |data| && k % 8 == k - 8 * |data|;
    } else {
      assert k / 8 < |data|;
    }
  }

  /** A mnemonic is the words that spell its data and checksum. */
  lemma MnemonicSpells(words: seq<string>, h: seq<nat> -> seq<nat>, data: seq<nat>) returns (idx: seq<nat>)
    requires IsWordList(words) && IsHash(h) && IsLength(|data|)
    ensures SpelledBy(h, data, idx) && Mnemonic(words, h, data) == Joined(words, idx)
  {
    hide IndexAt; hide BitOf; hide Joined; hide IsWordList; hide IsHash; hide Bit; hide DataBit; hide WordBit; hide Checksummed;
    var bytes := Checksummed(data, h);
    idx := Indices(bytes, |data| * 3 / 4);
    IndicesPacked(bytes, |idx|);
    forall k | 0 <= k < 11 * |idx| ensures WordBit(idx, k) == DataBit(h, data, k) {
      ChecksummedBit(h, data, k);
    }
  }

  /** No other words do. */
  lemma SpellingUnique(h: seq<nat> -> seq<nat>, data: seq<nat>, a: seq<nat>, b: seq<nat>)
    requires IsHash(h) && IsLength(|data|) && SpelledBy(h, data, a) && SpelledBy(h, data, b)
    ensures a == b
  {
    hide BitOf; hide IsHash; hide DataBit;
    assert Pow(2, 11) == 2048;
    forall i | 0 <= i < |a| ensures a[i] == b[i] {
      forall k | 0 <= k < 11 ensures BitOf(a[i], k) == BitOf(b[i], k) {
        var t := 11 * i + 10 - k;
        assert t / 11 == i && 10 - t % 11 == k;
        assert WordBit(a, t) == DataBit(h, data, t) == WordBit(b, t);
      }
      SameBits(a[i], b[i], 11);
    }
  }
}
