/** Bloom filters as values: what insertion, matching and rolling do to the keys they contain. */
module BloomModel {
  import opened Common
  import opened Bits
  import Limbs
  import opened Powers

  const MULTIPLIER := 0xFBA4C795
  const WORD := 0x1_0000_0000
  const UPDATE_ALL := 1
  const UPDATE_P2PUBKEY_ONLY := 2

  type Key = seq<nat>

  /** The hash function, and the serialised form of the hashes and outpoints looked up. */
  datatype Keys = Keys(murmur: (nat, Key) -> nat, hashKey: nat -> Key, outKey: OutPoint -> Key)

  /** A script is what GetOp finds in it: the data of each operation up to its end or a malformed one. */
  datatype TxOut = TxOut(pushes: seq<Key>, payToKeys: bool)
  datatype TxIn = TxIn(prevout: OutPoint, pushes: seq<Key>)
  datatype Tx = Tx(hash: nat, vout: seq<TxOut>, vin: seq<TxIn>)

  datatype Filter = Filter(data: seq<nat>, isFull: bool, isEmpty: bool, nHashFuncs: nat, nTweak: nat, nFlags: nat)

  /** Bytes, and not a single one missing when there is something to hash. */
  predicate Usable(f: Filter) {
    (forall i :: 0 <= i < |f.data| ==> f.data[i] < 256) && (f.nHashFuncs > 0 && !f.isFull ==> |f.data| > 0)
  }

  function Index(ks: Keys, size: nat, nTweak: nat, i: nat, key: Key): (r: nat)
    requires size > 0
    ensures r < 8 * size
  {
    ks.murmur((i * MULTIPLIER + nTweak) % WORD, key) % (8 * size)
  }

  predicate HasBit(data: seq<nat>, k: nat)
    requires k < 8 * |data|
  {
    BitOf(data[k / 8], k % 8)
  }

  function PutBit(data: seq<nat>, k: nat): seq<nat>
    requires k < 8 * |data|
  {
    data[k / 8 := Limbs.Or(data[k / 8], Pow(2, k % 8))]
  }

  /** The bits of the first `n` hash functions set. */
  function PutBits(ks: Keys, data: seq<nat>, nTweak: nat, key: Key, n: nat): (r: seq<nat>)
    requires n > 0 ==> |data| > 0
    ensures |r| == |data|
  {
    if n == 0 then data
    else
      var r := PutBits(ks, data, nTweak, key, n - 1);
      PutBit(r, Index(ks, |data|, nTweak, n - 1, key))
  }

  predicate AllBits(ks: Keys, data: seq<nat>, nTweak: nat, key: Key, n: nat)
    requires n > 0 ==> |data| > 0
  {
    forall i :: 0 <= i < n ==> HasBit(data, Index(ks, |data|, nTweak, i, key))
  }

  function Insert(ks: Keys, f: Filter, key: Key): Filter
    requires Usable(f)
  {
    if f.isFull then f
    else f.(data := PutBits(ks, f.data, f.nTweak, key, f.nHashFuncs), isEmpty := false)
  }

  predicate Contains(ks: Keys, f: Filter, key: Key)
    requires Usable(f)
  {
    f.isFull || (!f.isEmpty && AllBits(ks, f.data, f.nTweak, key, f.nHashFuncs))
  }

  // ----- Insertion -----

  lemma PutBitHas(data: seq<nat>, k: nat)
    requires k < 8 * |data| && forall i :: 0 <= i < |data| ==> data[i] < 256
    ensures forall i :: 0 <= i < |data| ==> PutBit(data, k)[i] < 256
    ensures forall t :: 0 <= t < 8 * |data| ==> HasBit(PutBit(data, k), t) == (HasBit(data, t) || t == k)
  {
    hide Limbs.Or; hide BitOf; hide Pow;
    SetBit(data[k / 8], k % 8);
  }

  lemma {:induction false} PutBitsHas(ks: Keys, data: seq<nat>, nTweak: nat, key: Key, n: nat)
    requires (n > 0 ==> |data| > 0) && forall i :: 0 <= i < |data| ==> data[i] < 256
    ensures var r := PutBits(ks, data, nTweak, key, n);
            && (forall i :: 0 <= i < |r| ==> r[i] < 256)
            && (forall t :: 0 <= t < 8 * |r| && HasBit(data, t) ==> HasBit(r, t))
            && AllBits(ks, r, nTweak, key, n)
  {
    hide HasBit; hide PutBit; hide Index;
    if n > 0 {
      PutBitsHas(ks, data, nTweak, key, n - 1);
      PutBitHas(PutBits(ks, data, nTweak, key, n - 1), Index(ks, |data|, nTweak, n - 1, key));
    }
  }

  /** An inserted key is contained, and no key is lost. */
  lemma InsertKeeps(ks: Keys, f: Filter, key: Key, other: Key)
    requires Usable(f)
    ensures Usable(Insert(ks, f, key)) && Contains(ks, Insert(ks, f, key), key)
    ensures Contains(ks, f, other) ==> Contains(ks, Insert(ks, f, key), other)
  {
    hide HasBit; hide PutBits; hide Index;
    if !f.isFull {
      PutBitsHas(ks, f.data, f.nTweak, key, f.nHashFuncs);
    }
  }

  // ----- UpdateEmptyFull -----

  predicate Full(data: seq<nat>) {
    forall i :: 0 <= i < |data| ==> data[i] == 0xff
  }

  predicate Empty(data: seq<nat>) {
    forall i :: 0 <= i < |data| ==> data[i] == 0
  }

  function UpdateEmptyFull(f: Filter): Filter {
    f.(isFull := Full(f.data), isEmpty := Empty(f.data))
  }

  /** The flag says full only when every bit is set. */
  predicate Consistent(f: Filter) {
    Usable(f) && |f.data| > 0 && (f.isFull ==> Full(f.data))
  }

  /** It loses no key of a filter that has a hash function. */
  lemma UpdateKeeps(ks: Keys, f: Filter, key: Key)
    requires Consistent(f) && f.nHashFuncs > 0
    ensures Consistent(UpdateEmptyFull(f)) && (Contains(ks, f, key) ==> Contains(ks, UpdateEmptyFull(f), key))
  {
    hide Index; hide BitOf;
    if Contains(ks, f, key) && !f.isFull {
      var k := Index(ks, |f.data|, f.nTweak, 0, key);
      assert HasBit(f.data, k);
      ZeroBit(k % 8);
    }
  }

  /** Without one, a key just inserted is kept exactly if the filter already had a bit set. */
  lemma UpdateAfterInsert(ks: Keys, f: Filter, key: Key)
    requires Consistent(f)
    ensures Usable(UpdateEmptyFull(Insert(ks, f, key)))
    ensures Contains(ks, UpdateEmptyFull(Insert(ks, f, key)), key) <==> f.nHashFuncs > 0 || !Empty(f.data)
  {
    InsertKeeps(ks, f, key, key);
    if f.nHashFuncs > 0 {
      UpdateKeeps(ks, Insert(ks, f, key), key);
    } else {
      assert Insert(ks, f, key).data == f.data;
      assert Full(f.data) ==> f.data[0] == 0xff;
      assert Empty(f.data) ==> f.data[0] == 0;
    }
  }

  /** One byte and no hash function: the key is there, and gone after the refresh. */
  lemma UpdateForgets(ks: Keys, key: Key)
    ensures var f := Insert(ks, Filter([0], false, true, 0, 0, UPDATE_ALL), key);
            Consistent(f) && Contains(ks, f, key) && !Contains(ks, UpdateEmptyFull(f), key)
  {
    var f := Filter([0], false, true, 0, 0, UPDATE_ALL);
    InsertKeeps(ks, f, key, key);
    UpdateAfterInsert(ks, f, key);
  }

  // ----- IsRelevantAndUpdate -----

  predicate MatchesAny(ks: Keys, f: Filter, pushes: seq<Key>)
    requires Usable(f)
  {
    exists k :: 0 <= k < |pushes| && pushes[k] != [] && Contains(ks, f, pushes[k])
  }

  predicate Updates(f: Filter, o: TxOut) {
    f.nFlags % 4 == UPDATE_ALL || (f.nFlags % 4 == UPDATE_P2PUBKEY_ONLY && o.payToKeys)
  }

  /** The filter after the first `n` outputs, and whether one of them matched. */
  function Outputs(ks: Keys, f: Filter, tx: Tx, n: nat): (r: (Filter, bool))
    requires Usable(f) && n <= |tx.vout|
    ensures Usable(r.0)
  {
    if n == 0 then (f, false)
    else
      var (g, found) := Outputs(ks, f, tx, n - 1);
      var o := tx.vout[n - 1];
      if !MatchesAny(ks, g, o.pushes) then (g, found)
      else if Updates(g, o) then
        InsertKeeps(ks, g, ks.outKey(OutPoint(tx.hash, n - 1)), []);
        (Insert(ks, g, ks.outKey(OutPoint(tx.hash, n - 1))), true)
      else (g, true)
  }

  predicate MatchesInput(ks: Keys, f: Filter, txin: TxIn)
    requires Usable(f)
  {
    Contains(ks, f, ks.outKey(txin.prevout)) || MatchesAny(ks, f, txin.pushes)
  }

  function IsRelevantAndUpdate(ks: Keys, f: Filter, tx: Tx): (r: (Filter, bool))
    requires Usable(f)
    ensures Usable(r.0)
  {
    if f.isFull then (f, true)
    else if f.isEmpty then (f, false)
    else
      var (g, found) := Outputs(ks, f, tx, |tx.vout|);
      (g, Contains(ks, f, ks.hashKey(tx.hash)) || found || exists i :: 0 <= i < |tx.vin| && MatchesInput(ks, g, tx.vin[i]))
  }

  /** Output `i` of the transaction matches when its turn comes. */
  predicate OutputMatched(ks: Keys, f: Filter, tx: Tx, i: nat)
    requires Usable(f)
  {
    !f.isFull && !f.isEmpty && i < |tx.vout| && MatchesAny(ks, Outputs(ks, f, tx, i).0, tx.vout[i].pushes)
  }

  lemma {:induction false} OutputsKeep(ks: Keys, f: Filter, tx: Tx, n: nat, key: Key)
    requires Usable(f) && n <= |tx.vout|
    ensures var g := Outputs(ks, f, tx, n).0;
            && (Contains(ks, f, key) ==> Contains(ks, g, key))
            && (Consistent(f) ==> Consistent(g))
            && g.nHashFuncs == f.nHashFuncs && g.nFlags == f.nFlags && g.nTweak == f.nTweak && |g.data| == |f.data|
  {
    hide Contains; hide MatchesAny;
    if n > 0 {
      OutputsKeep(ks, f, tx, n - 1, key);
      InsertKeeps(ks, Outputs(ks, f, tx, n - 1).0, ks.outKey(OutPoint(tx.hash, n - 1)), key);
    }
  }

  /** One more output, when it matches under UPDATE_ALL and when some earlier key is looked for. */
  lemma OutputStep(ks: Keys, f: Filter, tx: Tx, n: nat, key: Key)
    requires Usable(f) && 0 < n <= |tx.vout|
    ensures var (g, found) := Outputs(ks, f, tx, n - 1); var (r, now) := Outputs(ks, f, tx, n);
            && (Contains(ks, g, key) ==> Contains(ks, r, key)) && (found ==> now)
            && (g.nFlags % 4 == UPDATE_ALL && MatchesAny(ks, g, tx.vout[n - 1].pushes) ==>
                now && Contains(ks, r, ks.outKey(OutPoint(tx.hash, n - 1))))
  {
    hide Contains; hide MatchesAny; hide Insert; hide Usable;
    var g := Outputs(ks, f, tx, n - 1).0;
    InsertKeeps(ks, g, ks.outKey(OutPoint(tx.hash, n - 1)), key);
  }

  lemma {:induction false} MatchedInserted(ks: Keys, f: Filter, tx: Tx, i: nat, n: nat)
    requires Usable(f) && f.nFlags % 4 == UPDATE_ALL && OutputMatched(ks, f, tx, i) && i < n <= |tx.vout|
    ensures Contains(ks, Outputs(ks, f, tx, n).0, ks.outKey(OutPoint(tx.hash, i))) && Outputs(ks, f, tx, n).1
    decreases n
  {
    hide Contains; hide MatchesAny; hide Outputs; hide Usable;
    var key := ks.outKey(OutPoint(tx.hash, i));
    OutputsKeep(ks, f, tx, n - 1, key);
    OutputStep(ks, f, tx, n, key);
    if i < n - 1 {
      MatchedInserted(ks, f, tx, i, n - 1);
    }
  }

  /** A filter that contains an outpoint finds every transaction that spends it. */
  lemma SpendFound(ks: Keys, f: Filter, tx: Tx, i: nat)
    requires Usable(f) && i < |tx.vin| && Contains(ks, f, ks.outKey(tx.vin[i].prevout))
    ensures IsRelevantAndUpdate(ks, f, tx).1
  {
    hide AllBits; hide MatchesAny; hide Outputs;
    if !f.isFull {
      OutputsKeep(ks, f, tx, |tx.vout|, ks.outKey(tx.vin[i].prevout));
      assert MatchesInput(ks, Outputs(ks, f, tx, |tx.vout|).0, tx.vin[i]);
    }
  }

  // ----- Runs without clear or reset -----

  datatype Op = OpInsert(key: Key) | OpMatch(tx: Tx) | OpUpdate

  function Step(ks: Keys, f: Filter, op: Op): (r: Filter)
    requires Consistent(f)
    ensures Consistent(r)
  {
    match op
    case OpInsert(key) => InsertKeeps(ks, f, key, []); Insert(ks, f, key)
    case OpMatch(tx) => OutputsKeep(ks, f, tx, |tx.vout|, []); IsRelevantAndUpdate(ks, f, tx).0
    case OpUpdate => UpdateEmptyFull(f)
  }

  function Run(ks: Keys, f: Filter, ops: seq<Op>): (r: Filter)
    requires Consistent(f)
    ensures Consistent(r)
    decreases |ops|
  {
    if ops == [] then f else Run(ks, Step(ks, f, ops[0]), ops[1..])
  }

  lemma StepKeeps(ks: Keys, f: Filter, op: Op, key: Key)
    requires Consistent(f) && f.nHashFuncs > 0
    ensures Step(ks, f, op).nHashFuncs == f.nHashFuncs
    ensures Contains(ks, f, key) ==> Contains(ks, Step(ks, f, op), key)
  {
    hide Contains; hide Outputs;
    match op
    case OpInsert(k) => InsertKeeps(ks, f, k, key);
    case OpMatch(tx) => OutputsKeep(ks, f, tx, |tx.vout|, key);
    case OpUpdate => UpdateKeeps(ks, f, key);
  }

  lemma {:induction false} RunKeeps(ks: Keys, f: Filter, ops: seq<Op>, key: Key)
    requires Consistent(f) && f.nHashFuncs > 0 && Contains(ks, f, key)
    ensures Contains(ks, Run(ks, f, ops), key)
    decreases |ops|
  {
    hide Contains; hide Step;
    if ops != [] {
      StepKeeps(ks, f, ops[0], key);
      RunKeeps(ks, Step(ks, f, ops[0]), ops[1..], key);
    }
  }

  /** Once an output matched under UPDATE_ALL, every later transaction that spends it is relevant. */
  lemma SpendStaysRelevant(ks: Keys, f: Filter, tx: Tx, i: nat, ops: seq<Op>, spender: Tx, j: nat)
    requires Consistent(f) && f.nHashFuncs > 0 && f.nFlags % 4 == UPDATE_ALL && OutputMatched(ks, f, tx, i)
    requires j < |spender.vin| && spender.vin[j].prevout == OutPoint(tx.hash, i)
    ensures IsRelevantAndUpdate(ks, f, tx).1
    ensures IsRelevantAndUpdate(ks, Run(ks, Step(ks, f, OpMatch(tx)), ops), spender).1
  {
    hide Contains; hide Run; hide MatchesAny;
    var key := ks.outKey(OutPoint(tx.hash, i));
    MatchedInserted(ks, f, tx, i, |tx.vout|);
    StepKeeps(ks, f, OpMatch(tx), key);
    var g := Step(ks, f, OpMatch(tx));
    RunKeeps(ks, g, ops, key);
    SpendFound(ks, Run(ks, g, ops), spender, j);
  }

  // ----- The rolling filter -----

  function Clear(f: Filter): Filter {
    f.(data := seq<nat>(|f.data|, _ => 0), isFull := false, isEmpty := true)
  }

  datatype Rolling = Rolling(b1: Filter, b2: Filter, nInsertions: nat, nBloomSize: nat)

  predicate RollUsable(r: Rolling) {
    && Usable(r.b1) && Usable(r.b2) && !r.b1.isFull && !r.b2.isFull
    && r.nBloomSize > 0 && r.nBloomSize % 2 == 0 && r.nInsertions < r.nBloomSize
  }

  function RollInsert(ks: Keys, r: Rolling, key: Key): (s: Rolling)
    requires RollUsable(r)
    ensures RollUsable(s)
  {
    var b1 := if r.nInsertions == 0 then Clear(r.b1) else r.b1;
    var b2 := if r.nInsertions == r.nBloomSize / 2 then Clear(r.b2) else r.b2;
    InsertKeeps(ks, b1, key, []);
    InsertKeeps(ks, b2, key, []);
    Rolling(Insert(ks, b1, key), Insert(ks, b2, key),
            if r.nInsertions + 1 == r.nBloomSize then 0 else r.nInsertions + 1, r.nBloomSize)
  }

  predicate RollContains(ks: Keys, r: Rolling, key: Key)
    requires RollUsable(r)
  {
    if r.nInsertions < r.nBloomSize / 2 then Contains(ks, r.b2, key) else Contains(ks, r.b1, key)
  }

  /** The last `n` of the keys, or all if there are fewer, are contained. */
  ghost predicate Holds(ks: Keys, f: Filter, keys: seq<Key>, n: nat)
    requires Usable(f)
  {
    forall i :: 0 <= i < |keys| && |keys| - n <= i ==> Contains(ks, f, keys[i])
  }

  /** Staggered: what each half still holds of the keys inserted since the last reset. */
  ghost predicate RollInv(ks: Keys, r: Rolling, keys: seq<Key>) {
    && RollUsable(r)
    && Holds(ks, r.b1, keys, if r.nInsertions == 0 then r.nBloomSize else r.nInsertions)
    && Holds(ks, r.b2, keys, if r.nInsertions <= r.nBloomSize / 2 then r.nInsertions + r.nBloomSize / 2
                             else r.nInsertions - r.nBloomSize / 2)
  }

  lemma HoldsInsert(ks: Keys, f: Filter, keys: seq<Key>, n: nat, key: Key)
    requires Usable(f) && Holds(ks, f, keys, n)
    ensures Usable(Insert(ks, f, key)) && Holds(ks, Insert(ks, f, key), keys + [key], n + 1)
  {
    hide Contains; hide Insert;
    InsertKeeps(ks, f, key, key);
    var all := keys + [key];
    forall i | 0 <= i < |all| && |all| - (n + 1) <= i ensures Contains(ks, Insert(ks, f, key), all[i]) {
      InsertKeeps(ks, f, key, all[i]);
    }
  }

  lemma RollInsertKeeps(ks: Keys, r: Rolling, keys: seq<Key>, key: Key)
    requires RollInv(ks, r, keys)
    ensures RollInv(ks, RollInsert(ks, r, key), keys + [key])
  {
    hide Contains; hide Insert;
    var half := r.nBloomSize / 2;
    var n := r.nInsertions;
    var b1 := if n == 0 then Clear(r.b1) else r.b1;
    var b2 := if n == half then Clear(r.b2) else r.b2;
    HoldsInsert(ks, b1, keys, n, key);
    HoldsInsert(ks, b2, keys, if n < half then n + half else n - half, key);
  }

  function RollRun(ks: Keys, r: Rolling, keys: seq<Key>): (s: Rolling)
    requires RollUsable(r)
    ensures RollUsable(s)
  {
    if keys == [] then r else RollInsert(ks, RollRun(ks, r, keys[..|keys| - 1]), keys[|keys| - 1])
  }

  lemma {:induction false} RollRunInv(ks: Keys, r: Rolling, keys: seq<Key>)
    requires RollUsable(r) && r.nInsertions == 0
    ensures RollInv(ks, RollRun(ks, r, keys), keys)
  {
    hide Contains; hide RollInsert;
    if keys != [] {
      var n := |keys| - 1;
      RollRunInv(ks, r, keys[..n]);
      RollInsertKeeps(ks, RollRun(ks, r, keys[..n]), keys[..n], keys[n]);
      assert keys == keys[..n] + [keys[n]];
    }
  }

  /** The state of the invariant contains the last N keys. */
  lemma LastKeysHeld(ks: Keys, r: Rolling, keys: seq<Key>, i: nat)
    requires RollInv(ks, r, keys) && i < |keys| && |keys| - r.nBloomSize / 2 <= i
    ensures RollContains(ks, r, keys[i])
  {
  }

  /** However many keys were inserted since the reset, the last N are contained. */
  lemma LastKeysContained(ks: Keys, r: Rolling, keys: seq<Key>, i: nat)
    requires RollUsable(r) && r.nInsertions == 0 && i < |keys| && |keys| - r.nBloomSize / 2 <= i
    ensures RollContains(ks, RollRun(ks, r, keys), keys[i])
  {
    hide Contains; hide RollInsert;
    RollRunInv(ks, r, keys);
    RollSize(ks, r, keys);
    LastKeysHeld(ks, RollRun(ks, r, keys), keys, i);
  }

  lemma {:induction false} RollSize(ks: Keys, r: Rolling, keys: seq<Key>)
    requires RollUsable(r)
    ensures RollRun(ks, r, keys).nBloomSize == r.nBloomSize
  {
    if keys != [] {
      RollSize(ks, r, keys[..|keys| - 1]);
    }
  }
}
