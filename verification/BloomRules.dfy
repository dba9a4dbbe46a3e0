/**
 The matching rules of a bloom filter one by one, as section "Filter matching algorithm" of BIP 37
 lists them, with their converse; and what a filter does not contain.
 */
module BloomRules {
  import opened Common
  import opened Bits
  import opened BloomModel

  // ----- What is relevant -----

  /** The hash of the transaction. */
  lemma HashFound(ks: Keys, f: Filter, tx: Tx)
    requires Usable(f) && Contains(ks, f, ks.hashKey(tx.hash))
    ensures IsRelevantAndUpdate(ks, f, tx).1
  {
  }

  /** A data element of an output script; the outpoint is inserted if the flags ask for it. */
  lemma OutputDataFound(ks: Keys, f: Filter, tx: Tx, i: nat, k: nat)
    requires Usable(f) && i < |tx.vout| && k < |tx.vout[i].pushes|
    requires tx.vout[i].pushes[k] != [] && Contains(ks, f, tx.vout[i].pushes[k])
    ensures var (g, found) := IsRelevantAndUpdate(ks, f, tx);
            && found
            && (f.nFlags % 4 == 1 || (f.nFlags % 4 == 2 && tx.vout[i].payToKeys) ==>
                  Contains(ks, g, ks.outKey(OutPoint(tx.hash, i))))
  {
    hide AllBits; hide Outputs; hide MatchesAny;
    if !f.isFull {
      OutputFound(ks, f, tx, i, k, |tx.vout|);
    }
  }

  lemma {:induction false} OutputFound(ks: Keys, f: Filter, tx: Tx, i: nat, k: nat, n: nat)
    requires Usable(f) && i < n <= |tx.vout| && k < |tx.vout[i].pushes|
    requires tx.vout[i].pushes[k] != [] && Contains(ks, f, tx.vout[i].pushes[k])
    ensures var (g, found) := Outputs(ks, f, tx, n);
            && found
            && (f.nFlags % 4 == 1 || (f.nFlags % 4 == 2 && tx.vout[i].payToKeys) ==>
                  Contains(ks, g, ks.outKey(OutPoint(tx.hash, i))))
    decreases n
  {
    hide Contains; hide Usable; hide Insert;
    var key := ks.outKey(OutPoint(tx.hash, i));
    OutputsKeep(ks, f, tx, n - 1, tx.vout[i].pushes[k]);
    OutputStep(ks, f, tx, n, key);
    InsertKeeps(ks, Outputs(ks, f, tx, n - 1).0, ks.outKey(OutPoint(tx.hash, n - 1)), key);
    if i < n - 1 {
      OutputFound(ks, f, tx, i, k, n - 1);
    } else {
      assert MatchesAny(ks, Outputs(ks, f, tx, n - 1).0, tx.vout[i].pushes);
    }
  }

  /** A data element of an input script. */
  lemma InputDataFound(ks: Keys, f: Filter, tx: Tx, i: nat, k: nat)
    requires Usable(f) && i < |tx.vin| && k < |tx.vin[i].pushes|
    requires tx.vin[i].pushes[k] != [] && Contains(ks, f, tx.vin[i].pushes[k])
    ensures IsRelevantAndUpdate(ks, f, tx).1
  {
    hide AllBits; hide Outputs;
    if !f.isFull {
      OutputsKeep(ks, f, tx, |tx.vout|, tx.vin[i].pushes[k]);
      assert MatchesInput(ks, Outputs(ks, f, tx, |tx.vout|).0, tx.vin[i]);
    }
  }

  // ----- What is not -----

  /** A script with a data element that the filter contains. */
  ghost predicate Touches(ks: Keys, f: Filter, pushes: seq<Key>)
    requires Usable(f)
  {
    exists d :: d in pushes && d != [] && Contains(ks, f, d)
  }

  lemma TouchesIsMatch(ks: Keys, f: Filter, pushes: seq<Key>)
    requires Usable(f)
    ensures Touches(ks, f, pushes) <==> MatchesAny(ks, f, pushes)
  {
  }

  /** No output that the filter touches is one that the flags let it insert. */
  ghost predicate NothingToInsert(ks: Keys, f: Filter, tx: Tx)
    requires Usable(f)
  {
    forall i :: 0 <= i < |tx.vout| && Touches(ks, f, tx.vout[i].pushes) ==>
      f.nFlags % 4 != 1 && (f.nFlags % 4 == 2 ==> !tx.vout[i].payToKeys)
  }

  lemma {:induction false} OutputsSame(ks: Keys, f: Filter, tx: Tx, n: nat)
    requires Usable(f) && n <= |tx.vout| && NothingToInsert(ks, f, tx)
    ensures Outputs(ks, f, tx, n) == (f, exists i :: 0 <= i < n && Touches(ks, f, tx.vout[i].pushes))
  {
    hide Contains; hide Touches; hide MatchesAny;
    if n > 0 {
      OutputsSame(ks, f, tx, n - 1);
      TouchesIsMatch(ks, f, tx.vout[n - 1].pushes);
      if Touches(ks, f, tx.vout[n - 1].pushes) {
        assert !Updates(f, tx.vout[n - 1]);
      }
    }
  }

  /** What makes a transaction relevant to a filter that stays as it is. */
  ghost predicate Related(ks: Keys, f: Filter, tx: Tx)
    requires Usable(f)
  {
    || Contains(ks, f, ks.hashKey(tx.hash))
    || (exists i :: 0 <= i < |tx.vout| && Touches(ks, f, tx.vout[i].pushes))
    || (exists i :: 0 <= i < |tx.vin| && (Contains(ks, f, ks.outKey(tx.vin[i].prevout)) || Touches(ks, f, tx.vin[i].pushes)))
  }

  /** With nothing to insert the filter stays, and the answer is true exactly for a related transaction or a full filter. */
  lemma RelevantExactly(ks: Keys, f: Filter, tx: Tx)
    requires Usable(f) && NothingToInsert(ks, f, tx)
    ensures IsRelevantAndUpdate(ks, f, tx) == (f, f.isFull || Related(ks, f, tx))
  {
    hide AllBits; hide Touches; hide MatchesAny; hide Outputs;
    OutputsSame(ks, f, tx, |tx.vout|);
    forall i | 0 <= i < |tx.vin| ensures MatchesInput(ks, f, tx.vin[i]) <==>
        Contains(ks, f, ks.outKey(tx.vin[i].prevout)) || Touches(ks, f, tx.vin[i].pushes)
    {
      TouchesIsMatch(ks, f, tx.vin[i].pushes);
    }
    if f.isEmpty && !f.isFull {
      EmptyTouchesNothing(ks, f, tx);
    }
  }

  lemma EmptyTouchesNothing(ks: Keys, f: Filter, tx: Tx)
    requires Usable(f) && f.isEmpty && !f.isFull
    ensures !Related(ks, f, tx)
  {
  }

  /** A transaction none of whose hash, script data and outpoints is contained is not relevant and changes nothing. */
  lemma UnrelatedIgnored(ks: Keys, f: Filter, tx: Tx)
    requires Usable(f) && !f.isFull && !Related(ks, f, tx)
    ensures IsRelevantAndUpdate(ks, f, tx) == (f, false)
  {
    hide Contains; hide Touches;
    RelevantExactly(ks, f, tx);
  }

  // ----- Only the bits of the keys -----

  /** Bit `t` belongs to `key`. */
  ghost predicate BitOfKey(ks: Keys, size: nat, nTweak: nat, nHashFuncs: nat, key: Key, t: nat) {
    size > 0 && exists i :: 0 <= i < nHashFuncs && Index(ks, size, nTweak, i, key) == t
  }

  lemma {:induction false} PutBitsExactly(ks: Keys, data: seq<nat>, nTweak: nat, key: Key, n: nat, t: nat)
    requires (n > 0 ==> |data| > 0) && (forall i :: 0 <= i < |data| ==> data[i] < 256) && t < 8 * |data|
    ensures HasBit(PutBits(ks, data, nTweak, key, n), t) <==> HasBit(data, t) || BitOfKey(ks, |data|, nTweak, n, key, t)
  {
    hide HasBit; hide PutBit; hide Index;
    if n > 0 {
      PutBitsExactly(ks, data, nTweak, key, n - 1, t);
      PutBitsHas(ks, data, nTweak, key, n - 1);
      PutBitHas(PutBits(ks, data, nTweak, key, n - 1), Index(ks, |data|, nTweak, n - 1, key));
    }
  }

  /** An insertion sets the bits of the key and no other. */
  lemma InsertExactly(ks: Keys, f: Filter, key: Key, t: nat)
    requires Usable(f) && !f.isFull && t < 8 * |f.data|
    ensures var g := Insert(ks, f, key);
            && g == f.(data := g.data, isEmpty := false) && |g.data| == |f.data|
            && (HasBit(g.data, t) <==> HasBit(f.data, t) || BitOfKey(ks, |f.data|, f.nTweak, f.nHashFuncs, key, t))
  {
    hide HasBit; hide BitOfKey;
    PutBitsExactly(ks, f.data, f.nTweak, key, f.nHashFuncs, t);
  }

  /** Every bit set belongs to one of the last `n` keys. */
  ghost predicate OnlyFrom(ks: Keys, f: Filter, keys: seq<Key>, n: nat) {
    forall t :: 0 <= t < 8 * |f.data| && HasBit(f.data, t) ==>
      exists i :: 0 <= i < |keys| && |keys| - n <= i && BitOfKey(ks, |f.data|, f.nTweak, f.nHashFuncs, keys[i], t)
  }

  lemma OnlyFromInsert(ks: Keys, f: Filter, keys: seq<Key>, n: nat, key: Key)
    requires Usable(f) && !f.isFull && OnlyFrom(ks, f, keys, n)
    ensures OnlyFrom(ks, Insert(ks, f, key), keys + [key], n + 1)
  {
    hide HasBit; hide BitOfKey; hide Insert;
    InsertFrame(ks, f, key);
    var g, all := Insert(ks, f, key), keys + [key];
    forall t | 0 <= t < 8 * |g.data| && HasBit(g.data, t)
      ensures exists i :: 0 <= i < |all| && |all| - (n + 1) <= i && BitOfKey(ks, |g.data|, g.nTweak, g.nHashFuncs, all[i], t)
    {
      InsertExactly(ks, f, key, t);
      if HasBit(f.data, t) {
        var i :| 0 <= i < |keys| && |keys| - n <= i && BitOfKey(ks, |f.data|, f.nTweak, f.nHashFuncs, keys[i], t);
        assert all[i] == keys[i];
      } else {
        assert all[|keys|] == key;
      }
    }
  }

  lemma InsertFrame(ks: Keys, f: Filter, key: Key)
    requires Usable(f)
    ensures var g := Insert(ks, f, key);
            |g.data| == |f.data| && g.nTweak == f.nTweak && g.nHashFuncs == f.nHashFuncs && g.isFull == f.isFull
  {
  }

  lemma ClearedFromNone(ks: Keys, f: Filter, keys: seq<Key>, n: nat)
    requires Empty(f.data)
    ensures OnlyFrom(ks, f, keys, n)
  {
    hide BitOf;
    forall t | 0 <= t < 8 * |f.data| ensures !HasBit(f.data, t) {
      ZeroBit(t % 8);
    }
  }

  /** How many of the last keys each half may still have bits of. */
  ghost predicate RollOnly(ks: Keys, r: Rolling, keys: seq<Key>) {
    && RollUsable(r)
    && OnlyFrom(ks, r.b1, keys, if r.nInsertions == 0 then r.nBloomSize else r.nInsertions)
    && OnlyFrom(ks, r.b2, keys, if r.nInsertions <= r.nBloomSize / 2 then r.nInsertions + r.nBloomSize / 2
                                else r.nInsertions - r.nBloomSize / 2)
  }

  lemma RollInsertOnly(ks: Keys, r: Rolling, keys: seq<Key>, key: Key)
    requires RollOnly(ks, r, keys)
    ensures RollOnly(ks, RollInsert(ks, r, key), keys + [key])
  {
    hide HasBit; hide BitOfKey; hide Insert; hide Usable; hide OnlyFrom;
    var half, n := r.nBloomSize / 2, r.nInsertions;
    RollParts(r);
    var b1 := if n == 0 then Clear(r.b1) else r.b1;
    var b2 := if n == half then Clear(r.b2) else r.b2;
    ClearedFromNone(ks, Clear(r.b1), keys, 0);
    ClearedFromNone(ks, Clear(r.b2), keys, 0);
    OnlyFromInsert(ks, b1, keys, n, key);
    OnlyFromInsert(ks, b2, keys, if n < half then n + half else n - half, key);
  }

  lemma RollParts(r: Rolling)
    requires RollUsable(r)
    ensures Usable(Clear(r.b1)) && Usable(Clear(r.b2)) && Empty(Clear(r.b1).data) && Empty(Clear(r.b2).data)
  {
  }

  lemma {:induction false} RollRunOnly(ks: Keys, r: Rolling, keys: seq<Key>)
    requires RollUsable(r) && r.nInsertions == 0 && Empty(r.b1.data) && Empty(r.b2.data)
    ensures RollOnly(ks, RollRun(ks, r, keys), keys)
  {
    hide RollInsert; hide OnlyFrom; hide Empty;
    if keys == [] {
      ClearedFromNone(ks, r.b1, keys, r.nBloomSize);
      ClearedFromNone(ks, r.b2, keys, r.nBloomSize / 2);
    } else {
      var n := |keys| - 1;
      RollRunOnly(ks, r, keys[..n]);
      RollInsertOnly(ks, RollRun(ks, r, keys[..n]), keys[..n], keys[n]);
      assert keys == keys[..n] + [keys[n]];
    }
  }

  /** The half that answers lookups. */
  function Answering(r: Rolling): Filter {
    if r.nInsertions < r.nBloomSize / 2 then r.b2 else r.b1
  }

  /** A rolling filter forgets: a key with a bit that none of the last 2N keys has is not contained. */
  lemma OldKeysForgotten(ks: Keys, r: Rolling, keys: seq<Key>, key: Key, j: nat)
    requires RollUsable(r) && r.nInsertions == 0 && Empty(r.b1.data) && Empty(r.b2.data)
    requires var f := Answering(RollRun(ks, r, keys));
             && j < f.nHashFuncs && |f.data| > 0
             && forall i :: 0 <= i < |keys| && |keys| - r.nBloomSize <= i ==>
                  !BitOfKey(ks, |f.data|, f.nTweak, f.nHashFuncs, keys[i], Index(ks, |f.data|, f.nTweak, j, key))
    ensures !RollContains(ks, RollRun(ks, r, keys), key)
  {
    hide RollRun; hide BitOfKey; hide HasBit; hide Index; hide Empty;
    RollRunOnly(ks, r, keys);
    RollSize(ks, r, keys);
    var s := RollRun(ks, r, keys);
    var f, t := Answering(s), Index(ks, |Answering(s).data|, Answering(s).nTweak, j, key);
    OnlyFromMore(ks, f, keys, if s.nInsertions < s.nBloomSize / 2 then s.nInsertions + s.nBloomSize / 2
                              else if s.nInsertions == 0 then s.nBloomSize else s.nInsertions, s.nBloomSize);
    assert !HasBit(f.data, t);
  }

  lemma OnlyFromMore(ks: Keys, f: Filter, keys: seq<Key>, n: nat, m: nat)
    requires OnlyFrom(ks, f, keys, n) && n <= m
    ensures OnlyFrom(ks, f, keys, m)
  {
    hide HasBit; hide BitOfKey;
  }
}
