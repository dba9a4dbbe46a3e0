/** Bloom filters as objects that set their bits in place. */
module Bloom {
  import opened Common
  import opened Bits
  import Limbs
  import opened Powers
  import opened BloomModel

  class BloomFilter {
    const ks: Keys
    const vData: array<nat>
    var isFull: bool
    var isEmpty: bool
    const nHashFuncs: nat
    var nTweak: nat
    const nFlags: nat

    function View(): Filter
      reads this, vData
    {
      Filter(vData[..], isFull, isEmpty, nHashFuncs, nTweak, nFlags)
    }

    ghost predicate Valid()
      reads this, vData
    {
      Usable(View())
    }

    constructor (ks: Keys, size: nat, nHashFuncs: nat, nTweak: nat, nFlags: nat)
      requires nHashFuncs > 0 ==> size > 0
      ensures Valid() && fresh(vData) && this.ks == ks
      ensures View() == Filter(seq<nat>(size, _ => 0), false, true, nHashFuncs, nTweak, nFlags)
    {
      this.ks, this.nHashFuncs, this.nTweak, this.nFlags := ks, nHashFuncs, nTweak, nFlags;
      isFull, isEmpty := false, true;
      vData := new nat[size](_ => 0);
      new;
      assert vData[..] == seq<nat>(size, _ => 0);
    }

    function Hash(nHashNum: nat, vKey: Key): (r: nat)
      requires vData.Length > 0
      reads this
      ensures r < 8 * vData.Length
    {
      Index(ks, vData.Length, nTweak, nHashNum, vKey)
    }

    method InsertKey(vKey: Key)
      requires Valid()
      modifies this, vData
      ensures Valid() && View() == Insert(ks, old(View()), vKey)
      ensures Contains(ks, View(), vKey)
    {
      hide Index; hide BitOf; hide Limbs.Or; hide Pow; hide Contains;
      InsertKeeps(ks, View(), vKey, vKey);
      if isFull {
        return;
      }
      ghost var before := vData[..];
      for i := 0 to nHashFuncs
        invariant vData[..] == PutBits(ks, before, nTweak, vKey, i)
        invariant isFull == old(isFull) && isEmpty == old(isEmpty) && nTweak == old(nTweak)
      {
        var nIndex := Hash(i, vKey);
        ghost var s := vData[..];
        vData[nIndex / 8] := Limbs.Or(vData[nIndex / 8], Pow(2, nIndex % 8));
        assert vData[..] == PutBit(s, nIndex);
      }
      isEmpty := false;
    }

    method ContainsKey(vKey: Key) returns (r: bool)
      requires Valid()
      ensures r == Contains(ks, View(), vKey)
    {
      hide Index; hide BitOf;
      if isFull {
        return true;
      }
      if isEmpty {
        return false;
      }
      for i := 0 to nHashFuncs
        invariant AllBits(ks, vData[..], nTweak, vKey, i)
      {
        var nIndex := Hash(i, vKey);
        if !BitOf(vData[nIndex / 8], nIndex % 8) {
          assert !HasBit(vData[..], Index(ks, vData.Length, nTweak, i, vKey));
          return false;
        }
      }
      return true;
    }

    method ClearAll()
      modifies this, vData
      ensures View() == Clear(old(View()))
    {
      for i := 0 to vData.Length
        invariant forall j :: 0 <= j < i ==> vData[j] == 0
        invariant nTweak == old(nTweak)
      {
        vData[i] := 0;
      }
      isFull, isEmpty := false, true;
      assert vData[..] == seq<nat>(vData.Length, _ => 0);
    }

    method Reset(nNewTweak: nat)
      modifies this, vData
      ensures View() == Clear(old(View())).(nTweak := nNewTweak)
    {
      ClearAll();
      nTweak := nNewTweak;
    }

    method UpdateFlags()
      modifies this
      ensures View() == UpdateEmptyFull(old(View()))
    {
      var full, empty := true, true;
      for i := 0 to vData.Length
        invariant full == Full(vData[..i]) && empty == Empty(vData[..i])
        invariant nTweak == old(nTweak)
      {
        assert vData[..i + 1] == vData[..i] + [vData[i]];
        assert vData[..i + 1][i] == vData[i];
        full := full && vData[i] == 0xff;
        empty := empty && vData[i] == 0;
      }
      assert vData[..vData.Length] == vData[..];
      isFull, isEmpty := full, empty;
    }

    /** Whether a data element of a script is contained. */
    method AnyContained(pushes: seq<Key>) returns (r: bool)
      requires Valid()
      ensures r == MatchesAny(ks, View(), pushes)
    {
      hide Contains;
      for k := 0 to |pushes|
        invariant forall j :: 0 <= j < k ==> pushes[j] == [] || !Contains(ks, View(), pushes[j])
      {
        if pushes[k] != [] {
          var found := ContainsKey(pushes[k]);
          if found {
            return true;
          }
        }
      }
      return false;
    }

    method MatchOutputs(tx: Tx) returns (found: bool)
      requires Valid()
      modifies this, vData
      ensures Valid() && (View(), found) == Outputs(ks, old(View()), tx, |tx.vout|)
    {
      hide Contains; hide Insert; hide MatchesAny;
      found := false;
      for i := 0 to |tx.vout|
        invariant Valid() && (View(), found) == Outputs(ks, old(View()), tx, i)
      {
        var matched := AnyContained(tx.vout[i].pushes);
        if matched {
          found := true;
          if nFlags % 4 == UPDATE_ALL {
            InsertKey(ks.outKey(OutPoint(tx.hash, i)));
          } else if nFlags % 4 == UPDATE_P2PUBKEY_ONLY {
            if tx.vout[i].payToKeys {
              InsertKey(ks.outKey(OutPoint(tx.hash, i)));
            }
          }
        }
      }
    }

    method MatchTransaction(tx: Tx) returns (r: bool)
      requires Valid()
      modifies this, vData
      ensures Valid() && (View(), r) == IsRelevantAndUpdate(ks, old(View()), tx)
    {
      hide Contains; hide Outputs; hide MatchesAny;
      if isFull {
        return true;
      }
      if isEmpty {
        return false;
      }
      var known := ContainsKey(ks.hashKey(tx.hash));
      var found := MatchOutputs(tx);
      if known || found {
        return true;
      }
      for i := 0 to |tx.vin|
        invariant Valid() && View() == Outputs(ks, old(View()), tx, |tx.vout|).0
        invariant forall j :: 0 <= j < i ==> !MatchesInput(ks, View(), tx.vin[j])
      {
        var spends := ContainsKey(ks.outKey(tx.vin[i].prevout));
        if spends {
          assert MatchesInput(ks, View(), tx.vin[i]);
          return true;
        }
        var matched := AnyContained(tx.vin[i].pushes);
        if matched {
          assert MatchesInput(ks, View(), tx.vin[i]);
          return true;
        }
      }
      return false;
    }
  }

  class RollingFilter {
    const b1: BloomFilter
    const b2: BloomFilter
    var nInsertions: nat
    const nBloomSize: nat

    function View(): Rolling
      reads this, b1, b1.vData, b2, b2.vData
    {
      Rolling(b1.View(), b2.View(), nInsertions, nBloomSize)
    }

    /** The keys inserted since the last reset. */
    ghost var keys: seq<Key>

    ghost predicate Valid()
      reads this, b1, b1.vData, b2, b2.vData
    {
      b1.ks == b2.ks && b1 != b2 && b1.vData != b2.vData && RollInv(b1.ks, View(), keys)
    }

    constructor (ks: Keys, nElements: nat, size: nat, nHashFuncs: nat, nTweak: nat)
      requires nElements > 0 && (nHashFuncs > 0 ==> size > 0)
      ensures Valid() && keys == [] && nBloomSize == 2 * nElements && b1.ks == ks
    {
      b1 := new BloomFilter(ks, size, nHashFuncs, nTweak, 0);
      b2 := new BloomFilter(ks, size, nHashFuncs, nTweak, 0);
      nInsertions, nBloomSize, keys := 0, 2 * nElements, [];
    }

    method InsertKey(vKey: Key)
      requires Valid()
      modifies this, b1, b1.vData, b2, b2.vData
      ensures Valid() && keys == old(keys) + [vKey]
      ensures View() == RollInsert(b1.ks, old(View()), vKey)
    {
      hide Insert; hide Contains;
      RollInsertKeeps(b1.ks, View(), keys, vKey);
      if nInsertions == 0 {
        b1.ClearAll();
      } else if nInsertions == nBloomSize / 2 {
        b2.ClearAll();
      }
      b1.InsertKey(vKey);
      b2.InsertKey(vKey);
      nInsertions := nInsertions + 1;
      if nInsertions == nBloomSize {
        nInsertions := 0;
      }
      keys := keys + [vKey];
    }

    /** True for each of the last N keys inserted. */
    method ContainsKey(vKey: Key) returns (r: bool)
      requires Valid()
      ensures r == RollContains(b1.ks, View(), vKey)
      ensures (exists i :: 0 <= i < |keys| && |keys| - nBloomSize / 2 <= i && keys[i] == vKey) ==> r
    {
      hide Contains;
      if i :| 0 <= i < |keys| && |keys| - nBloomSize / 2 <= i && keys[i] == vKey {
        LastKeysHeld(b1.ks, View(), keys, i);
      }
      if nInsertions < nBloomSize / 2 {
        r := b2.ContainsKey(vKey);
      } else {
        r := b1.ContainsKey(vKey);
      }
    }

    method Reset(nNewTweak: nat)
      requires Valid()
      modifies this, b1, b1.vData, b2, b2.vData
      ensures Valid() && keys == [] && nInsertions == 0
    {
      hide Contains;
      b1.Reset(nNewTweak);
      b2.Reset(nNewTweak);
      nInsertions, keys := 0, [];
    }
  }
}
