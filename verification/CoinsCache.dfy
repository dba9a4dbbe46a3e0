/** The stack of coin caches as an object whose methods update the layers in place. */
module CoinsCache {
  import opened Common
  import opened CoinsModel
  import Ops = CoinsOps
  import opened Runs = CoinsRuns

  class CoinsViews {
    const mem: Script -> nat
    var layers: Layers
    var store: Store

    ghost predicate Valid()
      reads this
    {
      StackOk(layers, store, mem) && mem([]) == 0
    }

    constructor (store: Store, mem: Script -> nat)
      requires mem([]) == 0 && forall o :: o in store.coins ==> !store.coins[o].IsSpent()
      ensures Valid() && layers == [] && this.store == store
    {
      this.store, this.mem, this.layers := store, mem, [];
    }

    /** GetCoin of the view at level `k`; below the caches it asks the database. */
    method GetCoin(k: nat, o: OutPoint) returns (coin: Coin, ok: bool)
      requires Valid() && k <= |layers|
      modifies this`layers
      ensures layers == old(layers)[..k] + Ops.Fetch(old(layers)[k..], store, o, mem)
      ensures View(old(layers)[k..], store, o) == if ok then Some(coin) else None
      decreases |layers| - k, 1
    {
      if k == |layers| {
        assert layers[k..] == [];
        if o in store.coins {
          return store.coins[o], true;
        }
        return SPENT, false;
      }
      ghost var view := layers[k..];
      StackSuffix(layers, store, mem, k);
      Ops.FetchOk(view, store, o, mem);
      var found := FetchCoin(k, o);
      assert layers[k] == Ops.Fetch(view, store, o, mem)[0];
      if !found {
        return SPENT, false;
      }
      coin := layers[k].entries[o].coin;
      ok := !coin.IsSpent();
    }

    /** FetchCoin of the cache at level `k`. */
    method FetchCoin(k: nat, o: OutPoint) returns (found: bool)
      requires Valid() && k < |layers|
      modifies this`layers
      ensures layers == old(layers)[..k] + Ops.Fetch(old(layers)[k..], store, o, mem)
      ensures found == (o in layers[k].entries)
      decreases |layers| - k, 0
    {
      ghost var view := layers[k..];
      assert view[1..] == layers[k + 1..];
      if o in layers[k].entries {
        assert layers == layers[..k] + view;
        return true;
      }
      var tmp, ok := GetCoin(k + 1, o);
      if !ok {
        assert layers == old(layers)[..k] + Ops.Fetch(view, store, o, mem);
        return false;
      }
      var e := Entry(tmp, false, tmp.IsSpent());
      layers := layers[k := layers[k].(entries := layers[k].entries[o := e], usage := layers[k].usage + mem(tmp.script))];
      return true;
    }

    /** FetchCoin of the top cache: what callers see is unchanged, and the coin, if any, is now cached. */
    method FetchTop(o: OutPoint) returns (found: bool)
      requires Valid() && layers != []
      modifies this`layers
      ensures Valid() && layers == Ops.Fetch(old(layers), store, o, mem) && |layers| == old(|layers|)
      ensures Levels(layers, store) == old(Levels(layers, store))
      ensures found == (o in layers[0].entries)
      ensures View(old(layers), store, o) == if found then Unspent(layers[0].entries[o].coin) else None
    {
      hide StackOk; hide Levels; hide View;
      ghost var before := layers;
      assert layers[0..] == layers;
      Ops.FetchOk(layers, store, o, mem);
      FetchLevels(layers, store, o, mem);
      found := FetchCoin(0, o);
      assert layers == Ops.Fetch(before, store, o, mem);
    }

    method HaveCoin(o: OutPoint) returns (r: bool)
      requires Valid() && layers != []
      modifies this`layers
      ensures Valid() && layers == Ops.Fetch(old(layers), store, o, mem)
      ensures Levels(layers, store) == old(Levels(layers, store))
      ensures r == View(old(layers), store, o).Some?
    {
      hide StackOk; hide Levels; hide View; hide Ops.Fetch;
      var found := FetchTop(o);
      return found && !layers[0].entries[o].coin.IsSpent();
    }

    method AddCoin(o: OutPoint, coin: Coin, possibleOverwrite: bool)
      requires Valid() && layers != [] && !coin.IsSpent()
      requires possibleOverwrite || View(layers, store, o) == None
      modifies this`layers
      ensures Valid() && layers == Ops.Add(old(layers), o, coin, possibleOverwrite, mem)
    {
      Ops.AddOk(layers, store, o, coin, possibleOverwrite, mem);
      if IsUnspendable(coin.script) {
        return;
      }
      var top := layers[0];
      var inserted := o !in top.entries;
      var entry := if inserted then Entry(SPENT, false, false) else top.entries[o];
      var isFresh := false;
      var usage := top.usage;
      if !inserted {
        usage := usage - mem(entry.coin.script);
      }
      if !possibleOverwrite {
        assert entry.coin.IsSpent();
        isFresh := !entry.dirty;
      }
      entry := entry.(coin := coin, dirty := true, isFresh := entry.isFresh || isFresh);
      usage := usage + mem(coin.script);
      layers := [Layer(top.entries[o := entry], usage, top.best)] + layers[1..];
    }

    method SpendCoin(o: OutPoint) returns (moveout: Coin, ok: bool)
      requires Valid() && layers != []
      modifies this`layers
      ensures Valid() && (layers, moveout, ok) == Ops.Spend(old(layers), store, o, mem)
    {
      hide StackOk; hide Levels; hide View; hide Ops.Fetch;
      Ops.SpendOk(layers, store, o, mem);
      ok := FetchTop(o);
      if !ok {
        return SPENT, false;
      }
      var top := layers[0];
      var entry := top.entries[o];
      var usage := top.usage - mem(entry.coin.script);
      moveout := entry.coin;
      if entry.isFresh {
        layers := [Layer(top.entries - {o}, usage, top.best)] + layers[1..];
      } else {
        layers := [Layer(top.entries[o := Entry(SPENT, true, false)], usage, top.best)] + layers[1..];
      }
    }

    method Uncache(o: OutPoint)
      requires Valid() && layers != []
      modifies this`layers
      ensures Valid() && layers == Ops.Uncache(old(layers), o, mem)
    {
      Ops.UncacheOk(layers, store, o, mem);
      var top := layers[0];
      if o in top.entries && !top.entries[o].dirty && !top.entries[o].isFresh {
        layers := [Layer(top.entries - {o}, top.usage - mem(top.entries[o].coin.script), top.best)] + layers[1..];
      }
    }

    /** BatchWrite of a cache: merge the child's entries, visited in any order, and take its best block. */
    static method BatchWrite(parent: Layer, child: Entries, hashBlock: nat, mem: Script -> nat) returns (r: Layer)
      requires parent.usage == Sum(parent.entries, Usage(mem))
      requires forall o :: o in child ==> !Ops.Misapplied(Get(parent.entries, o), child[o])
      ensures r.entries == Ops.MergeAll(parent.entries, child) && r.best == hashBlock
      ensures r.usage == Sum(r.entries, Usage(mem))
    {
      hide Sum; hide Ops.MergeAll;
      var entries, usage := parent.entries, parent.usage;
      var todo := child.Keys;
      while todo != {}
        invariant todo <= child.Keys
        invariant forall o ::
            Get(entries, o) ==
            if o in child && o !in todo then Ops.MergeEntry(Get(parent.entries, o), child[o]) else Get(parent.entries, o)
        invariant usage == Sum(entries, Usage(mem))
      {
        var o :| o in todo;
        var it := child[o];
        ghost var before := entries;
        assert Get(entries, o) == Get(parent.entries, o);
        if it.dirty {
          if o !in entries {
            if !(it.isFresh && it.coin.IsSpent()) {
              SumPut(entries, Usage(mem), o, Entry(it.coin, true, it.isFresh));
              entries := entries[o := Entry(it.coin, true, it.isFresh)];
              usage := usage + mem(it.coin.script);
            }
          } else {
            var us := entries[o];
            assert !(it.isFresh && !us.coin.IsSpent());
            SumRemove(entries, Usage(mem), o);
            usage := usage - mem(us.coin.script);
            if us.isFresh && it.coin.IsSpent() {
              entries := entries - {o};
            } else {
              SumPut(entries, Usage(mem), o, Entry(it.coin, true, us.isFresh));
              entries := entries[o := Entry(it.coin, true, us.isFresh)];
              usage := usage + mem(it.coin.script);
            }
          }
        }
        forall p | p != o ensures Get(entries, p) == Get(before, p) {}
        todo := todo - {o};
      }
      SameGet(entries, Ops.MergeAll(parent.entries, child));
      r := Layer(entries, usage, hashBlock);
    }

    /** The database's BatchWrite: apply the dirty entries, visited in any order. */
    static method WriteStore(store: Store, child: Entries, hashBlock: nat) returns (r: Store)
      ensures r == Store(Ops.ApplyAll(store.coins, child), if hashBlock == 0 then store.best else hashBlock)
    {
      hide Ops.ApplyAll;
      var coins := store.coins;
      var todo := child.Keys;
      while todo != {}
        invariant todo <= child.Keys
        invariant forall o ::
            Get(coins, o) ==
            if o in child && o !in todo then Ops.ApplyEntry(Get(store.coins, o), child[o]) else Get(store.coins, o)
      {
        var o :| o in todo;
        ghost var before := coins;
        assert Get(coins, o) == Get(store.coins, o);
        if child[o].dirty {
          if child[o].coin.IsSpent() {
            coins := coins - {o};
          } else {
            coins := coins[o := child[o].coin];
          }
        }
        forall p | p != o ensures Get(coins, p) == Get(before, p) {}
        todo := todo - {o};
      }
      SameGet(coins, Ops.ApplyAll(store.coins, child));
      r := Store(coins, if hashBlock == 0 then store.best else hashBlock);
    }

    method Flush()
      requires Valid() && layers != []
      modifies this
      ensures Valid() && (layers, store) == Ops.Flush(old(layers), old(store), mem)
    {
      FlushLevels(layers, store, mem);
      var top := layers[0];
      if |layers| == 1 {
        store := WriteStore(store, top.entries, top.best);
        layers := [top.(entries := map[], usage := 0)];
      } else {
        Ops.FlushCacheOk(layers, store, mem);
        StackSuffix(layers, store, mem, 1);
        var parent := BatchWrite(layers[1], top.entries, top.best, mem);
        layers := [top.(entries := map[], usage := 0), parent] + layers[2..];
      }
    }

    method Push()
      requires Valid()
      modifies this`layers
      ensures Valid() && layers == [EMPTY_LAYER] + old(layers)
    {
      PushOk(layers, store, mem);
      layers := [EMPTY_LAYER] + layers;
    }

    method AddCoins(tx: Tx, height: nat)
      requires Valid() && layers != [] && Payable(Levels(layers, store)[0], tx)
      modifies this`layers
      ensures Valid() && |layers| == old(|layers|)
      ensures Levels(layers, store) ==
              old(Levels(layers, store))[0 := Paid(old(Levels(layers, store))[0], tx, height, |tx.vout|)]
    {
      hide StackOk; hide View; hide PlainStep; hide AddOps; hide Ops.Add;
      ghost var levels := Levels(layers, store);
      ghost var ops := AddOps(tx, height);
      AddOpsAt(tx, height);
      PaidNone(levels[0], tx, height);
      AddRun(levels, levels[0], tx, height, 0);
      assert ops[0..] == ops;
      for i := 0 to |tx.vout|
        invariant Valid() && layers != []
        invariant LegalRun(Levels(layers, store), ops[i..])
        invariant PlainRun(levels, ops) == PlainRun(Levels(layers, store), ops[i..])
      {
        assert ops[i..][0] == ops[i] && ops[i..][1..] == ops[i + 1..];
        var o, coin := OutPoint(tx.id, i), Coin(tx.vout[i].value, tx.vout[i].script, height, tx.coinbase);
        StepRefines(layers, store, ops[i], mem);
        assert layers[0..] == layers;
        assert Get(Levels(layers, store)[0], o) == View(layers, store, o);
        AddCoin(o, coin, tx.coinbase);
      }
    }

    method HaveInputs(tx: Tx) returns (r: bool)
      requires Valid() && layers != []
      modifies this`layers
      ensures Valid() && Levels(layers, store) == old(Levels(layers, store))
      ensures r <==> tx.coinbase || forall i :: 0 <= i < |tx.vin| ==> tx.vin[i] in Levels(layers, store)[0]
    {
      hide StackOk; hide Ops.Fetch;
      ghost var levels := Levels(layers, store);
      if !tx.coinbase {
        for i := 0 to |tx.vin|
          invariant Valid() && layers != [] && Levels(layers, store) == levels
          invariant forall k :: 0 <= k < i ==> tx.vin[k] in levels[0]
        {
          assert layers[0..] == layers;
          assert Get(levels[0], tx.vin[i]) == View(layers, store, tx.vin[i]);
          var have := HaveCoin(tx.vin[i]);
          if !have {
            return false;
          }
        }
      }
      return true;
    }

    method GetValueIn(tx: Tx) returns (v: int)
      requires Valid() && layers != []
      modifies this`layers
      ensures Valid() && Levels(layers, store) == old(Levels(layers, store))
      ensures v == if tx.coinbase then 0 else ValueIn(Levels(layers, store)[0], tx.vin)
    {
      hide StackOk; hide Ops.Fetch;
      ghost var levels := Levels(layers, store);
      v := 0;
      if tx.coinbase {
        return;
      }
      for i := 0 to |tx.vin|
        invariant Valid() && layers != [] && Levels(layers, store) == levels
        invariant v == ValueIn(levels[0], tx.vin[..i])
      {
        assert layers[0..] == layers;
        assert Get(levels[0], tx.vin[i]) == View(layers, store, tx.vin[i]);
        assert tx.vin[..i + 1][..i] == tx.vin[..i];
        var coin := AccessCoin(tx.vin[i]);
        v := v + coin.value;
      }
      assert tx.vin[..|tx.vin|] == tx.vin;
    }

    /** AccessCoin answers with a spent coin where there is none. */
    method AccessCoin(o: OutPoint) returns (coin: Coin)
      requires Valid() && layers != []
      modifies this`layers
      ensures Valid() && layers != [] && Levels(layers, store) == old(Levels(layers, store))
      ensures View(old(layers), store, o) == Unspent(coin) && (coin.IsSpent() ==> coin == SPENT)
    {
      hide StackOk; hide Levels; hide View; hide Ops.Fetch;
      var found := FetchTop(o);
      if !found {
        return SPENT;
      }
      Ops.TopEntryOk(layers, store, mem, o);
      return layers[0].entries[o].coin;
    }

    method GetBestBlock(k: nat) returns (hash: nat)
      requires k <= |layers|
      modifies this`layers
      ensures layers == old(layers)[..k] + GetBest(old(layers)[k..], store)
      ensures hash == Best(old(layers)[k..], store)
      decreases |layers| - k
    {
      if k == |layers| {
        assert layers[k..] == [];
        return store.best;
      }
      ghost var view := layers[k..];
      assert view[1..] == layers[k + 1..];
      if layers[k].best == 0 {
        var base := GetBestBlock(k + 1);
        layers := layers[k := layers[k].(best := base)];
      }
      return layers[k].best;
    }
  }

  lemma {:induction false} StackSuffix(layers: Layers, store: Store, mem: Script -> nat, k: nat)
    requires StackOk(layers, store, mem) && k <= |layers|
    ensures StackOk(layers[k..], store, mem)
    ensures k < |layers| ==> layers[k].usage == Sum(layers[k].entries, Usage(mem))
  {
    if k == 0 {
      assert layers[0..] == layers;
    } else {
      StackSuffix(layers[1..], store, mem, k - 1);
      assert layers[1..][k - 1..] == layers[k..];
    }
  }

  lemma SameGet<V>(a: map<OutPoint, V>, b: map<OutPoint, V>)
    requires forall o :: Get(a, o) == Get(b, o)
    ensures a == b
  {
    forall o ensures o in a <==> o in b { assert Get(a, o) == Get(b, o); }
    forall o | o in a ensures a[o] == b[o] { assert Get(a, o) == Get(b, o); }
  }

  lemma AddOpsAt(tx: Tx, height: nat)
    ensures |AddOps(tx, height)| == |tx.vout|
    ensures forall i :: 0 <= i < |tx.vout| ==>
      AddOps(tx, height)[i] ==
      AddOp(OutPoint(tx.id, i), Coin(tx.vout[i].value, tx.vout[i].script, height, tx.coinbase), tx.coinbase)
  {
  }
}
