/** The operations on a stack of coin caches, and what each does to the views of all its layers. */
module CoinsOps {
  import opened Common
  import opened CoinsModel

  // ----- FetchCoin -----

  /** FetchCoin at the first layer: a miss asks the parent, which may cache the coin as well. */
  function Fetch(layers: Layers, store: Store, o: OutPoint, mem: Script -> nat): (r: Layers)
    ensures |r| == |layers|
  {
    if layers == [] || o in layers[0].entries then layers
    else
      var rest := Fetch(layers[1..], store, o, mem);
      var found := View(layers[1..], store, o);
      if found.None? then [layers[0]] + rest
      else
        var e := Entry(found.value, false, found.value.IsSpent());
        [layers[0].(entries := layers[0].entries[o := e], usage := layers[0].usage + mem(found.value.script))] + rest
  }

  /** No layer's view changes, so no caller can tell. */
  lemma {:induction false} FetchView(layers: Layers, store: Store, o: OutPoint, mem: Script -> nat, k: nat, p: OutPoint)
    requires StackOk(layers, store, mem) && k <= |layers|
    ensures View(Fetch(layers, store, o, mem)[k..], store, p) == View(layers[k..], store, p)
  {
    var r := Fetch(layers, store, o, mem);
    if layers != [] && o !in layers[0].entries {
      if k == 0 {
        FetchView(layers[1..], store, o, mem, 0, p);
        ViewUnspent(layers[1..], store, o, mem);
        assert r[1..] == Fetch(layers[1..], store, o, mem);
        assert r[0..] == r && layers[0..] == layers && Fetch(layers[1..], store, o, mem)[0..] == r[1..] && layers[1..][0..] == layers[1..];
      } else {
        FetchView(layers[1..], store, o, mem, k - 1, p);
        assert r[k..] == Fetch(layers[1..], store, o, mem)[k - 1..];
        assert layers[k..] == layers[1..][k - 1..];
      }
    }
  }

  lemma {:induction false} ViewUnspent(layers: Layers, store: Store, o: OutPoint, mem: Script -> nat)
    requires StackOk(layers, store, mem)
    ensures View(layers, store, o).Some? ==> !View(layers, store, o).value.IsSpent()
  {
    if layers != [] && o !in layers[0].entries {
      ViewUnspent(layers[1..], store, o, mem);
    }
  }

  lemma {:induction false} FetchOk(layers: Layers, store: Store, o: OutPoint, mem: Script -> nat)
    requires StackOk(layers, store, mem)
    ensures StackOk(Fetch(layers, store, o, mem), store, mem)
    ensures layers != [] ==>
              var top := Fetch(layers, store, o, mem)[0];
              && (o in top.entries ==> Unspent(top.entries[o].coin) == View(layers, store, o))
              && (o !in top.entries ==> View(layers, store, o) == None)
              && top.best == layers[0].best
  {
    if layers != [] && o !in layers[0].entries {
      FetchOk(layers[1..], store, o, mem);
      ViewUnspent(layers[1..], store, o, mem);
      var r := Fetch(layers, store, o, mem);
      var rest := Fetch(layers[1..], store, o, mem);
      assert r[1..] == rest;
      forall p ensures View(rest, store, p) == View(layers[1..], store, p) {
        FetchView(layers[1..], store, o, mem, 0, p);
        assert rest[0..] == rest && layers[1..][0..] == layers[1..];
      }
      var found := View(layers[1..], store, o);
      if found.Some? {
        SumPut(layers[0].entries, Usage(mem), o, r[0].entries[o]);
      }
      assert LayerOk(r[0], rest, store, mem);
    }
  }

  // ----- AddCoin, SpendCoin, Uncache: changes of the first layer -----

  function CachedOr(entries: Entries, o: OutPoint): Entry {
    if o in entries then entries[o] else Entry(SPENT, false, false)
  }

  function Add(layers: Layers, o: OutPoint, coin: Coin, overwrite: bool, mem: Script -> nat): (r: Layers)
    requires layers != []
    ensures |r| == |layers|
  {
    if IsUnspendable(coin.script) then layers
    else
      var top := layers[0];
      var e := CachedOr(top.entries, o);
      var usage := if o in top.entries then top.usage - mem(e.coin.script) else top.usage;
      [Layer(top.entries[o := Entry(coin, true, e.isFresh || (!overwrite && !e.dirty))],
             usage + mem(coin.script), top.best)] + layers[1..]
  }

  /** Replacing one entry of the first layer by a sound one. */
  lemma TopPut(layers: Layers, store: Store, mem: Script -> nat, o: OutPoint, e: Entry, usage: int)
    requires layers != [] && StackOk(layers, store, mem) && EntryOk(e, View(layers[1..], store, o))
    requires usage == layers[0].usage + mem(e.coin.script)
                      - (if o in layers[0].entries then mem(layers[0].entries[o].coin.script) else 0)
    ensures StackOk([Layer(layers[0].entries[o := e], usage, layers[0].best)] + layers[1..], store, mem)
  {
    var r := [Layer(layers[0].entries[o := e], usage, layers[0].best)] + layers[1..];
    assert r[1..] == layers[1..];
    SumPut(layers[0].entries, Usage(mem), o, e);
    if o in layers[0].entries {
      SumRemove(layers[0].entries, Usage(mem), o);
    }
  }

  /** Erasing one entry of the first layer. */
  lemma TopErase(layers: Layers, store: Store, mem: Script -> nat, o: OutPoint)
    requires layers != [] && StackOk(layers, store, mem) && o in layers[0].entries
    ensures StackOk([Layer(layers[0].entries - {o}, layers[0].usage - mem(layers[0].entries[o].coin.script), layers[0].best)]
                    + layers[1..], store, mem)
  {
    var r := [Layer(layers[0].entries - {o}, layers[0].usage - mem(layers[0].entries[o].coin.script), layers[0].best)] + layers[1..];
    assert r[1..] == layers[1..];
    SumRemove(layers[0].entries, Usage(mem), o);
  }

  /** What is seen at `o` after a change that leaves all lower layers alone. */
  ghost predicate TopSees(layers: Layers, r: Layers, store: Store, o: OutPoint, c: Option<Coin>) {
    && layers != [] && |r| == |layers| && r[1..] == layers[1..] && r[0].best == layers[0].best
    && View(r, store, o) == c
    && forall p :: p != o ==> View(r, store, p) == View(layers, store, p)
  }

  /** AddCoin shows the coin; it relies on its caller only for coins that may not be overwritten. */
  lemma AddOk(layers: Layers, store: Store, o: OutPoint, coin: Coin, overwrite: bool, mem: Script -> nat)
    requires StackOk(layers, store, mem) && layers != [] && !coin.IsSpent()
    requires overwrite || View(layers, store, o) == None
    ensures StackOk(Add(layers, o, coin, overwrite, mem), store, mem)
    ensures !overwrite ==> CachedOr(layers[0].entries, o).coin.IsSpent()
    ensures TopSees(layers, Add(layers, o, coin, overwrite, mem), store, o,
                    if IsUnspendable(coin.script) then View(layers, store, o) else Some(coin))
  {
    if !IsUnspendable(coin.script) {
      var r := Add(layers, o, coin, overwrite, mem);
      assert r[1..] == layers[1..];
      TopPut(layers, store, mem, o, r[0].entries[o], r[0].usage);
    }
  }

  /** SpendCoin: the layers after it, the coin moved out, and the value it returns. */
  function Spend(layers: Layers, store: Store, o: OutPoint, mem: Script -> nat): (r: (Layers, Coin, bool))
    requires layers != []
    ensures |r.0| == |layers|
  {
    var w := Fetch(layers, store, o, mem);
    var top := w[0];
    if o !in top.entries then (w, SPENT, false)
    else
      var e := top.entries[o];
      var usage := top.usage - mem(e.coin.script);
      if e.isFresh then ([Layer(top.entries - {o}, usage, top.best)] + w[1..], e.coin, true)
      else ([Layer(top.entries[o := Entry(SPENT, true, false)], usage, top.best)] + w[1..], e.coin, true)
  }

  lemma SpendOk(layers: Layers, store: Store, o: OutPoint, mem: Script -> nat)
    requires StackOk(layers, store, mem) && layers != [] && mem([]) == 0
    ensures StackOk(Spend(layers, store, o, mem).0, store, mem)
    ensures TopSees(Fetch(layers, store, o, mem), Spend(layers, store, o, mem).0, store, o, None)
    ensures Unspent(Spend(layers, store, o, mem).1) == View(layers, store, o)
    ensures Spend(layers, store, o, mem).2 <==> View(layers, store, o).Some? || o in layers[0].entries
  {
    FetchOk(layers, store, o, mem);
    var w := Fetch(layers, store, o, mem);
    var r := Spend(layers, store, o, mem).0;
    assert r[1..] == w[1..];
    if o in w[0].entries {
      assert EntryOk(w[0].entries[o], View(w[1..], store, o));
      if w[0].entries[o].isFresh {
        TopErase(w, store, mem, o);
      } else {
        TopPut(w, store, mem, o, Entry(SPENT, true, false), r[0].usage);
      }
    } else {
      FetchView(layers, store, o, mem, 0, o);
      assert w[0..] == w && layers[0..] == layers;
    }
  }

  /** Spending what is not there changes no view at any level, as the comment of SpendCoin promises. */
  lemma SpendNoEffect(layers: Layers, store: Store, o: OutPoint, mem: Script -> nat, k: nat, p: OutPoint)
    requires StackOk(layers, store, mem) && layers != [] && mem([]) == 0 && k <= |layers|
    requires View(layers, store, o) == None
    ensures View(Spend(layers, store, o, mem).0[k..], store, p) == View(layers[k..], store, p)
  {
    hide StackOk; hide View; hide Fetch; hide Spend;
    var w, r := Fetch(layers, store, o, mem), Spend(layers, store, o, mem).0;
    SpendOk(layers, store, o, mem);
    FetchView(layers, store, o, mem, k, p);
    if k == 0 {
      FetchView(layers, store, o, mem, 0, o);
      assert w[0..] == w && layers[0..] == layers && r[0..] == r;
    } else {
      assert r[k..] == r[1..][k - 1..] && w[k..] == w[1..][k - 1..];
    }
  }

  /** Yet it returns true for a coin that the cache itself holds as spent. */
  lemma SpendOnSpent(o: OutPoint, mem: Script -> nat)
    requires mem([]) == 0
    ensures var layers := [Layer(map[o := Entry(SPENT, true, false)], 0, 0)]; var store := Store(map[], 0);
            && StackOk(layers, store, mem) && View(layers, store, o) == None
            && Spend(layers, store, o, mem).1.IsSpent() && Spend(layers, store, o, mem).2
  {
    var entries := map[o := Entry(SPENT, true, false)];
    SumPut(map[], Usage(mem), o, Entry(SPENT, true, false));
    assert map[][o := Entry(SPENT, true, false)] == entries;
  }

  function Uncache(layers: Layers, o: OutPoint, mem: Script -> nat): (r: Layers)
    requires layers != []
    ensures |r| == |layers|
  {
    var top := layers[0];
    if o in top.entries && !top.entries[o].dirty && !top.entries[o].isFresh
    then [Layer(top.entries - {o}, top.usage - mem(top.entries[o].coin.script), top.best)] + layers[1..]
    else layers
  }

  lemma UncacheOk(layers: Layers, store: Store, o: OutPoint, mem: Script -> nat)
    requires StackOk(layers, store, mem) && layers != []
    ensures StackOk(Uncache(layers, o, mem), store, mem)
    ensures TopSees(layers, Uncache(layers, o, mem), store, o, View(layers, store, o))
  {
    hide StackOk; hide Sum; hide Usage;
    var top := layers[0];
    if o in top.entries && !top.entries[o].dirty && !top.entries[o].isFresh {
      TopEntryOk(layers, store, mem, o);
      TopErase(layers, store, mem, o);
      ErasedView(layers, Uncache(layers, o, mem), store, o);
    }
  }

  lemma TopEntryOk(layers: Layers, store: Store, mem: Script -> nat, o: OutPoint)
    requires StackOk(layers, store, mem) && layers != [] && o in layers[0].entries
    ensures EntryOk(layers[0].entries[o], View(layers[1..], store, o))
  {
  }

  lemma ErasedView(layers: Layers, r: Layers, store: Store, o: OutPoint)
    requires layers != [] && |r| == |layers| && r[1..] == layers[1..] && r[0].best == layers[0].best
    requires r[0].entries == layers[0].entries - {o}
    ensures TopSees(layers, r, store, o, View(layers[1..], store, o))
  {
  }

  // ----- BatchWrite and Flush -----

  /** What one entry of the child does to the entry of the parent cache. */
  function MergeEntry(parent: Option<Entry>, child: Entry): (r: Option<Entry>) {
    if !child.dirty then parent
    else if parent.None? then
      if child.isFresh && child.coin.IsSpent() then None else Some(Entry(child.coin, true, child.isFresh))
    else if parent.value.isFresh && child.coin.IsSpent() then None
    else Some(Entry(child.coin, true, parent.value.isFresh))
  }

  /** The "FRESH flag misapplied" condition. */
  predicate Misapplied(parent: Option<Entry>, child: Entry) {
    child.dirty && child.isFresh && parent.Some? && !parent.value.coin.IsSpent()
  }

  function PutOpt<V>(m: map<OutPoint, V>, o: OutPoint, v: Option<V>): (r: map<OutPoint, V>)
    ensures forall p :: Get(r, p) == if p == o then v else Get(m, p)
  {
    if v.Some? then m[o := v.value] else m - {o}
  }

  /** The parent's entries after all of the child's entries were merged in, in any order. */
  ghost function MergeAll(parent: Entries, child: Entries): (r: Entries)
    ensures forall o :: Get(r, o) == if o in child then MergeEntry(Get(parent, o), child[o]) else Get(parent, o)
    decreases |child|
  {
    if child == map[] then parent
    else
      var o :| o in child;
      PutOpt(MergeAll(parent, child - {o}), o, MergeEntry(Get(parent, o), child[o]))
  }

  function ApplyEntry(coin: Option<Coin>, child: Entry): Option<Coin> {
    if !child.dirty then coin else Unspent(child.coin)
  }

  /** The database after it applied the dirty entries. */
  ghost function ApplyAll(coins: Coins, child: Entries): (r: Coins)
    ensures forall o :: Get(r, o) == if o in child then ApplyEntry(Get(coins, o), child[o]) else Get(coins, o)
    decreases |child|
  {
    if child == map[] then coins
    else
      var o :| o in child;
      PutOpt(ApplyAll(coins, child - {o}), o, ApplyEntry(Get(coins, o), child[o]))
  }

  ghost function Flush(layers: Layers, store: Store, mem: Script -> nat): (r: (Layers, Store))
    requires layers != []
    ensures |r.0| == |layers|
  {
    var top := layers[0].(entries := map[], usage := 0);
    if |layers| == 1 then
      ([top], Store(ApplyAll(store.coins, layers[0].entries), if layers[0].best == 0 then store.best else layers[0].best))
    else
      var merged := MergeAll(layers[1].entries, layers[0].entries);
      ([top, Layer(merged, Sum(merged, Usage(mem)), layers[0].best)] + layers[2..], store)
  }

  /** The FRESH flag is never misapplied, and merging keeps the flags sound for the grandparent. */
  lemma MergeEntryOk(parent: Option<Entry>, child: Entry, grand: Option<Coin>)
    requires parent.Some? ==> EntryOk(parent.value, grand)
    requires EntryOk(child, if parent.Some? then Unspent(parent.value.coin) else grand)
    requires grand.Some? ==> !grand.value.IsSpent()
    ensures !Misapplied(parent, child)
    ensures var r := MergeEntry(parent, child);
            && (r.Some? ==> EntryOk(r.value, grand))
            && (if r.Some? then Unspent(r.value.coin) else grand) == Unspent(child.coin)
  {
  }

  lemma FlushCacheOk(layers: Layers, store: Store, mem: Script -> nat)
    requires StackOk(layers, store, mem) && |layers| > 1
    ensures var (r, s) := Flush(layers, store, mem);
            StackOk(r, s, mem) && forall o :: View(r[1..], s, o) == View(layers, store, o)
    ensures forall o :: o in layers[0].entries ==> !Misapplied(Get(layers[1].entries, o), layers[0].entries[o])
  {
    var (r, s) := Flush(layers, store, mem);
    var child, parent := layers[0].entries, layers[1].entries;
    assert r[1..][1..] == layers[2..] == layers[1..][1..];
    assert layers[1..][0] == layers[1] && r[1..][0] == r[1];
    forall o
      ensures o in r[1].entries ==> EntryOk(r[1].entries[o], View(layers[2..], store, o))
      ensures View(r[1..], s, o) == View(layers, store, o)
      ensures o in child ==> !Misapplied(Get(parent, o), child[o])
    {
      assert Get(r[1].entries, o) == if o in child then MergeEntry(Get(parent, o), child[o]) else Get(parent, o);
      if o in child {
        ViewUnspent(layers[2..], store, o, mem);
        MergeEntryOk(Get(parent, o), child[o], View(layers[2..], store, o));
      }
    }
    assert LayerOk(r[1], layers[2..], store, mem);
    assert StackOk(r[1..], store, mem);
  }

  lemma FlushStoreOk(layers: Layers, store: Store, mem: Script -> nat)
    requires StackOk(layers, store, mem) && |layers| == 1
    ensures var (r, s) := Flush(layers, store, mem);
            StackOk(r, s, mem) && forall o :: View(r[1..], s, o) == View(layers, store, o)
  {
    var (r, s) := Flush(layers, store, mem);
    var child := layers[0].entries;
    assert layers[1..] == [] && r[1..] == [];
    forall o
      ensures Get(s.coins, o) == View(layers, store, o)
      ensures o in s.coins ==> !s.coins[o].IsSpent()
    {
      assert Get(s.coins, o) == if o in child then ApplyEntry(Get(store.coins, o), child[o]) else Get(store.coins, o);
      if o in child {
        assert EntryOk(child[o], View(layers[1..], store, o));
      }
    }
    assert StackOk(r[1..], s, mem);
  }
}
