/** What the coin caches do to their entries: what is cached, what is dropped, and that short-lived coins leave no trace. */
module CoinsEffects {
  import opened Common
  import opened CoinsModel
  import opened CoinsOps
  import opened CoinsRuns

  /** Uncache drops an entry exactly if it carries no change, with its memory, and touches nothing else. */
  lemma UncacheDrops(layers: Layers, o: OutPoint, mem: Script -> nat)
    requires layers != []
    ensures var r := Uncache(layers, o, mem); var top := layers[0];
            && |r| == |layers| && r[1..] == layers[1..] && r[0].best == top.best
            && (forall p :: p != o ==> Get(r[0].entries, p) == Get(top.entries, p))
            && (o in r[0].entries <==> o in top.entries && (top.entries[o].dirty || top.entries[o].isFresh))
            && (o in r[0].entries ==> r == layers)
            && r[0].usage + (if o in top.entries && o !in r[0].entries then mem(top.entries[o].coin.script) else 0) == top.usage
  {
    var r := Uncache(layers, o, mem);
    assert r[1..] == layers[1..];
  }

  /** Looking a coin up caches it, clean, at every level down to the first that had an entry, and only there. */
  lemma {:induction false} FetchCaches(layers: Layers, store: Store, o: OutPoint, mem: Script -> nat, k: nat)
    requires StackOk(layers, store, mem) && k < |layers|
    ensures var r := Fetch(layers, store, o, mem);
            && (forall p :: p != o ==> Get(r[k].entries, p) == Get(layers[k].entries, p)) && r[k].best == layers[k].best
            && (if View(layers, store, o).Some? && forall j :: 0 <= j <= k ==> o !in layers[j].entries
                then Get(r[k].entries, o) == Some(Entry(View(layers, store, o).value, false, false))
                else r[k] == layers[k])
  {
    var r := Fetch(layers, store, o, mem);
    if o !in layers[0].entries {
      ViewUnspent(layers[1..], store, o, mem);
      var rest := Fetch(layers[1..], store, o, mem);
      if k > 0 {
        FetchCaches(layers[1..], store, o, mem, k - 1);
        assert r[k] == rest[k - 1] && layers[k] == layers[1..][k - 1];
        assert (forall j :: 0 <= j <= k ==> o !in layers[j].entries) <==>
               (forall j :: 0 <= j <= k - 1 ==> o !in layers[1..][j].entries) by {
          if forall j :: 0 <= j <= k - 1 ==> o !in layers[1..][j].entries {
            forall j | 0 <= j <= k ensures o !in layers[j].entries {
              if j > 0 { assert o !in layers[1..][j - 1].entries; }
            }
          }
          assert forall j :: 0 <= j <= k - 1 ==> layers[1..][j] == layers[j + 1];
        }
      }
    }
  }

  /** A coin that may be added where no entry is becomes DIRTY, and FRESH unless it may overwrite. */
  lemma AddedEntry(layers: Layers, o: OutPoint, coin: Coin, overwrite: bool, mem: Script -> nat)
    requires layers != [] && !IsUnspendable(coin.script) && o !in layers[0].entries
    ensures var r := Add(layers, o, coin, overwrite, mem);
            r == [Layer(layers[0].entries[o := Entry(coin, true, !overwrite)], layers[0].usage + mem(coin.script), layers[0].best)]
                 + layers[1..]
  {
  }

  /** A coin added and spent in the same cache leaves it exactly as it was. */
  lemma SpendUndoesAdd(layers: Layers, store: Store, o: OutPoint, coin: Coin, mem: Script -> nat)
    requires layers != [] && !IsUnspendable(coin.script) && o !in layers[0].entries
    ensures Spend(Add(layers, o, coin, false, mem), store, o, mem) == (layers, coin, true)
  {
    var a := Add(layers, o, coin, false, mem);
    var r := Spend(a, store, o, mem).0;
    assert r[0].entries == layers[0].entries;
    assert a[1..] == layers[1..];
    assert r == layers;
  }

  /** The entry of the parent after a flush. */
  lemma FlushedEntry(layers: Layers, store: Store, mem: Script -> nat, o: OutPoint)
    requires |layers| > 1
    ensures var (r, s) := Flush(layers, store, mem);
            && s == store && |r| == |layers| && r[0].entries == map[] && r[2..] == layers[2..]
            && Get(r[1].entries, o) ==
               if o in layers[0].entries then MergeEntry(Get(layers[1].entries, o), layers[0].entries[o])
               else Get(layers[1].entries, o)
  {
  }

  /** A FRESH coin that reaches the parent stays FRESH there. */
  lemma FlushCarriesFresh(layers: Layers, store: Store, o: OutPoint, coin: Coin, mem: Script -> nat)
    requires |layers| > 1 && !IsUnspendable(coin.script) && o !in layers[0].entries && o !in layers[1].entries && !coin.IsSpent()
    ensures var (r, s) := Flush(Add(layers, o, coin, false, mem), store, mem);
            && s == store && |r| == |layers| && r[0].entries == map[] && Get(r[1].entries, o) == Some(Entry(coin, true, true))
  {
    hide Flush; hide Add;
    AddedEntry(layers, o, coin, false, mem);
    var a := Add(layers, o, coin, false, mem);
    assert a[1] == layers[1] && |a| == |layers|;
    FlushedEntry(a, store, mem, o);
  }

  /** Spent in the child after it reached the parent, it is gone from both once the child is flushed again. */
  lemma SpentLeavesNoTrace(layers: Layers, store: Store, o: OutPoint, coin: Coin, mem: Script -> nat)
    requires |layers| > 1 && !IsUnspendable(coin.script) && o !in layers[0].entries && o !in layers[1].entries && !coin.IsSpent()
    ensures var (b, s) := Flush(Add(layers, o, coin, false, mem), store, mem);
            var c := Spend(b, s, o, mem).0;
            var d := Flush(c, s, mem).0;
            |d| == |layers| && o !in d[0].entries && o !in d[1].entries
  {
    FlushCarriesFresh(layers, store, o, coin, mem);
    hide Flush; hide Add;
    var (b, s) := Flush(Add(layers, o, coin, false, mem), store, mem);
    SpendBelow(b, s, o, coin, mem);
    hide Spend;
    FlushedEntry(Spend(b, s, o, mem).0, s, mem, o);
  }

  lemma SpendBelow(b: Layers, s: Store, o: OutPoint, coin: Coin, mem: Script -> nat)
    requires |b| > 1 && o !in b[0].entries && Get(b[1].entries, o) == Some(Entry(coin, true, true)) && !coin.IsSpent()
    ensures var c := Spend(b, s, o, mem).0;
            && |c| == |b| && c[1..] == b[1..] && o in c[0].entries && c[0].entries[o] == Entry(SPENT, true, false)
  {
    assert b[1..][0] == b[1];
    assert o in b[1..][0].entries;
    assert Fetch(b[1..], s, o, mem) == b[1..];
    assert View(b[1..], s, o) == Some(coin);
  }
}
