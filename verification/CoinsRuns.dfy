/** Every run of cache operations acts like the same operations on plain maps, and conserves value. */
module CoinsRuns {
  import opened Common
  import opened CoinsModel
  import opened CoinsOps

  // ----- Refinement -----

  datatype Op =
    | FetchOp(o: OutPoint)
    | AddOp(o: OutPoint, coin: Coin, overwrite: bool)
    | SpendOp(o: OutPoint)
    | UncacheOp(o: OutPoint)
    | FlushOp
    | PushOp
    | PopOp

  /** The unspent coins seen at each layer and, last, in the database. */
  ghost function Levels(layers: Layers, store: Store): (r: seq<Coins>)
    ensures |r| == |layers| + 1
    ensures forall k :: 0 <= k < |r| ==> r[k] == Flat(layers[k..], store)
  {
    seq(|layers| + 1, k requires 0 <= k <= |layers| => Flat(layers[k..], store))
  }

  /** The operations on plain maps: only Flush passes anything down, and only to the next level. */
  function PlainStep(levels: seq<Coins>, op: Op): (r: seq<Coins>)
    requires Legal(levels, op)
  {
    match op
    case FetchOp(_) => levels
    case UncacheOp(_) => levels
    case AddOp(o, coin, _) => if IsUnspendable(coin.script) then levels else levels[0 := levels[0][o := coin]]
    case SpendOp(o) => levels[0 := levels[0] - {o}]
    case FlushOp => levels[1 := levels[0]]
    case PushOp => [levels[0]] + levels
    case PopOp => levels[1..]
  }

  /** There is a cache on top; a coin is added without leave to overwrite only where none is visible. */
  predicate Legal(levels: seq<Coins>, op: Op) {
    match op
    case PushOp => |levels| >= 1
    case AddOp(o, coin, overwrite) => |levels| >= 2 && !coin.IsSpent() && (overwrite || o !in levels[0])
    case _ => |levels| >= 2
  }

  ghost function CacheStep(layers: Layers, store: Store, op: Op, mem: Script -> nat): (r: (Layers, Store))
    requires Legal(Levels(layers, store), op)
  {
    match op
    case FetchOp(o) => (Fetch(layers, store, o, mem), store)
    case UncacheOp(o) => (Uncache(layers, o, mem), store)
    case AddOp(o, coin, overwrite) => (Add(layers, o, coin, overwrite, mem), store)
    case SpendOp(o) => (Spend(layers, store, o, mem).0, store)
    case FlushOp => Flush(layers, store, mem)
    case PushOp => ([EMPTY_LAYER] + layers, store)
    case PopOp => (layers[1..], store)
  }

  lemma SameViewsSameFlat(a: Layers, b: Layers, s: Store, t: Store)
    requires forall o :: View(a, s, o) == View(b, t, o)
    ensures Flat(a, s) == Flat(b, t)
  {
    FlatUnique(b, t, Flat(a, s));
  }

  lemma FetchLevels(layers: Layers, store: Store, o: OutPoint, mem: Script -> nat)
    requires StackOk(layers, store, mem)
    ensures Levels(Fetch(layers, store, o, mem), store) == Levels(layers, store)
  {
    var r := Fetch(layers, store, o, mem);
    forall k | 0 <= k <= |layers| ensures Flat(r[k..], store) == Flat(layers[k..], store) {
      forall p ensures View(r[k..], store, p) == View(layers[k..], store, p) {
        FetchView(layers, store, o, mem, k, p);
      }
      SameViewsSameFlat(r[k..], layers[k..], store, store);
    }
  }

  /** A change that only the first layer shows, at one outpoint. */
  lemma TopLevels(layers: Layers, r: Layers, store: Store, o: OutPoint, c: Option<Coin>)
    requires TopSees(layers, r, store, o, c)
    ensures Levels(r, store) == Levels(layers, store)[0 := PutOpt(Levels(layers, store)[0], o, c)]
  {
    assert layers[0..] == layers && r[0..] == r;
    var m := PutOpt(Flat(layers, store), o, c);
    forall p ensures Get(m, p) == View(r, store, p) {
    }
    FlatUnique(r, store, m);
    forall k | 1 <= k <= |layers| ensures Flat(r[k..], store) == Flat(layers[k..], store) {
      assert r[k..] == r[1..][k - 1..] && layers[k..] == layers[1..][k - 1..];
    }
  }

  lemma FlushLevels(layers: Layers, store: Store, mem: Script -> nat)
    requires StackOk(layers, store, mem) && layers != []
    ensures var (r, s) := Flush(layers, store, mem);
            StackOk(r, s, mem) && Levels(r, s) == Levels(layers, store)[1 := Levels(layers, store)[0]]
  {
    if |layers| > 1 { FlushCacheOk(layers, store, mem); } else { FlushStoreOk(layers, store, mem); }
    hide Flush; hide StackOk;
    var (r, s) := Flush(layers, store, mem);
    FlushRest(layers, store, mem);
    assert layers[0..] == layers && r[0..] == r;
    SameViewsSameFlat(r[1..], layers, s, store);
    forall o ensures View(r, s, o) == View(layers, store, o) {
    }
    SameViewsSameFlat(r, layers, s, store);
    forall k | 2 <= k <= |layers| ensures Flat(r[k..], s) == Flat(layers[k..], store) {
      assert r[k..] == r[2..][k - 2..] && layers[k..] == layers[2..][k - 2..];
    }
  }

  lemma FlushRest(layers: Layers, store: Store, mem: Script -> nat)
    requires layers != []
    ensures var (r, s) := Flush(layers, store, mem);
            && r[0].entries == map[] && (|layers| > 1 ==> r[2..] == layers[2..] && s == store)
  {
  }

  lemma PushOk(layers: Layers, store: Store, mem: Script -> nat)
    requires StackOk(layers, store, mem)
    ensures StackOk([EMPTY_LAYER] + layers, store, mem)
    ensures Levels([EMPTY_LAYER] + layers, store) == [Levels(layers, store)[0]] + Levels(layers, store)
  {
    var r := [EMPTY_LAYER] + layers;
    assert r[1..] == layers && layers[0..] == layers && r[0..] == r;
    SameViewsSameFlat(r, layers, store, store);
    forall k | 1 <= k <= |r| ensures Flat(r[k..], store) == Flat(layers[k - 1..], store) {
      assert r[k..] == layers[k - 1..];
    }
  }

  /** One operation on the caches is the same operation on the plain maps, at every level. */
  lemma StepRefines(layers: Layers, store: Store, op: Op, mem: Script -> nat)
    requires StackOk(layers, store, mem) && mem([]) == 0 && Legal(Levels(layers, store), op)
    ensures var (r, s) := CacheStep(layers, store, op, mem);
            StackOk(r, s, mem) && Levels(r, s) == PlainStep(Levels(layers, store), op)
  {
    var levels := Levels(layers, store);
    assert layers[0..] == layers;
    hide StackOk; hide Fetch; hide Add; hide Uncache; hide Flush; hide Levels; hide View;
    match op
    case FetchOp(o) =>
      FetchOk(layers, store, o, mem);
      FetchLevels(layers, store, o, mem);
    case UncacheOp(o) =>
      UncacheOk(layers, store, o, mem);
      TopLevels(layers, Uncache(layers, o, mem), store, o, View(layers, store, o));
      assert Get(levels[0], o) == View(layers, store, o);
      assert PutOpt(levels[0], o, View(layers, store, o)) == levels[0] by { PutSame(levels[0], o); }
    case AddOp(o, coin, overwrite) =>
      assert Get(levels[0], o) == View(layers, store, o);
      AddOk(layers, store, o, coin, overwrite, mem);
      PutSame(levels[0], o);
      TopLevels(layers, Add(layers, o, coin, overwrite, mem), store, o,
                if IsUnspendable(coin.script) then View(layers, store, o) else Some(coin));
    case SpendOp(o) =>
      SpendOk(layers, store, o, mem);
      FetchLevels(layers, store, o, mem);
      TopLevels(Fetch(layers, store, o, mem), Spend(layers, store, o, mem).0, store, o, None);
    case FlushOp => FlushLevels(layers, store, mem);
    case PushOp => PushOk(layers, store, mem);
    case PopOp => PopOk(layers, store, mem);
  }

  lemma PutSame(m: Coins, o: OutPoint)
    ensures PutOpt(m, o, Get(m, o)) == m
  {
  }

  lemma PopOk(layers: Layers, store: Store, mem: Script -> nat)
    requires StackOk(layers, store, mem) && layers != []
    ensures StackOk(layers[1..], store, mem) && Levels(layers[1..], store) == Levels(layers, store)[1..]
  {
    forall k | 0 <= k < |layers| ensures Flat(layers[1..][k..], store) == Flat(layers[k + 1..], store) {
      assert layers[1..][k..] == layers[k + 1..];
    }
  }

  predicate LegalRun(levels: seq<Coins>, ops: seq<Op>)
    decreases ops
  {
    ops == [] || (Legal(levels, ops[0]) && LegalRun(PlainStep(levels, ops[0]), ops[1..]))
  }

  function PlainRun(levels: seq<Coins>, ops: seq<Op>): (r: seq<Coins>)
    requires LegalRun(levels, ops)
    decreases ops
  {
    if ops == [] then levels else PlainRun(PlainStep(levels, ops[0]), ops[1..])
  }

  /**
   Any run on a stack of any depth, with caches pushed, flushed and discarded on the way: at every
   level the visible coins are those of the same run on plain maps, and the invariant holds.
   */
  ghost function CacheRun(layers: Layers, store: Store, ops: seq<Op>, mem: Script -> nat): (r: (Layers, Store))
    requires StackOk(layers, store, mem) && mem([]) == 0 && LegalRun(Levels(layers, store), ops)
    ensures StackOk(r.0, r.1, mem) && Levels(r.0, r.1) == PlainRun(Levels(layers, store), ops)
    decreases ops
  {
    hide StackOk; hide CacheStep; hide Levels; hide PlainStep; hide Legal;
    if ops == [] then (layers, store)
    else
      StepRefines(layers, store, ops[0], mem);
      var (r, s) := CacheStep(layers, store, ops[0], mem);
      CacheRun(r, s, ops[1..], mem)
  }

  // ----- The best block -----

  function Best(layers: Layers, store: Store): nat {
    if layers == [] then store.best
    else if layers[0].best != 0 then layers[0].best
    else Best(layers[1..], store)
  }

  /** GetBestBlock remembers the answer in every layer it passes. */
  function GetBest(layers: Layers, store: Store): (r: Layers)
    ensures |r| == |layers|
  {
    if layers == [] || layers[0].best != 0 then layers
    else [layers[0].(best := Best(layers[1..], store))] + GetBest(layers[1..], store)
  }

  lemma {:induction false} GetBestOk(layers: Layers, store: Store, k: nat, o: OutPoint)
    requires k <= |layers|
    ensures Best(GetBest(layers, store)[k..], store) == Best(layers[k..], store)
    ensures View(GetBest(layers, store)[k..], store, o) == View(layers[k..], store, o)
  {
    var r := GetBest(layers, store);
    if layers != [] && layers[0].best == 0 {
      assert r[1..] == GetBest(layers[1..], store);
      if k == 0 {
        GetBestOk(layers[1..], store, 0, o);
        assert r[0..] == r && layers[0..] == layers && r[1..][0..] == r[1..] && layers[1..][0..] == layers[1..];
      } else {
        GetBestOk(layers[1..], store, k - 1, o);
        assert r[k..] == r[1..][k - 1..] && layers[k..] == layers[1..][k - 1..];
      }
    }
  }

  /**
   Flush does not always keep the best block: a cache whose own best block was never set or asked
   for clears its parent's. It is kept exactly when the cache has one, or has the database as its
   parent, or the parent's answer came from further down.
   */
  lemma FlushBest(layers: Layers, store: Store, mem: Script -> nat)
    requires layers != []
    ensures var (r, s) := Flush(layers, store, mem);
            Best(r, s) == Best(layers, store) <==>
            layers[0].best != 0 || |layers| == 1 || Best(layers[1..], store) == Best(layers[2..], store)
  {
    var (r, s) := Flush(layers, store, mem);
    if |layers| > 1 {
      assert r[1..][1..] == layers[2..];
    } else {
      assert r[1..] == [] && layers[1..] == [];
    }
  }

  /** A flush that loses the best block. */
  lemma FlushLosesBest(mem: Script -> nat)
    ensures var layers := [Layer(map[], 0, 0), Layer(map[], 0, 7)];
            var (r, s) := Flush(layers, Store(map[], 5), mem);
            Best(layers, Store(map[], 5)) == 7 && Best(r, s) == 5
  {
    var layers := [Layer(map[], 0, 0), Layer(map[], 0, 7)];
    var (r, s) := Flush(layers, Store(map[], 5), mem);
    assert layers[1..] == [layers[1]] && r[1..] == [r[1]] && r[1..][1..] == [];
    assert r[0].best == 0 && r[1].best == 0 && Best(r[1..][1..], s) == 5;
    assert Best(r[1..], s) == 5;
  }

  // ----- Value -----

  datatype TxOut = TxOut(value: int, script: Script)
  datatype Tx = Tx(id: nat, vin: seq<OutPoint>, vout: seq<TxOut>, coinbase: bool)

  function ValueOf(): Coin -> int {
    (c: Coin) => c.value
  }

  /** The value of all coins of a map. */
  ghost function Total(m: Coins): int {
    Sum(m, ValueOf())
  }

  /** GetValueIn: the sum of what AccessCoin finds for each input; a missing coin counts as -1. */
  function ValueIn(coins: Coins, vin: seq<OutPoint>): int {
    if vin == [] then 0
    else
      var o := vin[|vin| - 1];
      ValueIn(coins, vin[..|vin| - 1]) + if o in coins then coins[o].value else -1
  }

  function SpendableOut(vout: seq<TxOut>): int {
    if vout == [] then 0
    else
      var out := vout[|vout| - 1];
      SpendableOut(vout[..|vout| - 1]) + if IsUnspendable(out.script) then 0 else out.value
  }

  function SpendOps(vin: seq<OutPoint>): seq<Op> {
    seq(|vin|, i requires 0 <= i < |vin| => SpendOp(vin[i]))
  }

  /** AddCoins passes the coinbase flag as the leave to overwrite. */
  function AddOps(tx: Tx, height: nat): seq<Op> {
    seq(|tx.vout|, i requires 0 <= i < |tx.vout| =>
      AddOp(OutPoint(tx.id, i), Coin(tx.vout[i].value, tx.vout[i].script, height, tx.coinbase), tx.coinbase))
  }

  /** HaveInputs, distinct inputs, outputs that are new and have a value. */
  ghost predicate Spendable(coins: Coins, tx: Tx) {
    && !tx.coinbase
    && (forall i :: 0 <= i < |tx.vin| ==> tx.vin[i] in coins)
    && (forall i, j :: 0 <= i < j < |tx.vin| ==> tx.vin[i] != tx.vin[j])
    && (forall i :: 0 <= i < |tx.vout| ==> OutPoint(tx.id, i) !in coins && tx.vout[i].value != -1)
  }

  /** What AddCoins asks for: outputs with a value, and new ones unless the transaction is a coinbase. */
  ghost predicate Payable(coins: Coins, tx: Tx) {
    forall i :: 0 <= i < |tx.vout| ==> tx.vout[i].value != -1 && (tx.coinbase || OutPoint(tx.id, i) !in coins)
  }

  function Removed(coins: Coins, vin: seq<OutPoint>): (r: Coins)
    ensures forall o :: o in r <==> o in coins && o !in vin
    ensures forall o :: o in r ==> r[o] == coins[o]
  {
    coins - (set i | 0 <= i < |vin| :: vin[i])
  }

  lemma {:induction false} TotalRemoved(coins: Coins, vin: seq<OutPoint>)
    requires forall i :: 0 <= i < |vin| ==> vin[i] in coins
    requires forall i, j :: 0 <= i < j < |vin| ==> vin[i] != vin[j]
    ensures Total(Removed(coins, vin)) == Total(coins) - ValueIn(coins, vin)
  {
    hide Sum; hide Removed;
    if vin == [] {
      assert Removed(coins, vin) == coins;
    } else {
      var rest, o := vin[..|vin| - 1], vin[|vin| - 1];
      assert o in coins && o !in rest;
      TotalRemoved(coins, rest);
      SumRemove(Removed(coins, rest), ValueOf(), o);
      assert Removed(coins, vin) == Removed(coins, rest) - {o};
    }
  }

  function Paid(coins: Coins, tx: Tx, height: nat, n: nat): (r: Coins)
    requires n <= |tx.vout|
    ensures forall o :: o in r ==> o in coins || exists i :: 0 <= i < n && o == OutPoint(tx.id, i)
  {
    if n == 0 then coins
    else
      var r := Paid(coins, tx, height, n - 1);
      var out := tx.vout[n - 1];
      if IsUnspendable(out.script) then r
      else r[OutPoint(tx.id, n - 1) := Coin(out.value, out.script, height, tx.coinbase)]
  }

  lemma {:induction false} TotalPaid(coins: Coins, tx: Tx, height: nat, n: nat)
    requires n <= |tx.vout| && forall i :: 0 <= i < |tx.vout| ==> OutPoint(tx.id, i) !in coins
    ensures Total(Paid(coins, tx, height, n)) == Total(coins) + SpendableOut(tx.vout[..n])
  {
    if n > 0 {
      TotalPaid(coins, tx, height, n - 1);
      assert tx.vout[..n][..n - 1] == tx.vout[..n - 1];
      var r := Paid(coins, tx, height, n - 1);
      var out := tx.vout[n - 1];
      assert OutPoint(tx.id, n - 1) !in r;
      SumPut(r, ValueOf(), OutPoint(tx.id, n - 1), Coin(out.value, out.script, height, tx.coinbase));
    }
  }

  lemma {:induction false} SpendRun(levels: seq<Coins>, vin: seq<OutPoint>)
    requires |levels| >= 2
    ensures LegalRun(levels, SpendOps(vin))
    ensures PlainRun(levels, SpendOps(vin)) == levels[0 := Removed(levels[0], vin)]
    decreases |vin|
  {
    if vin == [] {
      assert Removed(levels[0], vin) == levels[0];
    } else {
      var next := levels[0 := levels[0] - {vin[0]}];
      SpendRun(next, vin[1..]);
      assert SpendOps(vin)[1..] == SpendOps(vin[1..]);
      assert Removed(next[0], vin[1..]) == Removed(levels[0], vin);
    }
  }

  /** The outputs from number `n` on, added to a view that already has the first `n`. */
  lemma {:induction false} AddRun(levels: seq<Coins>, base: Coins, tx: Tx, height: nat, n: nat)
    requires |levels| >= 2 && n <= |tx.vout| && levels[0] == Paid(base, tx, height, n) && Payable(base, tx)
    ensures LegalRun(levels, AddOps(tx, height)[n..])
    ensures PlainRun(levels, AddOps(tx, height)[n..]) == levels[0 := Paid(base, tx, height, |tx.vout|)]
    decreases |tx.vout| - n
  {
    if n < |tx.vout| {
      var ops := AddOps(tx, height);
      assert tx.coinbase || OutPoint(tx.id, n) !in levels[0];
      assert Legal(levels, ops[n]);
      var next := PlainStep(levels, ops[n]);
      assert next == levels[0 := Paid(base, tx, height, n + 1)];
      AddRun(next, base, tx, height, n + 1);
      assert ops[n..][1..] == ops[n + 1..];
    }
  }

  /**
   Spending a transaction's inputs and adding its outputs, on a cache stack of any depth, changes the
   total value of the visible coins by the spendable outputs minus the inputs, and nothing below.
   */
  lemma ValueConserved(layers: Layers, store: Store, tx: Tx, height: nat, mem: Script -> nat)
    requires StackOk(layers, store, mem) && mem([]) == 0 && layers != []
    requires Spendable(Levels(layers, store)[0], tx)
    ensures LegalRun(Levels(layers, store), SpendOps(tx.vin))
    ensures var levels := Levels(layers, store);
            var (l1, s1) := CacheRun(layers, store, SpendOps(tx.vin), mem);
            && LegalRun(Levels(l1, s1), AddOps(tx, height))
            && var (l2, s2) := CacheRun(l1, s1, AddOps(tx, height), mem);
            && Total(Levels(l2, s2)[0]) == Total(levels[0]) + SpendableOut(tx.vout) - ValueIn(levels[0], tx.vin)
            && Levels(l2, s2)[1..] == levels[1..]
  {
    hide StackOk; hide CacheRun; hide Levels; hide SpendOps; hide AddOps; hide Paid; hide Removed;
    var levels := Levels(layers, store);
    SpendRun(levels, tx.vin);
    var (l1, s1) := CacheRun(layers, store, SpendOps(tx.vin), mem);
    var spent := levels[0 := Removed(levels[0], tx.vin)];
    PaidNone(spent[0], tx, height);
    AddRun(spent, spent[0], tx, height, 0);
    assert AddOps(tx, height)[0..] == AddOps(tx, height);
    TotalRemoved(levels[0], tx.vin);
    TotalPaid(spent[0], tx, height, |tx.vout|);
    assert tx.vout[..|tx.vout|] == tx.vout;
  }

  lemma PaidNone(coins: Coins, tx: Tx, height: nat)
    ensures Paid(coins, tx, height, 0) == coins
  {
  }
}
