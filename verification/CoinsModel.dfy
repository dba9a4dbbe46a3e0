/**
 A stack of write-back caches over the set of unspent coins. The top cache is the first layer;
 each layer's parent is the next one, and the last layer's parent is the coin database.
 */
module CoinsModel {
  import opened Common

  const MAX_SCRIPT_SIZE := 10000
  const OP_RETURN := 0x6a

  type Script = seq<nat>

  /** A coin; a spent one has the null output value -1. */
  datatype Coin = Coin(value: int, script: Script, height: nat, coinbase: bool) {
    predicate IsSpent() { value == -1 }
  }

  /** What Coin::Clear leaves. */
  const SPENT := Coin(-1, [], 0, false)

  predicate IsUnspendable(s: Script) {
    (|s| > 0 && s[0] == OP_RETURN) || |s| > MAX_SCRIPT_SIZE
  }

  datatype Entry = Entry(coin: Coin, dirty: bool, isFresh: bool)

  type Entries = map<OutPoint, Entry>
  type Coins = map<OutPoint, Coin>

  /** One cache: its entries, the tracked memory use of their coins, and the best block (0 for none). */
  datatype Layer = Layer(entries: Entries, usage: int, best: nat)

  const EMPTY_LAYER := Layer(map[], 0, 0)

  /** The database: unspent coins only. */
  datatype Store = Store(coins: Coins, best: nat)

  type Layers = seq<Layer>

  function Get<V>(m: map<OutPoint, V>, o: OutPoint): Option<V> {
    if o in m then Some(m[o]) else None
  }

  function Unspent(c: Coin): Option<Coin> {
    if c.IsSpent() then None else Some(c)
  }

  /** The coin a caller of GetCoin sees at the first layer. */
  function View(layers: Layers, store: Store, o: OutPoint): Option<Coin> {
    if layers == [] then Get(store.coins, o)
    else if o in layers[0].entries then Unspent(layers[0].entries[o].coin)
    else View(layers[1..], store, o)
  }

  // ----- Sums over finite maps -----

  ghost function Sum<V>(m: map<OutPoint, V>, f: V -> int): int {
    if m == map[] then 0
    else var o :| o in m; f(m[o]) + Sum(m - {o}, f)
  }

  lemma {:induction false} SumRemove<V>(m: map<OutPoint, V>, f: V -> int, o: OutPoint)
    requires o in m
    ensures Sum(m, f) == f(m[o]) + Sum(m - {o}, f)
    decreases |m|
  {
    var p :| p in m && Sum(m, f) == f(m[p]) + Sum(m - {p}, f);
    if p != o {
      SumRemove(m - {p}, f, o);
      SumRemove(m - {o}, f, p);
      assert m - {p} - {o} == m - {o} - {p};
    }
  }

  lemma SumPut<V>(m: map<OutPoint, V>, f: V -> int, o: OutPoint, v: V)
    ensures Sum(m[o := v], f) == f(v) + Sum(m - {o}, f)
    ensures o !in m ==> Sum(m[o := v], f) == f(v) + Sum(m, f)
  {
    SumRemove(m[o := v], f, o);
    assert m[o := v] - {o} == m - {o};
    if o !in m { assert m - {o} == m; }
  }

  // ----- The invariant -----

  /**
   DIRTY and FRESH against the parent's view: a clean entry repeats the parent's coin, and a FRESH
   entry is one of which the parent knows no unspent coin.
   */
  predicate EntryOk(e: Entry, parent: Option<Coin>) {
    && (!e.dirty ==> !e.isFresh && parent == Some(e.coin) && !e.coin.IsSpent())
    && (e.isFresh ==> parent == None)
    && (e.coin.IsSpent() ==> e.coin == SPENT)
  }

  function Usage(mem: Script -> nat): Entry -> int {
    (e: Entry) => mem(e.coin.script)
  }

  ghost predicate LayerOk(layer: Layer, parents: Layers, store: Store, mem: Script -> nat) {
    && (forall o :: o in layer.entries ==> EntryOk(layer.entries[o], View(parents, store, o)))
    && layer.usage == Sum(layer.entries, Usage(mem))
  }

  ghost predicate StackOk(layers: Layers, store: Store, mem: Script -> nat) {
    if layers == [] then forall o :: o in store.coins ==> !store.coins[o].IsSpent()
    else LayerOk(layers[0], layers[1..], store, mem) && StackOk(layers[1..], store, mem)
  }

  // ----- The flat map -----

  ghost function Overlay(coins: Coins, entries: Entries): (r: Coins)
    ensures forall o :: o in r <==> if o in entries then !entries[o].coin.IsSpent() else o in coins
    ensures forall o :: o in r ==> r[o] == if o in entries then entries[o].coin else coins[o]
    decreases |entries|
  {
    if entries == map[] then coins
    else
      var o :| o in entries;
      var r := Overlay(coins, entries - {o});
      if entries[o].coin.IsSpent() then r - {o} else r[o := entries[o].coin]
  }

  /** All unspent coins visible at the first layer, as one map. */
  ghost function Flat(layers: Layers, store: Store): (r: Coins)
    ensures forall o :: Get(r, o) == View(layers, store, o)
  {
    if layers == [] then store.coins
    else Overlay(Flat(layers[1..], store), layers[0].entries)
  }

  lemma FlatUnique(layers: Layers, store: Store, m: Coins)
    requires forall o :: Get(m, o) == View(layers, store, o)
    ensures m == Flat(layers, store)
  {
    var r := Flat(layers, store);
    forall o ensures o in m <==> o in r {
      assert Get(m, o) == Get(r, o);
    }
    forall o | o in m ensures m[o] == r[o] {
      assert Get(m, o) == Get(r, o);
    }
  }
}
