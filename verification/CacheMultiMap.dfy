/** The bounded multimap as an object: a list of items and an index of iterators into it. */
module CacheMultiMap {
  import opened Common
  import opened CacheModel

  /** Newest first: identities fall along the list. */
  predicate Ordered<K, V>(items: seq<Item<K, V>>, nextId: nat) {
    && (forall i, j :: 0 <= i < j < |items| ==> items[i].id > items[j].id)
    && (forall i :: 0 <= i < |items| ==> items[i].id < nextId)
  }

  /** Where the node with an identity is in the list. */
  function Locate<K, V>(items: seq<Item<K, V>>, id: nat): (i: nat)
    ensures i <= |items| && (i < |items| ==> items[i].id == id) && forall j :: 0 <= j < i ==> items[j].id != id
  {
    if items == [] || items[0].id == id then 0 else 1 + Locate(items[1..], id)
  }

  function RemoveAt<T>(l: seq<T>, i: nat): seq<T>
    requires i < |l|
  {
    l[..i] + l[i + 1..]
  }

  // ----- CacheMultiMap -----

  type Index<!K, V> = map<K, map<V, nat>>

  predicate Knows<K, V>(index: Index<K, V>, k: K, v: V) {
    k in index && v in index[k]
  }

  /** The item is in the list, at the node the index names. */
  ghost predicate Listed<K, V>(items: seq<Item<K, V>>, index: Index<K, V>, k: K, v: V)
    requires Knows(index, k, v)
  {
    Item(index[k][v], k, v) in items
  }

  ghost predicate Found<K, V>(index: Index<K, V>, it: Item<K, V>) {
    Knows(index, it.key, it.value) && index[it.key][it.value] == it.id
  }

  /** Index and list hold the same pairs, and no key has an empty map. */
  ghost predicate Indexed<K(!new), V(!new)>(items: seq<Item<K, V>>, index: Index<K, V>) {
    && (forall it :: it in items ==> Found(index, it))
    && (forall k, v :: Knows(index, k, v) ==> Listed(items, index, k, v))
    && (forall k :: k in index ==> index[k] != map[])
  }

  function Entry<K, V>(index: Index<K, V>, k: K): map<V, nat> {
    if k in index then index[k] else map[]
  }

  function Unindexed<K, V>(index: Index<K, V>, k: K, v: V): Index<K, V>
    requires k in index
  {
    if index[k] - {v} == map[] then index - {k} else index[k := index[k] - {v}]
  }

  lemma UnindexedKnows<K(!new), V(!new)>(index: Index<K, V>, k: K, v: V)
    requires k in index
    ensures var next := Unindexed(index, k, v);
            && (forall a, b :: Knows(next, a, b) <==> Knows(index, a, b) && !(a == k && b == v))
            && (forall a, b :: Knows(next, a, b) ==> next[a][b] == index[a][b])
  {
    var next := Unindexed(index, k, v);
    forall a, b | Knows(index, a, b) && !(a == k && b == v) ensures Knows(next, a, b) {
      if a == k {
        assert b in index[k] - {v};
      }
    }
  }

  lemma PairListed<K(!new), V(!new)>(items: seq<Item<K, V>>, p: Pair<K, V>)
    ensures p in Pairs(items) <==> exists it :: it in items && it.Contents() == p
  {
    if p in Pairs(items) {
      var i :| 0 <= i < |items| && Pairs(items)[i] == p;
      assert items[i] in items && items[i].Contents() == p;
    }
    if it :| it in items && it.Contents() == p {
      var i :| 0 <= i < |items| && items[i] == it;
      assert Pairs(items)[i] == p;
    }
  }

  lemma PairIndexed<K(!new), V(!new)>(items: seq<Item<K, V>>, index: Index<K, V>, k: K, v: V)
    requires Indexed(items, index)
    ensures Pair(k, v) in Pairs(items) <==> Knows(index, k, v)
  {
    hide Pairs;
    PairListed(items, Pair(k, v));
    if Knows(index, k, v) {
      assert Listed(items, index, k, v);
      assert Item(index[k][v], k, v).Contents() == Pair(k, v);
    }
  }

  lemma ItemsUnique<K(!new), V(!new)>(items: seq<Item<K, V>>, index: Index<K, V>, nextId: nat)
    requires Ordered(items, nextId) && Indexed(items, index)
    ensures NoDuplicates(Pairs(items))
  {
    forall i, j | 0 <= i < j < |items| ensures Pairs(items)[i] != Pairs(items)[j] {
      assert Found(index, items[i]) && Found(index, items[j]);
    }
  }

  lemma IndexedPut<K(!new), V(!new)>(items: seq<Item<K, V>>, index: Index<K, V>, id: nat, k: K, v: V)
    requires Indexed(items, index) && !Knows(index, k, v)
    ensures Indexed([Item(id, k, v)] + items, index[k := Entry(index, k)[v := id]])
  {
    var more := [Item(id, k, v)] + items;
    var next := index[k := Entry(index, k)[v := id]];
    forall it | it in more ensures Found(next, it) {
      if it in items { assert Found(index, it); }
    }
    forall a, b | Knows(next, a, b) ensures Listed(more, next, a, b) {
      if a == k && b == v {
        assert more[0] == Item(id, k, v);
      } else {
        assert Knows(index, a, b);
        assert Listed(items, index, a, b);
      }
    }
    assert v in next[k];
  }

  lemma Removed<K(!new), V(!new)>(items: seq<Item<K, V>>, nextId: nat, i: nat)
    requires Ordered(items, nextId) && i < |items|
    ensures Ordered(RemoveAt(items, i), nextId)
    ensures forall it :: it in RemoveAt(items, i) <==> it in items && it != items[i]
  {
    var rest := RemoveAt(items, i);
    assert forall j :: 0 <= j < |rest| ==> rest[j] == items[if j < i then j else j + 1];
    forall it | it in items && it != items[i] ensures it in rest {
      var j :| 0 <= j < |items| && items[j] == it;
      assert rest[if j < i then j else j - 1] == it;
    }
  }

  lemma IndexedRemove<K(!new), V(!new)>(items: seq<Item<K, V>>, index: Index<K, V>, nextId: nat, i: nat)
    requires Ordered(items, nextId) && Indexed(items, index) && i < |items|
    ensures Found(index, items[i])
    ensures Indexed(RemoveAt(items, i), Unindexed(index, items[i].key, items[i].value))
    ensures Ordered(RemoveAt(items, i), nextId)
  {
    hide Ordered; hide RemoveAt; hide Unindexed;
    var k, v := items[i].key, items[i].value;
    assert items[i] in items && Found(index, items[i]);
    var rest, next := RemoveAt(items, i), Unindexed(index, k, v);
    Removed(items, nextId, i);
    UnindexedKnows(index, k, v);
    forall it | it in rest ensures Found(next, it) {
      assert Found(index, it);
    }
    forall a, b | Knows(next, a, b) ensures Listed(rest, next, a, b) {
      assert Knows(index, a, b);
      assert Listed(items, index, a, b);
    }
    UnindexedNonempty(index, k, v);
  }

  lemma UnindexedNonempty<K(!new), V>(index: Index<K, V>, k: K, v: V)
    requires k in index && forall a :: a in index ==> index[a] != map[]
    ensures forall a :: a in Unindexed(index, k, v) ==> Unindexed(index, k, v)[a] != map[]
  {
  }

  lemma {:induction false} ErasePairAt<K(!new), V(!new)>(l: seq<Pair<K, V>>, i: nat)
    requires NoDuplicates(l) && i < |l|
    ensures ErasePair(l, l[i]) == RemoveAt(l, i)
  {
    var n := |l| - 1;
    assert NoDuplicates(l[..n]);
    if i < n {
      ErasePairAt(l[..n], i);
      assert RemoveAt(l, i) == RemoveAt(l[..n], i) + [l[n]];
    } else {
      ErasePairNone(l[..n], l[n]);
      assert RemoveAt(l, n) == l[..n];
    }
  }

  lemma {:induction false} ErasePairNone<K(!new), V(!new)>(l: seq<Pair<K, V>>, p: Pair<K, V>)
    requires p !in l
    ensures ErasePair(l, p) == l
  {
    if l != [] {
      ErasePairNone(l[..|l| - 1], p);
      assert l == l[..|l| - 1] + [l[|l| - 1]];
    }
  }

  lemma {:induction false} EraseKeyNone<K(!new), V(!new)>(l: seq<Pair<K, V>>, key: K)
    requires forall i :: 0 <= i < |l| ==> l[i].key != key
    ensures EraseKey(l, key) == l
  {
    if l != [] {
      EraseKeyNone(l[..|l| - 1], key);
      assert l == l[..|l| - 1] + [l[|l| - 1]];
    }
  }

  lemma {:induction false} EraseKeyRemove<K(!new), V(!new)>(l: seq<Pair<K, V>>, i: nat, key: K)
    requires i < |l| && l[i].key == key
    ensures EraseKey(RemoveAt(l, i), key) == EraseKey(l, key)
  {
    var n := |l| - 1;
    if i < n {
      EraseKeyRemove(l[..n], i, key);
      assert RemoveAt(l, i)[..n - 1] == RemoveAt(l[..n], i) && RemoveAt(l, i)[n - 1] == l[n];
    } else {
      assert RemoveAt(l, n) == l[..n];
    }
  }

  lemma PairsRemove<K, V>(items: seq<Item<K, V>>, i: nat)
    requires i < |items|
    ensures Pairs(RemoveAt(items, i)) == RemoveAt(Pairs(items), i)
  {
  }

  /** An index is determined by the list. */
  lemma IndexUnique<K(!new), V(!new)>(items: seq<Item<K, V>>, a: Index<K, V>, b: Index<K, V>)
    requires Indexed(items, a) && Indexed(items, b)
    ensures a == b
  {
    forall k, v ensures Knows(a, k, v) <==> Knows(b, k, v) {
      PairIndexed(items, a, k, v);
      PairIndexed(items, b, k, v);
    }
    forall k ensures k in a <==> k in b {
      if k in a { var v :| v in a[k]; assert Knows(a, k, v); }
      if k in b { var v :| v in b[k]; assert Knows(b, k, v); }
    }
    forall k | k in a ensures a[k] == b[k] {
      forall v ensures v in a[k] <==> v in b[k] {
        assert Knows(a, k, v) <==> Knows(b, k, v);
      }
      forall v | v in a[k] ensures a[k][v] == b[k][v] {
        assert Knows(a, k, v) && Listed(items, a, k, v);
        assert Found(b, Item(a[k][v], k, v));
      }
    }
  }

  /** While the items of one key are erased: those whose values are in `todo` are left. */
  ghost predicate Erasing<K(!new), V(!new)>(items: seq<Item<K, V>>, index: Index<K, V>, key: K, todo: set<V>) {
    && (forall it :: it in items ==> Found(index, it) && (it.key == key ==> it.value in todo))
    && (forall k, v :: Knows(index, k, v) && (k == key ==> v in todo) ==> Listed(items, index, k, v))
    && (forall k :: k in index ==> index[k] != map[])
  }

  lemma ErasingNode<K(!new), V(!new)>(items: seq<Item<K, V>>, index: Index<K, V>, nextId: nat, k: K, v: V)
    requires Ordered(items, nextId) && Knows(index, k, v) && Listed(items, index, k, v)
    ensures var i := Locate(items, index[k][v]); i < |items| && items[i] == Item(index[k][v], k, v)
  {
    var n :| 0 <= n < |items| && items[n] == Item(index[k][v], k, v);
    assert Locate(items, index[k][v]) == n;
  }

  lemma ErasingNext<K(!new), V(!new)>(items: seq<Item<K, V>>, index: Index<K, V>, key: K, todo: set<V>, nextId: nat, v: V)
    requires Ordered(items, nextId) && Erasing(items, index, key, todo) && key in index && v in todo && todo <= index[key].Keys
    ensures var i := Locate(items, index[key][v]);
            && i < |items| && items[i] == Item(index[key][v], key, v)
            && Ordered(RemoveAt(items, i), nextId) && Erasing(RemoveAt(items, i), index, key, todo - {v})
  {
    hide Ordered; hide RemoveAt; hide Locate;
    assert Knows(index, key, v) && Listed(items, index, key, v);
    ErasingNode(items, index, nextId, key, v);
    var i := Locate(items, index[key][v]);
    Removed(items, nextId, i);
    var rest := RemoveAt(items, i);
    forall it | it in rest ensures Found(index, it) && (it.key == key ==> it.value in todo - {v}) {
      assert it in items && Found(index, it);
    }
    forall a, b | Knows(index, a, b) && (a == key ==> b in todo - {v}) ensures Listed(rest, index, a, b) {
      assert Listed(items, index, a, b);
    }
  }

  lemma ErasingStart<K(!new), V(!new)>(items: seq<Item<K, V>>, index: Index<K, V>, key: K)
    requires Indexed(items, index) && key in index
    ensures Erasing(items, index, key, index[key].Keys)
  {
  }

  lemma ErasingDone<K(!new), V(!new)>(items: seq<Item<K, V>>, index: Index<K, V>, key: K)
    requires Erasing(items, index, key, {}) && key in index
    ensures Indexed(items, index - {key}) && forall i :: 0 <= i < |items| ==> items[i].key != key
  {
    forall it | it in items ensures Found(index - {key}, it) {
      assert Found(index, it);
    }
    forall a, b | Knows(index - {key}, a, b) ensures Listed(items, index - {key}, a, b) {
      assert Knows(index, a, b) && Listed(items, index, a, b);
    }
    forall i | 0 <= i < |items| ensures items[i].key != key {
      assert items[i] in items;
    }
  }

  class MultiCache<K(==, !new), V(==, !new)> {
    const nMaxSize: nat
    /** The order of the values of a key. */
    const less: (V, V) -> bool
    var nCurrentSize: int
    var listItems: seq<Item<K, V>>
    var mapIndex: Index<K, V>
    /** Identities already handed out to list nodes. */
    var nextId: nat

    ghost predicate Valid()
      reads this
    {
      IsOrder(less) && nCurrentSize == |listItems| && Ordered(listItems, nextId) && Indexed(listItems, mapIndex)
    }

    ghost function View(): seq<Pair<K, V>>
      reads this
    {
      Pairs(listItems)
    }

    constructor (nMaxSize: nat, less: (V, V) -> bool)
      requires IsOrder(less)
      ensures Valid() && View() == [] && this.nMaxSize == nMaxSize && this.less == less
    {
      this.less := less;
      this.nMaxSize, nCurrentSize, listItems, mapIndex, nextId := nMaxSize, 0, [], map[], 0;
    }

    method PruneLast()
      requires Valid()
      modifies this
      ensures Valid() && View() == DropOldest(old(View()))
    {
      hide Indexed; hide Ordered;
      if nCurrentSize < 1 {
        return;
      }
      var n := |listItems| - 1;
      var item := listItems[n];
      IndexedRemove(listItems, mapIndex, nextId, n);
      assert RemoveAt(listItems, n) == listItems[..n];
      Unlink(item.key, item.value);
      listItems := listItems[..n];
      nCurrentSize := nCurrentSize - 1;
    }

    /** Take a pair out of the index, and its key as well if that has no other value. */
    method Unlink(key: K, value: V)
      modifies this`mapIndex
      ensures mapIndex == if key in old(mapIndex) then Unindexed(old(mapIndex), key, value) else old(mapIndex)
    {
      if key in mapIndex {
        var mapIt := mapIndex[key] - {value};
        mapIndex := mapIndex[key := mapIt];
        if |mapIt| < 1 {
          assert mapIt == map[];
          mapIndex := mapIndex - {key};
          assert mapIndex == old(mapIndex) - {key};
        }
      }
    }

    method InsertItem(key: K, value: V) returns (r: bool)
      requires Valid()
      modifies this
      ensures Valid() && (View(), r) == Insert(old(View()), nMaxSize, Pair(key, value))
    {
      hide Indexed;
      if nCurrentSize == nMaxSize {
        PruneLast();
      }
      PairIndexed(listItems, mapIndex, key, value);
      var mapIt := Entry(mapIndex, key);
      if value in mapIt {
        return false;
      }
      IndexedPut(listItems, mapIndex, nextId, key, value);
      ghost var before := listItems;
      listItems := [Item(nextId, key, value)] + listItems;
      mapIndex := mapIndex[key := mapIt[value := nextId]];
      nextId := nextId + 1;
      nCurrentSize := nCurrentSize + 1;
      assert Pairs(listItems) == [Pair(key, value)] + Pairs(before);
      return true;
    }

    method HasKey(key: K) returns (r: bool)
      requires Valid()
      ensures r <==> exists v :: Pair(key, v) in View()
    {
      hide Indexed;
      forall v ensures Pair(key, v) in View() <==> Knows(mapIndex, key, v) {
        PairIndexed(listItems, mapIndex, key, v);
      }
      r := key in mapIndex;
      if r {
        HasValue(listItems, mapIndex, key);
      }
    }

    /** The least value of a key, if it has any. */
    method Get(key: K) returns (r: Option<V>)
      requires Valid()
      ensures r.None? <==> forall v :: Pair(key, v) !in View()
      ensures r.Some? ==> Pair(key, r.value) in View() && forall v :: Pair(key, v) in View() && v != r.value ==> less(r.value, v)
    {
      hide Indexed; hide Ordered; hide Pairs; hide IsOrder;
      forall v ensures Pair(key, v) in View() <==> Knows(mapIndex, key, v) {
        PairIndexed(listItems, mapIndex, key, v);
      }
      if key !in mapIndex {
        return None;
      }
      HasValue(listItems, mapIndex, key);
      var mapIt := mapIndex[key];
      LeastExists(mapIt.Keys, less);
      var v :| v in mapIt && Least(mapIt.Keys, v, less);
      ValueNode(listItems, mapIndex, nextId, key, v);
      return Some(listItems[Locate(listItems, mapIt[v])].value);
    }

    /** All values of a key in their order, each once. */
    method GetAll(key: K) returns (found: bool, values: seq<V>)
      requires Valid()
      ensures forall v :: v in values <==> Pair(key, v) in View()
      ensures Ascending(values, less) && (found <==> values != [])
    {
      hide Indexed; hide Ordered; hide Pairs; hide IsOrder;
      values := [];
      forall v ensures Pair(key, v) in View() <==> Knows(mapIndex, key, v) {
        PairIndexed(listItems, mapIndex, key, v);
      }
      if key !in mapIndex {
        return false, [];
      }
      HasValue(listItems, mapIndex, key);
      var mapIt := mapIndex[key];
      var todo := mapIt.Keys;
      while todo != {}
        invariant todo <= mapIt.Keys && Ascending(values, less)
        invariant forall v :: v in values <==> v in mapIt && v !in todo
        invariant forall v, w :: v in values && w in todo ==> less(v, w)
      {
        LeastExists(todo, less);
        var v :| v in todo && Least(todo, v, less);
        ValueNode(listItems, mapIndex, nextId, key, v);
        var item := listItems[Locate(listItems, mapIt[v])];
        values := values + [item.value];
        todo := todo - {v};
      }
      found := true;
    }

    /** Erase all pairs of a key. */
    method EraseItems(key: K)
      requires Valid()
      modifies this
      ensures Valid() && View() == EraseKey(old(View()), key)
    {
      hide Indexed; hide Ordered; hide Pairs; hide EraseKey; hide Erasing;
      if key !in mapIndex {
        NoKey(listItems, mapIndex, key);
        return;
      }
      var mapIt := mapIndex[key];
      var todo := mapIt.Keys;
      ErasingStart(listItems, mapIndex, key);
      while todo != {}
        invariant todo <= mapIt.Keys && mapIndex == old(mapIndex) && nCurrentSize == |listItems|
        invariant Ordered(listItems, nextId) && Erasing(listItems, mapIndex, key, todo)
        invariant EraseKey(Pairs(listItems), key) == EraseKey(old(View()), key)
      {
        var v :| v in todo;
        ErasingNext(listItems, mapIndex, key, todo, nextId, v);
        var i := Locate(listItems, mapIt[v]);
        EraseKeyRemove(Pairs(listItems), i, key);
        PairsRemove(listItems, i);
        listItems := RemoveAt(listItems, i);
        nCurrentSize := nCurrentSize - 1;
        todo := todo - {v};
      }
      ErasingDone(listItems, mapIndex, key);
      EraseKeyNone(Pairs(listItems), key);
      mapIndex := mapIndex - {key};
    }

    method EraseItem(key: K, value: V)
      requires Valid()
      modifies this
      ensures Valid() && View() == ErasePair(old(View()), Pair(key, value))
    {
      hide Indexed; hide Ordered; hide Pairs; hide ErasePair;
      PairIndexed(listItems, mapIndex, key, value);
      if key !in mapIndex || value !in mapIndex[key] {
        ErasePairNone(View(), Pair(key, value));
        return;
      }
      ValueNode(listItems, mapIndex, nextId, key, value);
      var i := Locate(listItems, mapIndex[key][value]);
      IndexedRemove(listItems, mapIndex, nextId, i);
      ItemsUnique(listItems, mapIndex, nextId);
      ErasePairAt(View(), i);
      PairsRemove(listItems, i);
      listItems := RemoveAt(listItems, i);
      nCurrentSize := nCurrentSize - 1;
      Unlink(key, value);
    }

    /** Rebuilt from the list alone, the index is the same. */
    method RebuildIndex()
      requires Valid()
      modifies this
      ensures Valid() && mapIndex == old(mapIndex) && View() == old(View())
    {
      hide Indexed; hide Ordered;
      ghost var before := mapIndex;
      mapIndex := map[];
      ItemsUnique(listItems, before, nextId);
      NothingIndexed<K, V>();
      for i := 0 to |listItems|
        invariant listItems == old(listItems) && nCurrentSize == old(nCurrentSize) && nextId == old(nextId)
        invariant Indexed(listItems[..i], mapIndex)
      {
        var item := listItems[i];
        PairIndexed(listItems[..i], mapIndex, item.key, item.value);
        assert Pair(item.key, item.value) !in Pairs(listItems[..i]) by {
          assert forall j :: 0 <= j < i ==> Pairs(listItems[..i])[j] == Pairs(listItems)[j] != Pairs(listItems)[i];
        }
        IndexedPut(listItems[..i], mapIndex, item.id, item.key, item.value);
        mapIndex := mapIndex[item.key := Entry(mapIndex, item.key)[item.value := item.id]];
        assert Item(item.id, item.key, item.value) == item;
        SameItems([item] + listItems[..i], listItems[..i + 1], mapIndex);
      }
      assert listItems[..|listItems|] == listItems;
      IndexUnique(listItems, mapIndex, before);
    }
  }

  lemma NothingIndexed<K(!new), V(!new)>()
    ensures Indexed<K, V>([], map[])
  {
  }

  lemma HasValue<K(!new), V(!new)>(items: seq<Item<K, V>>, index: Index<K, V>, key: K)
    requires Indexed(items, index) && key in index
    ensures exists v :: v in index[key] && Knows(index, key, v)
  {
    var v :| v in index[key];
    assert Knows(index, key, v);
  }

  lemma ValueNode<K(!new), V(!new)>(items: seq<Item<K, V>>, index: Index<K, V>, nextId: nat, k: K, v: V)
    requires Ordered(items, nextId) && Indexed(items, index) && Knows(index, k, v)
    ensures var i := Locate(items, index[k][v]); i < |items| && items[i] == Item(index[k][v], k, v)
  {
    assert Listed(items, index, k, v);
    ErasingNode(items, index, nextId, k, v);
  }

  lemma NoKey<K(!new), V(!new)>(items: seq<Item<K, V>>, index: Index<K, V>, key: K)
    requires Indexed(items, index) && key !in index
    ensures EraseKey(Pairs(items), key) == Pairs(items)
  {
    forall i | 0 <= i < |items| ensures Pairs(items)[i].key != key {
      assert Found(index, items[i]);
    }
    EraseKeyNone(Pairs(items), key);
  }

  lemma SameItems<K(!new), V(!new)>(a: seq<Item<K, V>>, b: seq<Item<K, V>>, index: Index<K, V>)
    requires Indexed(a, index) && forall it :: it in a <==> it in b
    ensures Indexed(b, index)
  {
    forall k, v | Knows(index, k, v) ensures Listed(b, index, k, v) {
      assert Listed(a, index, k, v);
    }
  }
}
