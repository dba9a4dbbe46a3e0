/** The bounded map: one item per key, and an index from keys to list nodes. */
module CacheMap {
  import opened Common
  import opened CacheModel
  import opened CacheMultiMap

  ghost predicate HasNode<K, V>(items: seq<Item<K, V>>, key: K, id: nat) {
    exists i :: 0 <= i < |items| && items[i].id == id && items[i].key == key
  }

  /** Index and list hold the same keys. */
  ghost predicate KeyIndexed<K(!new), V>(items: seq<Item<K, V>>, index: map<K, nat>) {
    && (forall i :: 0 <= i < |items| ==> items[i].key in index && index[items[i].key] == items[i].id)
    && (forall k :: k in index ==> HasNode(items, k, index[k]))
  }

  lemma KeysDistinct<K(!new), V>(items: seq<Item<K, V>>, index: map<K, nat>, nextId: nat)
    requires Ordered(items, nextId) && KeyIndexed(items, index)
    ensures DistinctKeys(Pairs(items))
  {
  }

  /** The node of a key, and its place among the pairs. */
  lemma KeyNode<K(!new), V>(items: seq<Item<K, V>>, index: map<K, nat>, nextId: nat, key: K)
    requires Ordered(items, nextId) && KeyIndexed(items, index)
    ensures key in index <==> KeyAt(Pairs(items), key) < |items|
    ensures key in index ==> Locate(items, index[key]) == KeyAt(Pairs(items), key)
  {
    var i := KeyAt(Pairs(items), key);
    if key in index {
      assert HasNode(items, key, index[key]);
      var n :| 0 <= n < |items| && items[n].id == index[key] && items[n].key == key;
      assert Pairs(items)[n].key == key;
      assert Locate(items, index[key]) == n;
      assert i == n by { KeysDistinct(items, index, nextId); }
    }
  }

  lemma KeyRemoved<K(!new), V(!new)>(items: seq<Item<K, V>>, index: map<K, nat>, nextId: nat, i: nat)
    requires Ordered(items, nextId) && KeyIndexed(items, index) && i < |items|
    ensures Ordered(RemoveAt(items, i), nextId) && KeyIndexed(RemoveAt(items, i), index - {items[i].key})
  {
    Removed(items, nextId, i);
    var rest, next := RemoveAt(items, i), index - {items[i].key};
    assert forall j :: 0 <= j < |rest| ==> rest[j] == items[if j < i then j else j + 1];
    forall k | k in next ensures HasNode(rest, k, next[k]) {
      assert HasNode(items, k, index[k]);
      var n :| 0 <= n < |items| && items[n].id == index[k] && items[n].key == k;
      assert rest[if n < i then n else n - 1] == items[n];
    }
  }

  lemma KeyPut<K(!new), V>(items: seq<Item<K, V>>, index: map<K, nat>, key: K, value: V, id: nat)
    requires KeyIndexed(items, index) && key !in index
    ensures KeyIndexed([Item(id, key, value)] + items, index[key := id])
  {
    var more, next := [Item(id, key, value)] + items, index[key := id];
    forall k | k in next ensures HasNode(more, k, next[k]) {
      if k == key {
        assert more[0].key == key;
      } else {
        assert HasNode(items, k, index[k]);
        var n :| 0 <= n < |items| && items[n].id == index[k] && items[n].key == k;
        assert more[n + 1] == items[n];
      }
    }
  }

  lemma KeyUpdate<K(!new), V>(items: seq<Item<K, V>>, index: map<K, nat>, i: nat, value: V)
    requires KeyIndexed(items, index) && i < |items|
    ensures KeyIndexed(items[i := items[i].(value := value)], index)
  {
    var r := items[i := items[i].(value := value)];
    forall k | k in index ensures HasNode(r, k, index[k]) {
      assert HasNode(items, k, index[k]);
      var n :| 0 <= n < |items| && items[n].id == index[k] && items[n].key == k;
      assert r[n].id == index[k] && r[n].key == k;
    }
  }

  lemma KeyIndexUnique<K(!new), V>(items: seq<Item<K, V>>, a: map<K, nat>, b: map<K, nat>)
    requires KeyIndexed(items, a) && KeyIndexed(items, b)
    ensures a == b
  {
    forall k ensures k in a <==> k in b {
      if k in a { assert HasNode(items, k, a[k]); }
      if k in b { assert HasNode(items, k, b[k]); }
    }
    forall k | k in a ensures a[k] == b[k] {
      assert HasNode(items, k, a[k]);
    }
  }

  lemma EraseKeyAt<K(!new), V(!new)>(l: seq<Pair<K, V>>, i: nat)
    requires DistinctKeys(l) && i < |l|
    ensures EraseKey(l, l[i].key) == RemoveAt(l, i)
  {
    hide EraseKey;
    EraseKeyRemove(l, i, l[i].key);
    var rest := RemoveAt(l, i);
    forall j | 0 <= j < |rest| ensures rest[j].key != l[i].key {
      assert rest[j] == l[if j < i then j else j + 1];
    }
    EraseKeyNone(rest, l[i].key);
  }

  class Cache<K(==, !new), V(!new)> {
    const nMaxSize: nat
    var nCurrentSize: int
    var listItems: seq<Item<K, V>>
    var mapIndex: map<K, nat>
    var nextId: nat

    ghost predicate Valid()
      reads this
    {
      nCurrentSize == |listItems| && Ordered(listItems, nextId) && KeyIndexed(listItems, mapIndex)
    }

    ghost function View(): seq<Pair<K, V>>
      reads this
    {
      Pairs(listItems)
    }

    constructor (nMaxSize: nat)
      ensures Valid() && View() == [] && this.nMaxSize == nMaxSize
    {
      this.nMaxSize, nCurrentSize, listItems, mapIndex, nextId := nMaxSize, 0, [], map[], 0;
    }

    method PruneLast()
      requires Valid()
      modifies this
      ensures Valid() && View() == DropOldest(old(View()))
      ensures mapIndex.Keys <= old(mapIndex.Keys)
    {
      hide KeyIndexed; hide Ordered;
      if nCurrentSize < 1 {
        return;
      }
      var n := |listItems| - 1;
      KeyRemoved(listItems, mapIndex, nextId, n);
      assert RemoveAt(listItems, n) == listItems[..n];
      mapIndex := mapIndex - {listItems[n].key};
      listItems := listItems[..n];
      nCurrentSize := nCurrentSize - 1;
    }

    method InsertItem(key: K, value: V)
      requires Valid()
      modifies this
      ensures Valid() && View() == Put(old(View()), nMaxSize, Pair(key, value))
    {
      hide KeyIndexed; hide KeyAt; hide Locate;
      KeyNode(listItems, mapIndex, nextId, key);
      if key in mapIndex {
        var i := Locate(listItems, mapIndex[key]);
        KeyUpdate(listItems, mapIndex, i, value);
        ghost var before := listItems;
        listItems := listItems[i := listItems[i].(value := value)];
        KeyAtIs(Pairs(before), key);
        assert Pairs(listItems) == Pairs(before)[i := Pair(key, value)];
        return;
      }
      if nCurrentSize == nMaxSize {
        PruneLast();
      }
      KeyPut(listItems, mapIndex, key, value, nextId);
      ghost var rest := listItems;
      listItems := [Item(nextId, key, value)] + listItems;
      mapIndex := mapIndex[key := nextId];
      nextId := nextId + 1;
      nCurrentSize := nCurrentSize + 1;
      assert Pairs(listItems) == [Pair(key, value)] + Pairs(rest);
    }

    method Get(key: K) returns (r: Option<V>)
      requires Valid()
      ensures forall v :: Pair(key, v) in View() <==> r == Some(v)
    {
      KeyNode(listItems, mapIndex, nextId, key);
      KeysDistinct(listItems, mapIndex, nextId);
      if key !in mapIndex {
        assert forall v :: Pair(key, v) !in View();
        return None;
      }
      var i := Locate(listItems, mapIndex[key]);
      assert View()[i] == Pair(key, listItems[i].value);
      return Some(listItems[i].value);
    }

    method EraseItem(key: K)
      requires Valid()
      modifies this
      ensures Valid() && View() == EraseKey(old(View()), key)
    {
      hide KeyIndexed; hide Ordered; hide Locate; hide EraseKey; hide KeyAt;
      KeyNode(listItems, mapIndex, nextId, key);
      KeyAtIs(View(), key);
      if key !in mapIndex {
        EraseKeyNone(View(), key);
        return;
      }
      var i := Locate(listItems, mapIndex[key]);
      KeysDistinct(listItems, mapIndex, nextId);
      EraseKeyAt(View(), i);
      PairsRemove(listItems, i);
      KeyRemoved(listItems, mapIndex, nextId, i);
      assert listItems[i].key == key;
      listItems := RemoveAt(listItems, i);
      mapIndex := mapIndex - {key};
      nCurrentSize := nCurrentSize - 1;
    }

    method RebuildIndex()
      requires Valid()
      modifies this
      ensures Valid() && mapIndex == old(mapIndex) && View() == old(View())
    {
      ghost var before := mapIndex;
      mapIndex := map[];
      for i := 0 to |listItems|
        invariant listItems == old(listItems) && nCurrentSize == old(nCurrentSize) && nextId == old(nextId)
        invariant forall j :: 0 <= j < i ==> listItems[j].key in mapIndex && mapIndex[listItems[j].key] == listItems[j].id
        invariant forall k :: k in mapIndex ==> HasNode(listItems, k, mapIndex[k])
      {
        assert HasNode(listItems, listItems[i].key, listItems[i].id);
        mapIndex := mapIndex[listItems[i].key := listItems[i].id];
      }
      KeyIndexUnique(listItems, mapIndex, before);
    }
  }

  lemma KeyAtIs<K, V>(l: seq<Pair<K, V>>, key: K)
    ensures var i := KeyAt(l, key); i <= |l| && (i < |l| ==> l[i].key == key) && forall j :: 0 <= j < i ==> l[j].key != key
  {
  }
}
