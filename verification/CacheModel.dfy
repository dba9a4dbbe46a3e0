/** Bounded caches as lists of pairs, newest first. */
module CacheModel {

  datatype Pair<K, V> = Pair(key: K, value: V)

  /** A list node; `id` is its identity, handed out in order of insertion. */
  datatype Item<K, V> = Item(id: nat, key: K, value: V) {
    function Contents(): Pair<K, V> { Pair(key, value) }
  }

  function Pairs<K, V>(items: seq<Item<K, V>>): (r: seq<Pair<K, V>>)
    ensures |r| == |items| && forall i :: 0 <= i < |r| ==> r[i] == items[i].Contents()
  {
    seq(|items|, i requires 0 <= i < |items| => items[i].Contents())
  }

  function DropOldest<T>(l: seq<T>): seq<T> {
    if l == [] then l else l[..|l| - 1]
  }

  // ----- The multimap -----

  /** A full cache drops its oldest pair first, even if the new one then turns out to be there already. */
  function Insert<K(==), V(==)>(l: seq<Pair<K, V>>, nMax: nat, p: Pair<K, V>): (r: (seq<Pair<K, V>>, bool)) {
    var kept := if |l| == nMax then DropOldest(l) else l;
    if p in kept then (kept, false) else ([p] + kept, true)
  }

  function EraseKey<K(==, !new), V(!new)>(l: seq<Pair<K, V>>, key: K): (r: seq<Pair<K, V>>)
    ensures |r| <= |l| && forall p :: p in r <==> p in l && p.key != key
  {
    if l == [] then []
    else
      var rest, last := EraseKey(l[..|l| - 1], key), l[|l| - 1];
      if last.key == key then rest else rest + [last]
  }

  function ErasePair<K(==, !new), V(==, !new)>(l: seq<Pair<K, V>>, p: Pair<K, V>): (r: seq<Pair<K, V>>)
    ensures |r| <= |l| && forall q :: q in r <==> q in l && q != p
  {
    if l == [] then []
    else
      var rest, last := ErasePair(l[..|l| - 1], p), l[|l| - 1];
      if last == p then rest else rest + [last]
  }

  predicate NoDuplicates<T(==)>(l: seq<T>) {
    forall i, j :: 0 <= i < j < |l| ==> l[i] != l[j]
  }

  // ----- Every run -----

  datatype Op<K, V> = OpInsert(p: Pair<K, V>) | OpEraseKey(key: K) | OpErase(q: Pair<K, V>)

  function Step<K(==, !new), V(==, !new)>(l: seq<Pair<K, V>>, nMax: nat, op: Op<K, V>): seq<Pair<K, V>> {
    match op
    case OpInsert(p) => Insert(l, nMax, p).0
    case OpEraseKey(key) => EraseKey(l, key)
    case OpErase(q) => ErasePair(l, q)
  }

  function Run<K(==, !new), V(==, !new)>(l: seq<Pair<K, V>>, nMax: nat, ops: seq<Op<K, V>>): seq<Pair<K, V>> {
    if ops == [] then l else Step(Run(l, nMax, ops[..|ops| - 1]), nMax, ops[|ops| - 1])
  }

  /** Inserting keeps the bound exactly when it held and is not zero. */
  lemma InsertBound<K, V>(l: seq<Pair<K, V>>, nMax: nat, p: Pair<K, V>)
    ensures |Insert(l, nMax, p).0| <= nMax <==> nMax >= 1 && |l| <= nMax
  {
  }

  lemma InsertNoDuplicates<K, V>(l: seq<Pair<K, V>>, nMax: nat, p: Pair<K, V>)
    requires NoDuplicates(l)
    ensures NoDuplicates(Insert(l, nMax, p).0) && (nMax >= 1 ==> p in Insert(l, nMax, p).0)
  {
  }

  lemma {:induction false} EraseKeyNoDuplicates<K(!new), V(!new)>(l: seq<Pair<K, V>>, key: K)
    requires NoDuplicates(l)
    ensures NoDuplicates(EraseKey(l, key))
  {
    if l != [] {
      var n := |l| - 1;
      assert NoDuplicates(l[..n]);
      EraseKeyNoDuplicates(l[..n], key);
      assert forall i :: 0 <= i < n ==> l[..n][i] == l[i];
      assert l[n] !in EraseKey(l[..n], key);
    }
  }

  lemma {:induction false} ErasePairNoDuplicates<K(!new), V(!new)>(l: seq<Pair<K, V>>, p: Pair<K, V>)
    requires NoDuplicates(l)
    ensures NoDuplicates(ErasePair(l, p))
  {
    if l != [] {
      var n := |l| - 1;
      assert NoDuplicates(l[..n]);
      ErasePairNoDuplicates(l[..n], p);
      assert forall i :: 0 <= i < n ==> l[..n][i] == l[i];
      assert l[n] !in ErasePair(l[..n], p);
    }
  }

  lemma {:induction false} RunBounded<K(!new), V(!new)>(nMax: nat, ops: seq<Op<K, V>>)
    requires nMax >= 1
    ensures |Run([], nMax, ops)| <= nMax && NoDuplicates(Run([], nMax, ops))
  {
    if ops != [] {
      var n := |ops| - 1;
      RunBounded(nMax, ops[..n]);
      var l := Run([], nMax, ops[..n]);
      match ops[n]
      case OpInsert(p) => InsertBound(l, nMax, p); InsertNoDuplicates(l, nMax, p);
      case OpEraseKey(key) => EraseKeyNoDuplicates(l, key);
      case OpErase(q) => ErasePairNoDuplicates(l, q);
    }
  }

  /** An insertion loses no pair but the oldest, and that only from a full cache. */
  lemma OnlyOldestEvicted<K, V>(l: seq<Pair<K, V>>, nMax: nat, p: Pair<K, V>, q: Pair<K, V>)
    requires q in l && q !in Insert(l, nMax, p).0
    ensures |l| == nMax && q == l[|l| - 1]
  {
    var kept := if |l| == nMax then DropOldest(l) else l;
    assert forall k :: k in kept ==> k in Insert(l, nMax, p).0;
    if |l| == nMax {
      assert l == kept + [l[|l| - 1]];
    }
  }

  /** A pair that is already there leaves the cache as it is exactly unless the cache is full with others. */
  lemma DuplicateKept<K, V>(l: seq<Pair<K, V>>, nMax: nat, p: Pair<K, V>)
    requires NoDuplicates(l) && p in l
    ensures Insert(l, nMax, p).0 == l <==> |l| != nMax || nMax == 1
  {
    if |l| == nMax {
      var kept, r := l[..|l| - 1], Insert(l, nMax, p).0;
      if p in kept {
        assert |r| == |l| - 1;
      } else if |l| > 1 {
        assert r[0] == p && l[0] == kept[0];
      } else {
        assert l == [p] && r == [p];
      }
    }
  }

  /** So a second insertion of the newest pair of a full cache costs it the oldest. */
  lemma DuplicateEvicts()
    ensures Insert([Pair(2, 2), Pair(1, 1)], 2, Pair(2, 2)) == ([Pair(2, 2)], false)
  {
    assert [Pair(2, 2), Pair(1, 1)][..1] == [Pair(2, 2)];
  }

  // ----- Values in order -----

  /** A strict total order. */
  ghost predicate IsOrder<V(!new)>(less: (V, V) -> bool) {
    && (forall a :: !less(a, a))
    && (forall a, b :: a == b || less(a, b) || less(b, a))
    && (forall a, b, c :: less(a, b) && less(b, c) ==> less(a, c))
  }

  ghost predicate Ascending<V>(values: seq<V>, less: (V, V) -> bool) {
    forall i, j :: 0 <= i < j < |values| ==> less(values[i], values[j])
  }

  predicate Least<V(!new)>(s: set<V>, v: V, less: (V, V) -> bool) {
    v in s && forall w :: w in s && w != v ==> less(v, w)
  }

  lemma {:induction false} LeastExists<V(!new)>(s: set<V>, less: (V, V) -> bool)
    requires IsOrder(less) && s != {}
    ensures exists v :: Least(s, v, less)
  {
    var v :| v in s;
    var rest := s - {v};
    assert forall w :: w in s ==> w == v || w in rest;
    if rest == {} {
      assert Least(s, v, less);
    } else {
      LeastExists(rest, less);
      var w :| Least(rest, w, less);
      if less(v, w) {
        assert Least(s, v, less);
      } else {
        assert Least(s, w, less);
      }
    }
  }

  // ----- The map: one value per key -----

  ghost predicate DistinctKeys<K, V>(l: seq<Pair<K, V>>) {
    forall i, j :: 0 <= i < j < |l| ==> l[i].key != l[j].key
  }

  function KeyAt<K(==), V>(l: seq<Pair<K, V>>, key: K): (i: nat)
    ensures i <= |l| && (i < |l| ==> l[i].key == key) && forall j :: 0 <= j < i ==> l[j].key != key
  {
    if l == [] || l[0].key == key then 0 else 1 + KeyAt(l[1..], key)
  }

  /** A known key keeps its place and gets the new value; a new one goes to the front. */
  function Put<K(==), V>(l: seq<Pair<K, V>>, nMax: nat, p: Pair<K, V>): (r: seq<Pair<K, V>>) {
    var i := KeyAt(l, p.key);
    if i < |l| then l[i := p] else [p] + (if |l| == nMax then DropOldest(l) else l)
  }

  /** The pair is stored, other keys keep theirs, and only the oldest can be lost. */
  lemma PutMeaning<K, V>(l: seq<Pair<K, V>>, nMax: nat, p: Pair<K, V>, q: Pair<K, V>)
    requires DistinctKeys(l)
    ensures DistinctKeys(Put(l, nMax, p)) && p in Put(l, nMax, p)
    ensures |Put(l, nMax, p)| <= nMax <==> |l| <= nMax && (nMax >= 1 || KeyAt(l, p.key) < |l|)
    ensures q.key != p.key && q in Put(l, nMax, p) ==> q in l
    ensures q.key != p.key && q in l && q !in Put(l, nMax, p) ==> |l| == nMax && q == l[|l| - 1]
  {
    var i := KeyAt(l, p.key);
    var r := Put(l, nMax, p);
    if i < |l| {
      assert r[i] == p;
      if q.key != p.key && q in l {
        var j :| 0 <= j < |l| && l[j] == q;
        assert r[j] == q;
      }
    } else if q in l {
      var j :| 0 <= j < |l| && l[j] == q;
      if |l| == nMax {
        assert j < |l| - 1 ==> DropOldest(l)[j] == q && r[j + 1] == q;
      } else {
        assert r[j + 1] == q;
      }
    }
  }

  datatype MapOp<K, V> = OpPut(p: Pair<K, V>) | OpDrop(key: K)

  function MapRun<K(==, !new), V(!new)>(l: seq<Pair<K, V>>, nMax: nat, ops: seq<MapOp<K, V>>): seq<Pair<K, V>> {
    if ops == [] then l
    else
      var before := MapRun(l, nMax, ops[..|ops| - 1]);
      match ops[|ops| - 1]
      case OpPut(p) => Put(before, nMax, p)
      case OpDrop(key) => EraseKey(before, key)
  }

  lemma {:induction false} EraseKeyDistinct<K(!new), V(!new)>(l: seq<Pair<K, V>>, key: K)
    requires DistinctKeys(l)
    ensures DistinctKeys(EraseKey(l, key))
  {
    if l != [] {
      var n := |l| - 1;
      var rest := EraseKey(l[..n], key);
      assert DistinctKeys(l[..n]);
      EraseKeyDistinct(l[..n], key);
      forall i | 0 <= i < |rest| ensures rest[i].key != l[n].key {
        assert rest[i] in l[..n];
        var j :| 0 <= j < n && l[j] == rest[i];
      }
    }
  }

  lemma {:induction false} MapRunBounded<K(!new), V(!new)>(nMax: nat, ops: seq<MapOp<K, V>>)
    requires nMax >= 1
    ensures |MapRun([], nMax, ops)| <= nMax && DistinctKeys(MapRun([], nMax, ops))
  {
    if ops != [] {
      var n := |ops| - 1;
      MapRunBounded(nMax, ops[..n]);
      var l := MapRun([], nMax, ops[..n]);
      match ops[n]
      case OpPut(p) => PutMeaning(l, nMax, p, p);
      case OpDrop(key) => EraseKeyDistinct(l, key);
    }
  }

  // ----- Order -----

  /** What an insertion makes of a list without the pair: the pair goes to the front, the others keep their order. */
  lemma InsertedFirst<K, V>(l: seq<Pair<K, V>>, nMax: nat, p: Pair<K, V>)
    requires p !in l
    ensures var (r, isNew) := Insert(l, nMax, p);
            isNew && r == [p] + if |l| == nMax && l != [] then l[..|l| - 1] else l
  {
  }

  /** The last `nMax` of the pairs, newest first. */
  ghost predicate Newest<T>(l: seq<T>, inserted: seq<T>, nMax: nat) {
    && |l| == (if |inserted| < nMax then |inserted| else nMax)
    && forall k :: 0 <= k < |l| ==> l[k] == inserted[|inserted| - 1 - k]
  }

  function Inserts<K, V>(pairs: seq<Pair<K, V>>): (r: seq<Op<K, V>>)
    ensures |r| == |pairs| && forall i :: 0 <= i < |r| ==> r[i] == OpInsert(pairs[i])
  {
    seq(|pairs|, i requires 0 <= i < |pairs| => OpInsert(pairs[i]))
  }

  /** After any number of different pairs the cache holds the newest of them, as many as fit. */
  lemma {:induction false} NewestKept<K(!new), V(!new)>(nMax: nat, pairs: seq<Pair<K, V>>)
    requires nMax >= 1 && NoDuplicates(pairs)
    ensures Newest(Run([], nMax, Inserts(pairs)), pairs, nMax)
  {
    if pairs != [] {
      var n := |pairs| - 1;
      var before, p := pairs[..n], pairs[n];
      NewestKept(nMax, before);
      assert Inserts(pairs)[..n] == Inserts(before);
      var l := Run([], nMax, Inserts(before));
      assert p !in l by {
        forall k | 0 <= k < |l| ensures l[k] != p { assert l[k] == before[n - 1 - k] == pairs[n - 1 - k]; }
      }
      InsertedFirst(l, nMax, p);
      NewestNext(l, before, nMax, p);
      assert pairs == before + [p];
    }
  }

  lemma NewestNext<T>(l: seq<T>, inserted: seq<T>, nMax: nat, p: T)
    requires nMax >= 1 && Newest(l, inserted, nMax)
    ensures Newest([p] + if |l| == nMax && l != [] then l[..|l| - 1] else l, inserted + [p], nMax)
  {
  }

  function Puts<K, V>(pairs: seq<Pair<K, V>>): (r: seq<MapOp<K, V>>)
    ensures |r| == |pairs| && forall i :: 0 <= i < |r| ==> r[i] == OpPut(pairs[i])
  {
    seq(|pairs|, i requires 0 <= i < |pairs| => OpPut(pairs[i]))
  }

  /** So does the map, for different keys. */
  lemma {:induction false} NewestKeysKept<K(!new), V(!new)>(nMax: nat, pairs: seq<Pair<K, V>>)
    requires nMax >= 1 && DistinctKeys(pairs)
    ensures Newest(MapRun([], nMax, Puts(pairs)), pairs, nMax)
  {
    if pairs != [] {
      var n := |pairs| - 1;
      var before, p := pairs[..n], pairs[n];
      assert DistinctKeys(before);
      NewestKeysKept(nMax, before);
      assert Puts(pairs)[..n] == Puts(before);
      var l := MapRun([], nMax, Puts(before));
      forall k | 0 <= k < |l| ensures l[k].key != p.key { assert l[k] == before[n - 1 - k] == pairs[n - 1 - k]; }
      assert Put(l, nMax, p) == [p] + if |l| == nMax && l != [] then l[..|l| - 1] else l;
      NewestNext(l, before, nMax, p);
      assert pairs == before + [p];
    }
  }

  /** A known key gets its new value without moving. */
  lemma PutInPlace<K, V>(l: seq<Pair<K, V>>, nMax: nat, p: Pair<K, V>, i: nat)
    requires DistinctKeys(l) && i < |l| && l[i].key == p.key
    ensures Put(l, nMax, p) == l[i := p]
  {
  }

  /** Erasing keeps the order of what stays. */
  lemma {:induction false} EraseKeySplits<K(!new), V(!new)>(a: seq<Pair<K, V>>, b: seq<Pair<K, V>>, key: K)
    ensures EraseKey(a + b, key) == EraseKey(a, key) + EraseKey(b, key)
    decreases |b|
  {
    if b == [] {
      assert a + b == a;
    } else {
      var n := |b| - 1;
      assert (a + b)[..|a + b| - 1] == a + b[..n];
      EraseKeySplits(a, b[..n], key);
    }
  }

  lemma {:induction false} ErasePairSplits<K(!new), V(!new)>(a: seq<Pair<K, V>>, b: seq<Pair<K, V>>, p: Pair<K, V>)
    ensures ErasePair(a + b, p) == ErasePair(a, p) + ErasePair(b, p)
    decreases |b|
  {
    if b == [] {
      assert a + b == a;
    } else {
      var n := |b| - 1;
      assert (a + b)[..|a + b| - 1] == a + b[..n];
      ErasePairSplits(a, b[..n], p);
    }
  }
}
