/**
 Writing the address manager to a stream and reading it back into a fresh manager.
 The stream is a sequence of typed values; their byte encoding is not modelled.
 */
module AddrManStream {
  import opened Common
  import opened AddrManModel
  import Ops = AddrManOps
  import Runs = AddrManRuns
  import opened AddrMan

  const BIT_30 := 0x4000_0000

  /** The fields of an entry that are written. */
  datatype Record = Record(service: Service, services: set<nat>, time: nat, source: NetAddr, lastSuccess: int, attempts: int)

  datatype Token = ByteToken(b: nat) | KeyToken(key: nat) | IntToken(n: int) | InfoToken(r: Record)

  function ToRecord(info: Info): Record {
    Record(info.service, info.services, info.time, info.source, info.lastSuccess, info.attempts)
  }

  function FromRecord(r: Record, pos: int): Info {
    Info(r.service, r.services, r.time, r.source, 0, r.lastSuccess, r.attempts, 0, false, pos)
  }

  function FlipBit30(n: int): int {
    if (n / BIT_30) % 2 == 0 then n + BIT_30 else n - BIT_30
  }

  /** The mark of the format is one bit of the 32-bit word, which flipping twice restores. */
  lemma FlipBit30Exactly(n: int)
    requires 0 <= n < 2 * BIT_30
    ensures BIT_30 == 1024 * 1024 * 1024
    ensures 0 <= FlipBit30(n) < 2 * BIT_30 && FlipBit30(n) % BIT_30 == n % BIT_30 && FlipBit30(n) != n
    ensures FlipBit30(FlipBit30(n)) == n
  {
  }

  // ----- The written form -----

  predicate Wanted(info: Info, wantTried: bool) {
    if wantTried then info.inTried else info.refCount != 0
  }

  /** The ids below `n` of the entries of one table, ascending. */
  function Ids(infos: map<int, Info>, wantTried: bool, n: nat): (ids: seq<int>)
    ensures |ids| <= n
  {
    if n == 0 then []
    else
      var rest := Ids(infos, wantTried, n - 1);
      if n - 1 in infos && Wanted(infos[n - 1], wantTried) then rest + [n - 1] else rest
  }

  function Records(infos: map<int, Info>, ids: seq<int>): (s: seq<Token>)
    requires Runs.Known(infos, ids)
    ensures |s| == |ids|
  {
    seq(|ids|, i requires 0 <= i < |ids| => (assert var id := ids[i]; id in infos; InfoToken(ToRecord(infos[ids[i]]))))
  }

  lemma {:induction false} IdsKnown(infos: map<int, Info>, wantTried: bool, n: nat)
    ensures Runs.Known(infos, Ids(infos, wantTried, n))
    ensures forall i :: 0 <= i < |Ids(infos, wantTried, n)| ==>
              var id := Ids(infos, wantTried, n)[i]; 0 <= id < n && id in infos && Wanted(infos[id], wantTried)
    ensures forall i, j :: 0 <= i < j < |Ids(infos, wantTried, n)| ==>
              Ids(infos, wantTried, n)[i] < Ids(infos, wantTried, n)[j]
  {
    if n > 0 {
      IdsKnown(infos, wantTried, n - 1);
    }
  }

  function Below(infos: map<int, Info>, wantTried: bool, n: nat): set<int> {
    set id | id in infos && Wanted(infos[id], wantTried) && 0 <= id < n
  }

  lemma {:induction false} IdsSize(infos: map<int, Info>, wantTried: bool, n: nat)
    ensures |Ids(infos, wantTried, n)| == |Below(infos, wantTried, n)|
  {
    if n > 0 {
      IdsSize(infos, wantTried, n - 1);
      var before, now := Below(infos, wantTried, n - 1), Below(infos, wantTried, n);
      if n - 1 in infos && Wanted(infos[n - 1], wantTried) {
        assert now == before + {n - 1};
      } else {
        assert now == before;
      }
    }
  }

  /** The number under which the writer refers to an entry of the new table. */
  function Index(infos: map<int, Info>, wantTried: bool, id: int): nat {
    if id < 0 then 0 else |Ids(infos, wantTried, id)|
  }

  lemma {:induction false} IdsAtIndex(infos: map<int, Info>, wantTried: bool, n: nat, id: nat)
    requires id < n && id in infos && Wanted(infos[id], wantTried)
    ensures Index(infos, wantTried, id) < |Ids(infos, wantTried, n)|
    ensures Ids(infos, wantTried, n)[Index(infos, wantTried, id)] == id
  {
    if id < n - 1 {
      IdsAtIndex(infos, wantTried, n - 1, id);
    }
  }

  lemma IndexOfIds(infos: map<int, Info>, wantTried: bool, n: nat, i: nat)
    requires i < |Ids(infos, wantTried, n)|
    ensures Index(infos, wantTried, Ids(infos, wantTried, n)[i]) == i
  {
    IdsKnown(infos, wantTried, n);
    var ids := Ids(infos, wantTried, n);
    var id := ids[i];
    IdsAtIndex(infos, wantTried, n, id);
  }

  /** The references written for the cells of a bucket from position `p` on. */
  function CellTokens(st: State, bucket: nat, p: nat): seq<Token>
    requires p <= BUCKET_SIZE
    decreases BUCKET_SIZE - p
  {
    if p == BUCKET_SIZE then []
    else
      var u := Slot(bucket, p);
      (if u in st.newTable then [IntToken(Index(st.infos, false, st.newTable[u]))] else [])
      + CellTokens(st, bucket, p + 1)
  }

  /** The buckets of the new table from `bucket` on. */
  function BucketTokens(st: State, bucket: nat): seq<Token>
    requires bucket <= NEW_BUCKET_COUNT
    decreases NEW_BUCKET_COUNT - bucket
  {
    if bucket == NEW_BUCKET_COUNT then []
    else
      [IntToken(|CellTokens(st, bucket, 0)|)] + CellTokens(st, bucket, 0) + BucketTokens(st, bucket + 1)
  }

  function Header(st: State): seq<Token> {
    [ByteToken(1), ByteToken(32), KeyToken(st.key), IntToken(st.nNew), IntToken(st.nTried),
     IntToken(FlipBit30(NEW_BUCKET_COUNT))]
  }

  /** The entries of one table as written. */
  function Entries(st: State, wantTried: bool): (s: seq<Token>)
    requires st.idCount >= 0
    ensures |s| == |Ids(st.infos, wantTried, st.idCount)|
  {
    IdsKnown(st.infos, wantTried, st.idCount);
    Records(st.infos, Ids(st.infos, wantTried, st.idCount))
  }

  function Written(st: State): seq<Token>
    requires st.idCount >= 0
  {
    Header(st) + Entries(st, false) + Entries(st, true) + BucketTokens(st, 0)
  }

  // ----- Serialize -----

  lemma RecordsAppend(infos: map<int, Info>, ids: seq<int>, id: int)
    requires Runs.Known(infos, ids) && id in infos
    ensures Runs.Known(infos, ids + [id])
    ensures Records(infos, ids + [id]) == Records(infos, ids) + [InfoToken(ToRecord(infos[id]))]
  {
  }

  /** The counters bound the number of entries written: the two asserts of Serialize. */
  lemma IdsBounded(st: State, wantTried: bool, n: nat)
    requires Inv(st) && n <= st.idCount
    ensures |Ids(st.infos, wantTried, n)| <= if wantTried then st.nTried else st.nNew
    ensures n == st.idCount ==> |Ids(st.infos, wantTried, n)| == if wantTried then st.nTried else st.nNew
  {
    IdsSize(st.infos, wantTried, n);
    IdsSize(st.infos, wantTried, st.idCount);
    var all := Below(st.infos, wantTried, st.idCount);
    AllBelow(st, wantTried);
    SubsetSize(Below(st.infos, wantTried, n), all);
  }

  lemma AllBelow(st: State, wantTried: bool)
    requires Inv(st)
    ensures |Below(st.infos, wantTried, st.idCount)| == if wantTried then st.nTried else st.nNew
  {
    hide Indexed; hide Placed;
    var all := Below(st.infos, wantTried, st.idCount);
    if wantTried {
      assert all == TriedIds(st.infos);
    } else {
      forall id | id in st.infos ensures id in all <==> id in NewIds(st.infos) {
        assert EntryOk(st.infos[id], false);
      }
      assert all == NewIds(st.infos) - {};
    }
  }

  /** One of the two loops that write entries, in ascending order of their ids; `unk` is mapUnkIds. */
  method WriteEntries(m: Manager, wantTried: bool) returns (s: seq<Token>, unk: map<int, nat>)
    requires m.Valid()
    ensures m.View().idCount >= 0 && s == Entries(m.View(), wantTried)
    ensures forall id :: id in m.mapInfo ==> id in unk && unk[id] == Index(m.mapInfo, wantTried, id)
  {
    hide Between; hide Holds; hide Records; hide Ids;
    IdCountNat(m.View());
    s, unk := [], map[];
    IdsStart(m.mapInfo, wantTried);
    ghost var st := m.View();
    var nIds := 0;
    for id := 0 to m.nIdCount
      invariant Runs.Known(m.mapInfo, Ids(m.mapInfo, wantTried, id)) && s == Records(m.mapInfo, Ids(m.mapInfo, wantTried, id))
      invariant nIds == |Ids(m.mapInfo, wantTried, id)|
      invariant forall k :: k in m.mapInfo && 0 <= k < id ==> k in unk && unk[k] == Index(m.mapInfo, wantTried, k)
    {
      IdsNext(m.mapInfo, wantTried, id);
      if id in m.mapInfo {
        unk := unk[id := nIds];
        if Wanted(m.mapInfo[id], wantTried) {
          IdsBounded(st, wantTried, id + 1);
          assert nIds != if wantTried then m.nTried else m.nNew;
          RecordsAppend(m.mapInfo, Ids(m.mapInfo, wantTried, id), id);
          s := s + [InfoToken(ToRecord(m.mapInfo[id]))];
          nIds := nIds + 1;
        }
      }
    }
    forall id | id in m.mapInfo ensures id < m.nIdCount && id >= 0 {
      IdBelow(st, id);
    }
  }

  lemma IdBelow(st: State, id: int)
    requires Inv(st) && id in st.infos
    ensures 0 <= id < st.idCount
  {
  }

  /** The cells of one bucket of the new table: their number, then their occupants' indices. */
  method WriteBucket(m: Manager, bucket: nat, unk: map<int, nat>) returns (s: seq<Token>)
    requires m.Valid() && bucket < NEW_BUCKET_COUNT
    requires forall id :: id in m.mapInfo ==> id in unk && unk[id] == Index(m.mapInfo, false, id)
    ensures s == [IntToken(|CellTokens(m.View(), bucket, 0)|)] + CellTokens(m.View(), bucket, 0)
  {
    hide Between; hide Holds; hide Index;
    ghost var st := m.View();
    var nSize := 0;
    for i := 0 to BUCKET_SIZE
      invariant nSize + |CellTokens(st, bucket, i)| == |CellTokens(st, bucket, 0)|
    {
      CellAt(m.vvNew, m.newCells, bucket, i);
      if m.vvNew[bucket, i] != -1 {
        nSize := nSize + 1;
      }
    }
    s := [IntToken(nSize)];
    for i := 0 to BUCKET_SIZE
      invariant s + CellTokens(st, bucket, i) == [IntToken(nSize)] + CellTokens(st, bucket, 0)
    {
      CellAt(m.vvNew, m.newCells, bucket, i);
      if m.vvNew[bucket, i] != -1 {
        Ops.UnlinkKeeps(st, Slot(bucket, i), {}, 0);
        s := s + [IntToken(unk[m.vvNew[bucket, i]])];
      }
    }
  }

  method Serialize(m: Manager) returns (s: seq<Token>)
    requires m.Valid()
    ensures m.View().idCount >= 0 && s == Written(m.View())
  {
    hide Between; hide Holds; hide Index; hide Entries; hide CellTokens;
    ghost var st := m.View();
    IdCountNat(st);
    s := [ByteToken(1), ByteToken(32), KeyToken(m.nKey), IntToken(m.nNew), IntToken(m.nTried),
          IntToken(FlipBit30(NEW_BUCKET_COUNT))];
    var newEntries, unk := WriteEntries(m, false);
    var triedEntries, _ := WriteEntries(m, true);
    s := s + newEntries + triedEntries;
    ghost var start := s;
    for bucket := 0 to NEW_BUCKET_COUNT
      invariant s + BucketTokens(st, bucket) == start + BucketTokens(st, 0)
    {
      var cells := WriteBucket(m, bucket, unk);
      assert s + BucketTokens(st, bucket) == s + cells + BucketTokens(st, bucket + 1);
      s := s + cells;
    }
  }

  lemma IdCountNat(st: State)
    requires Inv(st)
    ensures st.idCount >= 0
  {
  }

  lemma IdsStart(infos: map<int, Info>, wantTried: bool)
    ensures Ids(infos, wantTried, 0) == [] && Runs.Known(infos, []) && Records(infos, []) == []
  {
  }

  lemma IdsNext(infos: map<int, Info>, wantTried: bool, id: nat)
    ensures Runs.Known(infos, Ids(infos, wantTried, id))
    ensures Ids(infos, wantTried, id + 1) ==
            if id in infos && Wanted(infos[id], wantTried) then Ids(infos, wantTried, id) + [id]
            else Ids(infos, wantTried, id)
  {
    IdsKnown(infos, wantTried, id);
  }

  // ----- The restored manager -----

  /** The order in which the entries were written: the new table's, then the tried table's. */
  function Order(st: State): seq<int> {
    Ids(st.infos, false, Ops.Max0(st.idCount)) + Ids(st.infos, true, Ops.Max0(st.idCount))
  }

  /** The id under which an entry of `st` comes back. */
  function NewId(st: State, id: int): int
    requires id in st.infos
  {
    if st.infos[id].inTried then st.nNew + Index(st.infos, true, id) else Index(st.infos, false, id)
  }

  /** The order is a numbering of the entries, the new table's first. */
  ghost predicate Numbered(st: State, order: seq<int>) {
    && 0 <= st.nNew && 0 <= st.nTried && |order| == st.nNew + st.nTried
    && (forall j :: 0 <= j < |order| ==>
          var id := order[j]; id in st.infos && NewId(st, id) == j && (st.infos[id].inTried <==> j >= st.nNew))
    && (forall id :: id in st.infos ==> 0 <= NewId(st, id) < |order| && order[NewId(st, id)] == id)
  }

  lemma OrderNumbers(st: State)
    requires Inv(st)
    ensures st.idCount >= 0 && Numbered(st, Order(st))
  {
    hide Between; hide Ids; hide Index; hide RandomOk; hide AddrOk;
    IdCountNat(st);
    var order := Order(st);
    IdsBounded(st, false, st.idCount);
    IdsBounded(st, true, st.idCount);
    IdsKnown(st.infos, false, st.idCount);
    IdsKnown(st.infos, true, st.idCount);
    forall j | 0 <= j < |order|
      ensures var id := order[j]; id in st.infos && NewId(st, id) == j && (st.infos[id].inTried <==> j >= st.nNew)
    {
      var id := order[j];
      if j < st.nNew {
        IndexOfIds(st.infos, false, st.idCount, j);
        assert id == Ids(st.infos, false, st.idCount)[j];
      } else {
        IndexOfIds(st.infos, true, st.idCount, j - st.nNew);
        assert id == Ids(st.infos, true, st.idCount)[j - st.nNew];
      }
      Ops.EntrySound(st, id);
    }
    forall id | id in st.infos ensures 0 <= NewId(st, id) < |order| && order[NewId(st, id)] == id {
      IdBelow(st, id);
      Ops.EntrySound(st, id);
      IdsAtIndex(st.infos, st.infos[id].inTried, st.idCount, id);
    }
  }

  /** An entry as it comes back, in place `j`, before its references were counted. */
  function Reloaded(info: Info, j: int): Info {
    info.(lastTry := 0, refCount := 0, randomPos := j)
  }

  /**
   `r` is `st` up to renumbering: same key and counters, same addresses with their sources and
   statistics, same tried and new cells, same reference counts. The last-try times start from zero.
   */
  ghost predicate Restored(st: State, r: State) {
    && r.h == st.h && r.key == st.key && r.nNew == st.nNew && r.nTried == st.nTried
    && r.idCount == st.nNew + st.nTried
    && |r.random| == r.idCount && (forall j :: 0 <= j < |r.random| ==> r.random[j] == j)
    && (forall id :: id in st.infos ==>
          var j := NewId(st, id);
          0 <= j < r.idCount && j in r.infos && r.infos[j] == st.infos[id].(lastTry := 0, randomPos := j))
    && (forall j :: j in r.infos <==> 0 <= j < r.idCount)
    && (forall a :: a in st.addrs <==> a in r.addrs)
    && (forall a :: a in st.addrs ==> var id := st.addrs[a]; id in st.infos && r.addrs[a] == NewId(st, id))
    && SameCells(st, st.triedTable, r.triedTable) && SameCells(st, st.newTable, r.newTable)
  }

  ghost predicate SameCells(st: State, was: map<Slot, int>, cells: map<Slot, int>) {
    && (forall s :: s in was <==> s in cells)
    && (forall s :: s in was ==> var id := was[s]; id in st.infos && cells[s] == NewId(st, id))
  }

  lemma RestoredEntry(st: State, r: State, order: seq<int>, j: int)
    requires Numbered(st, order) && Restored(st, r) && j in r.infos
    ensures 0 <= j < |order|
    ensures var id := order[j];
            id in st.infos && NewId(st, id) == j && r.infos[j] == st.infos[id].(lastTry := 0, randomPos := j)
            && (r.infos[j].inTried <==> j >= st.nNew)
  {
  }

  lemma RestoredIndexed(st: State, r: State, order: seq<int>)
    requires AddrOk(st.infos, st.addrs) && Numbered(st, order) && Restored(st, r)
    ensures Indexed(r)
  {
    hide SameCells;
    forall j | j in r.infos
      ensures 0 <= r.infos[j].randomPos < |r.random| && r.random[r.infos[j].randomPos] == j
      ensures var a := r.infos[j].service.addr; a in r.addrs && r.addrs[a] == j
    {
      RestoredEntry(st, r, order, j);
      var id := order[j];
      assert st.infos[id].service.addr in st.addrs;
    }
    forall a | a in r.addrs ensures var j := r.addrs[a]; j in r.infos && r.infos[j].service.addr == a {
      var id := st.addrs[a];
      assert id in st.infos && st.infos[id].service.addr == a;
    }
    forall k | 0 <= k < |r.random| ensures var j := r.random[k]; j in r.infos && r.infos[j].randomPos == k {
      RestoredEntry(st, r, order, k);
    }
  }

  lemma RestoredNewTable(st: State, r: State, order: seq<int>)
    requires Placed(st) && Numbered(st, order) && Restored(st, r)
    ensures NewOk(r.h, r.key, r.infos, r.newTable) && RefsOk(r.infos, r.newTable)
  {
    forall s | s in r.newTable
      ensures var j := r.newTable[s];
              s.bucket < NEW_BUCKET_COUNT && j in r.infos && s == NewSlot(r.h, r.key, r.infos[j].service, s.bucket)
    {
      var id := st.newTable[s];
      assert id in st.infos;
    }
    forall j | j in r.infos ensures r.infos[j].refCount == |Refs(r.newTable, j)| {
      RestoredEntry(st, r, order, j);
      var id := order[j];
      forall s ensures s in Refs(r.newTable, j) <==> s in Refs(st.newTable, id) {
        if s in st.newTable {
          var k := st.newTable[s];
          assert k in st.infos && r.newTable[s] == NewId(st, k) && order[NewId(st, k)] == k;
        }
      }
      assert Refs(r.newTable, j) == Refs(st.newTable, id);
    }
  }

  lemma RestoredTriedTable(st: State, r: State, order: seq<int>)
    requires Placed(st) && Numbered(st, order) && Restored(st, r)
    ensures TriedOk(r.h, r.key, r.infos, r.triedTable)
  {
    forall s | s in r.triedTable
      ensures var j := r.triedTable[s];
              j in r.infos && r.infos[j].inTried && s == TriedSlot(r.h, r.key, r.infos[j].service)
    {
      var id := st.triedTable[s];
      assert id in st.infos;
    }
    forall j | j in r.infos && r.infos[j].inTried
      ensures var s := TriedSlot(r.h, r.key, r.infos[j].service); s in r.triedTable && r.triedTable[s] == j
    {
      RestoredEntry(st, r, order, j);
      var id := order[j];
      assert st.infos[id].inTried;
    }
  }

  function Interval(lo: int, hi: int): (ids: set<int>)
    requires lo <= hi
    ensures (forall j :: j in ids <==> lo <= j < hi) && |ids| == hi - lo
    decreases hi - lo
  {
    if lo == hi then {} else Interval(lo, hi - 1) + {hi - 1}
  }

  lemma RestoredTallied(st: State, r: State, order: seq<int>)
    requires Tallied(st, {}, 0) && Numbered(st, order) && Restored(st, r)
    ensures Tallied(r, {}, 0)
  {
    hide SameCells;
    forall j | j in r.infos
      ensures 0 <= j < r.idCount && EntryOk(r.infos[j], false) && (r.infos[j].inTried <==> j >= st.nNew)
    {
      RestoredEntry(st, r, order, j);
      var id := order[j];
      assert EntryOk(st.infos[id], false);
    }
    assert TriedIds(r.infos) == Interval(st.nNew, r.idCount);
    assert NewIds(r.infos) == Interval(0, st.nNew);
    assert NewIds(r.infos) - {} == NewIds(r.infos);
  }

  /** A restored manager is consistent. */
  lemma RestoredConsistent(st: State, r: State)
    requires Inv(st) && Restored(st, r)
    ensures Inv(r)
  {
    hide RandomOk; hide AddrOk; hide NewOk; hide RefsOk; hide TriedOk; hide Restored; hide Numbered; hide Tallied;
    OrderNumbers(st);
    var order := Order(st);
    RestoredIndexed(st, r, order);
    RestoredNewTable(st, r, order);
    RestoredTriedTable(st, r, order);
    RestoredTallied(st, r, order);
  }

  // ----- Unserialize -----

  /** Ids run upwards from `start`, in the order of vRandom. */
  ghost predicate Sequential(infos: map<int, Info>, random: seq<int>, start: int) {
    && (forall id :: id in infos <==> start <= id < start + |random|)
    && (forall k :: 0 <= k < |random| ==> random[k] == start + k)
    && (forall id :: id in infos ==> infos[id].randomPos == id - start)
  }

  lemma SequentialStart(start: int)
    ensures Sequential(map[], [], start)
  {
  }

  lemma SequentialNext(infos: map<int, Info>, random: seq<int>, start: int, info: Info)
    requires Sequential(infos, random, start) && info.randomPos == |random|
    ensures var id := start + |random|; id !in infos && Sequential(infos[id := info], random + [id], start)
  {
  }

  lemma SequentialRandom(infos: map<int, Info>, random: seq<int>, start: int)
    requires Sequential(infos, random, start)
    ensures RandomOk(infos, random)
  {
  }

  ghost predicate EntriesLoaded(st: State, order: seq<int>, infos: map<int, Info>, random: seq<int>, n: int) {
    && n <= |order| && |random| == n && Sequential(infos, random, 0)
    && (forall j :: j in infos ==> var id := order[j]; id in st.infos && infos[j] == Reloaded(st.infos[id], j))
  }

  /** The first `n` entries of `st`, in their written order, are in `r`; no cell of the new table is taken. */
  ghost predicate Loaded(st: State, order: seq<int>, r: State, n: int) {
    && EntriesLoaded(st, order, r.infos, r.random, n)
    && AddrOk(r.infos, r.addrs)
    && TriedOk(r.h, r.key, r.infos, r.triedTable)
    && r.newTable == map[] && r.h == st.h && r.key == st.key
  }

  lemma LoadEntry(st: State, order: seq<int>, infos: map<int, Info>, random: seq<int>, n: nat, info: Info)
    requires EntriesLoaded(st, order, infos, random, n) && n < |order|
    requires order[n] in st.infos && info == Reloaded(st.infos[order[n]], n)
    ensures EntriesLoaded(st, order, infos[n := info], random + [n], n + 1)
  {
  }

  /** Distinct entries have distinct addresses. */
  lemma LoadAddr(st: State, order: seq<int>, r: State, n: nat)
    requires AddrOk(st.infos, st.addrs) && Numbered(st, order) && Loaded(st, order, r, n) && n < |order|
    ensures order[n] in st.infos && st.infos[order[n]].service.addr !in r.addrs
  {
    hide TriedOk; hide NewId;
    var id := order[n];
    assert id in st.infos && NewId(st, id) == n;
    forall a | a in r.addrs ensures a != st.infos[id].service.addr {
      var j := r.addrs[a];
      var k := order[j];
      assert k in st.infos && st.infos[k].service.addr == a;
      assert NewId(st, k) == j;
    }
  }

  lemma AddrAdded(infos: map<int, Info>, addrs: map<NetAddr, int>, n: int, info: Info)
    requires AddrOk(infos, addrs) && n !in infos && info.service.addr !in addrs
    ensures AddrOk(infos[n := info], addrs[info.service.addr := n])
  {
  }

  /** One more entry of the new table. */
  lemma LoadNew(st: State, order: seq<int>, r: State, n: nat)
    requires AddrOk(st.infos, st.addrs) && Numbered(st, order) && Loaded(st, order, r, n) && n < st.nNew
    ensures order[n] in st.infos
    ensures var info := FromRecord(ToRecord(st.infos[order[n]]), n);
            Loaded(st, order, r.(infos := r.infos[n := info], addrs := r.addrs[info.service.addr := n],
                                 random := r.random + [n]), n + 1)
  {
    hide AddrOk; hide NewId;
    LoadAddr(st, order, r, n);
    var info := FromRecord(ToRecord(st.infos[order[n]]), n);
    LoadEntry(st, order, r.infos, r.random, n, info);
    AddrAdded(r.infos, r.addrs, n, info);
    UntriedAdded(r, n, info);
  }

  lemma UntriedAdded(r: State, n: int, info: Info)
    requires TriedOk(r.h, r.key, r.infos, r.triedTable) && n !in r.infos && !info.inTried
    ensures TriedOk(r.h, r.key, r.infos[n := info], r.triedTable)
  {
  }

  lemma TriedAdded(r: State, n: int, info: Info)
    requires TriedOk(r.h, r.key, r.infos, r.triedTable) && n !in r.infos && info.inTried
    requires TriedSlot(r.h, r.key, info.service) !in r.triedTable
    ensures TriedOk(r.h, r.key, r.infos[n := info], r.triedTable[TriedSlot(r.h, r.key, info.service) := n])
  {
  }

  /** The cell of the next tried entry is still free: no two tried entries share a cell. */
  lemma LoadCell(st: State, order: seq<int>, r: State, n: nat)
    requires TriedOk(st.h, st.key, st.infos, st.triedTable)
    requires Numbered(st, order) && Loaded(st, order, r, n) && st.nNew <= n < |order|
    ensures order[n] in st.infos && TriedSlot(st.h, st.key, st.infos[order[n]].service) !in r.triedTable
  {
    hide AddrOk; hide TriedSlot; hide NewId;
    var id := order[n];
    assert id in st.infos && st.infos[id].inTried && NewId(st, id) == n;
    forall u | u in r.triedTable ensures u != TriedSlot(st.h, st.key, st.infos[id].service) {
      var j := r.triedTable[u];
      var k := order[j];
      assert k in st.infos && NewId(st, k) == j && st.infos[k].inTried;
    }
  }

  /** One more entry of the tried table. */
  lemma LoadTried(st: State, order: seq<int>, r: State, n: nat)
    requires AddrOk(st.infos, st.addrs) && TriedOk(st.h, st.key, st.infos, st.triedTable)
    requires Numbered(st, order) && Loaded(st, order, r, n) && st.nNew <= n < |order|
    ensures order[n] in st.infos && TriedSlot(st.h, st.key, st.infos[order[n]].service) !in r.triedTable
    ensures var info := FromRecord(ToRecord(st.infos[order[n]]), n).(inTried := true);
            Loaded(st, order, r.(infos := r.infos[n := info], addrs := r.addrs[info.service.addr := n],
                                 random := r.random + [n],
                                 triedTable := r.triedTable[TriedSlot(st.h, st.key, info.service) := n]), n + 1)
  {
    hide AddrOk; hide TriedOk; hide TriedSlot; hide NewId;
    LoadAddr(st, order, r, n);
    LoadCell(st, order, r, n);
    var info := FromRecord(ToRecord(st.infos[order[n]]), n).(inTried := true);
    LoadEntry(st, order, r.infos, r.random, n, info);
    AddrAdded(r.infos, r.addrs, n, info);
    TriedAdded(r, n, info);
  }

  /** `s` is what a consistent manager with tables `st` writes. */
  ghost predicate Original(h: Hashes, st: State, s: seq<Token>) {
    Inv(st) && st.h == h && st.idCount >= 0 && s == Written(st)
  }

  /**
   `s` has the key, the counters and the entries of a consistent manager with tables `st`; its
   version, its number of buckets and what it says about them may be others.
   */
  ghost predicate SameBody(h: Hashes, st: State, s: seq<Token>) {
    && Inv(st) && st.h == h && st.idCount >= 0
    && |s| >= 6 + |Entries(st, false)| + |Entries(st, true)|
    && s[1..5] == Header(st)[1..5]
    && s[6..6 + |Entries(st, false)| + |Entries(st, true)|] == Entries(st, false) + Entries(st, true)
  }

  lemma OriginalBody(h: Hashes, st: State, s: seq<Token>)
    requires Original(h, st, s)
    ensures SameBody(h, st, s)
  {
    hide Between; hide Entries; hide BucketTokens;
    var n := |Entries(st, false)| + |Entries(st, true)|;
    assert s[6..6 + n] == Entries(st, false) + Entries(st, true);
    assert s[1..5] == Header(st)[1..5];
  }

  lemma EntryToken(h: Hashes, st: State, s: seq<Token>, n: nat)
    requires SameBody(h, st, s) && n < st.nNew + st.nTried
    ensures |Order(st)| == st.nNew + st.nTried && Order(st)[n] in st.infos
    ensures 6 + n < |s| && s[6 + n] == InfoToken(ToRecord(st.infos[Order(st)[n]]))
  {
    hide Between; hide Ids; hide BucketTokens; hide NewId;
    OrderNumbers(st);
    var id := Order(st)[n];
    assert id in st.infos;
    IdsKnown(st.infos, false, st.idCount);
    IdsKnown(st.infos, true, st.idCount);
    assert s[6 + n] == s[6..6 + |Order(st)|][n];
  }

  lemma CellsSuffix(h: Hashes, st: State, s: seq<Token>)
    requires Original(h, st, s)
    ensures 0 <= st.nNew && 0 <= st.nTried && 6 + st.nNew + st.nTried <= |s|
    ensures s[6 + st.nNew + st.nTried..] == BucketTokens(st, 0)
  {
    hide Between; hide Ids; hide BucketTokens; hide NewId;
    OrderNumbers(st);
    IdsBounded(st, false, st.idCount);
    IdsBounded(st, true, st.idCount);
  }

  // ----- Home cells -----

  /** Every entry outside the tried table found its home cell free or taken, and refers to it if it is there. */
  ghost predicate HomeCells(h: Hashes, key: nat, infos: map<int, Info>, newTable: map<Slot, int>) {
    && (forall s :: s in newTable ==>
          var j := newTable[s]; j in infos && !infos[j].inTried && s == Ops.Home(h, key, infos[j]))
    && (forall j :: j in infos && !infos[j].inTried ==> Ops.Home(h, key, infos[j]) in newTable)
    && (forall j :: j in infos ==>
          infos[j].refCount ==
          if !infos[j].inTried && newTable[Ops.Home(h, key, infos[j])] == j then 1 else 0)
  }

  /** `r` is `b` with references: none for the current layout, home cells for another. */
  ghost predicate Homed(b: State, r: State, legacy: bool) {
    && r == b.(infos := r.infos, newTable := r.newTable)
    && (forall j :: j in r.infos <==> j in b.infos)
    && (forall j :: j in r.infos ==> r.infos[j] == b.infos[j].(refCount := r.infos[j].refCount))
    && (!legacy ==> r == b)
    && (legacy ==> HomeCells(r.h, r.key, r.infos, r.newTable))
  }

  lemma HomedStart(b: State, legacy: bool)
    requires b.infos == map[] && b.newTable == map[]
    ensures Homed(b, b, legacy)
  {
  }

  lemma HomedPut(b: State, r: State, legacy: bool, n: int, info: Info)
    requires Homed(b, r, legacy) && n !in b.infos && !info.inTried && info.refCount == 0
    ensures var x := b.(infos := b.infos[n := info], addrs := b.addrs[info.service.addr := n], random := b.random + [n]);
            var y := r.(addrs := r.addrs[info.service.addr := n], random := r.random + [n]);
            var u := Ops.Home(r.h, r.key, info);
            && (!legacy ==> Homed(x, y.(infos := r.infos[n := info]), legacy))
            && (legacy && u in r.newTable ==> Homed(x, y.(infos := r.infos[n := info]), legacy))
            && (legacy && u !in r.newTable ==>
                  Homed(x, y.(infos := r.infos[n := info.(refCount := 1)], newTable := r.newTable[u := n]), legacy))
  {
    hide Ops.Home;
    var u := Ops.Home(r.h, r.key, info);
    if legacy {
      if u in r.newTable {
        HomePut(r.h, r.key, r.infos, r.newTable, n, info);
      } else {
        HomeTake(r.h, r.key, r.infos, r.newTable, n, info);
      }
    }
  }

  lemma HomePut(h: Hashes, key: nat, infos: map<int, Info>, newTable: map<Slot, int>, n: int, info: Info)
    requires HomeCells(h, key, infos, newTable) && n !in infos && info.refCount == 0
    requires !info.inTried ==> Ops.Home(h, key, info) in newTable
    ensures HomeCells(h, key, infos[n := info], newTable)
  {
    hide Ops.Home;
    if !info.inTried {
      var k := newTable[Ops.Home(h, key, info)];
      assert k in infos;
    }
  }

  lemma HomeTake(h: Hashes, key: nat, infos: map<int, Info>, newTable: map<Slot, int>, n: int, info: Info)
    requires HomeCells(h, key, infos, newTable) && n !in infos && !info.inTried && Ops.Home(h, key, info) !in newTable
    ensures HomeCells(h, key, infos[n := info.(refCount := 1)], newTable[Ops.Home(h, key, info) := n])
  {
    assert Ops.Home(h, key, info.(refCount := 1)) == Ops.Home(h, key, info);
    hide Ops.Home;
  }

  lemma HomedTried(b: State, r: State, legacy: bool, n: int, info: Info, u: Slot)
    requires Homed(b, r, legacy) && n !in b.infos && info.inTried && info.refCount == 0
    ensures Homed(b.(infos := b.infos[n := info], addrs := b.addrs[info.service.addr := n], random := b.random + [n],
                     triedTable := b.triedTable[u := n], idCount := b.idCount + 1),
                  r.(infos := r.infos[n := info], addrs := r.addrs[info.service.addr := n], random := r.random + [n],
                     triedTable := r.triedTable[u := n], idCount := r.idCount + 1), legacy)
  {
    hide Ops.Home;
    if legacy {
      HomePut(r.h, r.key, r.infos, r.newTable, n, info);
    }
  }

  /** The entries that are in neither table. */
  function Loose(infos: map<int, Info>): set<int> {
    set j | j in infos && !infos[j].inTried && infos[j].refCount == 0
  }

  /** Consistent but for the loose entries, which are still counted. */
  ghost predicate LooseOk(r: State) {
    Between(r, Loose(r.infos), |Loose(r.infos)|)
  }

  lemma HomedPlaced(b: State, r: State, legacy: bool)
    requires Homed(b, r, legacy) && TriedOk(b.h, b.key, b.infos, b.triedTable) && b.newTable == map[]
    requires forall j :: j in b.infos ==> b.infos[j].refCount == 0
    ensures Placed(r)
  {
    assert SameServices(b.infos, r.infos);
    TriedSame(r.h, r.key, b.infos, r.infos, r.triedTable);
    forall j | j in r.infos ensures r.infos[j].refCount == |Refs(r.newTable, j)| {
      if legacy && !r.infos[j].inTried && r.newTable[Ops.Home(r.h, r.key, r.infos[j])] == j {
        assert Refs(r.newTable, j) == {Ops.Home(r.h, r.key, r.infos[j])};
      } else {
        assert Refs(r.newTable, j) == {};
      }
    }
  }

  lemma HomedIndexed(b: State, r: State, legacy: bool, start: int)
    requires Homed(b, r, legacy) && AddrOk(b.infos, b.addrs) && Sequential(b.infos, b.random, start)
    ensures Indexed(r)
  {
    assert SameServices(b.infos, r.infos);
    ServicesAddr(b.infos, r.infos, r.addrs);
  }

  /** Every entry of `infos` has the record of an entry of `st`, and is in the same table. */
  ghost predicate Traced(st: State, order: seq<int>, infos: map<int, Info>) {
    forall j :: j in infos ==>
      && 0 <= j < |order| && order[j] in st.infos && ToRecord(infos[j]) == ToRecord(st.infos[order[j]])
      && infos[j].inTried == st.infos[order[j]].inTried
  }

  lemma HomedTraced(st: State, order: seq<int>, b: State, r: State, legacy: bool)
    requires EntriesLoaded(st, order, b.infos, b.random, |order|) && Homed(b, r, legacy)
    ensures Traced(st, order, r.infos) && forall j :: 0 <= j < |order| ==> j in r.infos
  {
    hide HomeCells;
  }

  lemma HomedEntries(b: State, r: State, legacy: bool)
    requires Homed(b, r, legacy) && forall j :: j in b.infos ==> b.infos[j].refCount == 0
    ensures forall j :: j in r.infos ==> EntryOk(r.infos[j], j in Loose(r.infos))
  {
    hide Ops.Home;
  }

  lemma TracedTables(st: State, order: seq<int>, infos: map<int, Info>)
    requires Numbered(st, order) && Traced(st, order, infos) && forall j :: 0 <= j < |order| ==> j in infos
    ensures TriedIds(infos) == Interval(st.nNew, |order|) && NewIds(infos) == Interval(0, st.nNew)
  {
    hide NewId;
    forall j | j in infos ensures infos[j].inTried <==> j >= st.nNew {
      var id := order[j];
      assert id in st.infos;
    }
  }

  lemma HomedTallied(st: State, order: seq<int>, b: State, r: State, legacy: bool)
    requires Numbered(st, order) && EntriesLoaded(st, order, b.infos, b.random, |order|) && Homed(b, r, legacy)
    requires r.nNew == st.nNew && r.nTried == st.nTried && r.idCount == |order|
    ensures Tallied(r, Loose(r.infos), |Loose(r.infos)|)
    ensures forall j :: 0 <= j < r.nNew ==> j in r.infos && !r.infos[j].inTried
  {
    hide Homed; hide Numbered; hide NewId;
    NumberedNat(st, order);
    HomedTraced(st, order, b, r, legacy);
    HomedEntries(b, r, legacy);
    TracedTables(st, order, r.infos);
    assert forall j :: 0 <= j < r.nNew ==> j in Interval(0, st.nNew);
    var loose := Loose(r.infos);
    assert NewIds(r.infos) == (NewIds(r.infos) - loose) + loose;
  }

  lemma HomedLoose(h: Hashes, st: State, s: seq<Token>, b: State, r: State, legacy: bool)
    requires SameBody(h, st, s) && Loaded(st, Order(st), b, st.nNew + st.nTried) && Homed(b, r, legacy)
    requires r.nNew == st.nNew && r.nTried == st.nTried && r.idCount == st.nNew + st.nTried
    ensures LooseOk(r) && forall j :: 0 <= j < r.nNew ==> j in r.infos && !r.infos[j].inTried
  {
    hide Between; hide Order; hide Entries; hide NewId; hide Homed; hide Tallied; hide Indexed; hide Placed; hide AddrOk;
    hide TriedOk; hide Numbered; hide Loose; hide Sequential;
    OrderNumbers(st);
    NumberedNat(st, Order(st));
    HomedIndexed(b, r, legacy, 0);
    HomedPlaced(b, r, legacy);
    HomedTallied(st, Order(st), b, r, legacy);
    BetweenParts(r, Loose(r.infos), |Loose(r.infos)|);
  }

  lemma BetweenParts(r: State, limbo: set<int>, extra: int)
    requires Indexed(r) && Placed(r) && Tallied(r, limbo, extra)
    ensures Between(r, limbo, extra)
  {
  }

  /** One more cell keeps it. */
  lemma LooseLink(r: State, u: Slot, j: int)
    requires LooseOk(r) && j in r.infos && !r.infos[j].inTried && r.infos[j].refCount < NEW_BUCKETS_PER_ADDRESS
    requires u !in r.newTable && u.bucket < NEW_BUCKET_COUNT && u == NewSlot(r.h, r.key, r.infos[j].service, u.bucket)
    ensures LooseOk(Ops.Link(r, u, j))
  {
    hide Between;
    var loose, w := Loose(r.infos), Ops.Link(r, u, j);
    Ops.LinkKeeps(r, u, j, loose, |loose|);
    LooseCount(r, j);
    assert Loose(w.infos) == loose - {j};
  }

  lemma LooseCount(r: State, j: int)
    requires LooseOk(r) && j in r.infos
    ensures r.infos[j].refCount >= 0
  {
  }

  lemma LooseDelete(r: State, id: int)
    requires LooseOk(r) && id in Loose(r.infos)
    ensures RandomOk(r.infos, r.random) && LooseOk(Delete(r, id))
  {
    hide Between; hide Delete; hide RandomOk;
    var loose := Loose(r.infos);
    LimboMember(r, id, loose, |loose|);
    DeleteKeeps(r, id, loose, |loose|);
    Ops.DeleteFrame(r, id);
    var w := Delete(r, id);
    forall j ensures j in Loose(w.infos) <==> j in loose - {id} {
      if j in r.infos && j != id {
        assert j in w.infos && w.infos[j] == r.infos[j].(randomPos := w.infos[j].randomPos);
      }
    }
    assert Loose(w.infos) == loose - {id};
  }

  lemma LooseNone(r: State)
    requires LooseOk(r) && forall id :: id in r.infos ==> Housed(r.infos[id])
    ensures Inv(r)
  {
    hide Between;
    assert forall id :: id in r.infos ==> id !in Loose(r.infos);
    assert Loose(r.infos) == {};
  }

  /** Read the entries of the new table. A file of another layout gives each its home cell, if free. */
  method ReadNew(m: Manager, s: seq<Token>, legacy: bool, ghost st: State, ghost good: bool)
    returns (ok: bool, ghost b: State)
    requires good ==> SameBody(m.h, st, s) && m.nKey == st.key && m.nNew == st.nNew
    requires m.Shaped() && m.mapInfo == map[] && m.mapAddr == map[] && m.vRandom == []
    requires m.newCells == map[] && m.triedCells == map[]
    modifies m`mapInfo, m`mapAddr, m`vRandom, m`newCells, m.vvNew
    ensures m.Shaped()
    ensures ok ==> Sequential(m.mapInfo, m.vRandom, 0) && |m.vRandom| == Ops.Max0(m.nNew)
    ensures ok ==> forall j :: j in m.mapInfo ==> !m.mapInfo[j].inTried
    ensures good ==> ok && Loaded(st, Order(st), b, st.nNew) && Homed(b, m.View(), legacy)
  {
    hide Between; hide Holds; hide Written; hide Order; hide Loaded; hide SameBody; hide Sequential; hide Homed;
    SequentialStart(0);
    b := m.View();
    HomedStart(b, legacy);
    if good {
      ReadStart(m.h, st, s, b);
    }
    var n := 0;
    while n < m.nNew
      invariant m.Shaped() && 0 <= n <= Ops.Max0(m.nNew)
      invariant Sequential(m.mapInfo, m.vRandom, 0) && |m.vRandom| == n
      invariant forall j :: j in m.mapInfo ==> !m.mapInfo[j].inTried
      invariant good ==> Loaded(st, Order(st), b, n)
      invariant good ==> Homed(b, m.View(), legacy)
    {
      if good {
        ReadNewStep(m.h, st, s, b, n);
        HomedPut(b, m.View(), legacy, n, FromRecord(s[6 + n].r, n));
      }
      if 6 + n >= |s| || !s[6 + n].InfoToken? {
        return false, b;
      }
      var info := FromRecord(s[6 + n].r, |m.vRandom|);
      if good {
        b := b.(infos := b.infos[n := info], addrs := b.addrs[info.service.addr := n], random := b.random + [n]);
      }
      m.mapAddr := m.mapAddr[info.service.addr := n];
      m.vRandom := m.vRandom + [n];
      if legacy {
        var bucket := NewBucket(m.h, m.nKey, info.service, info.source);
        var pos := BucketPosition(m.h, m.nKey, true, bucket, info.service);
        CellAt(m.vvNew, m.newCells, bucket, pos);
        if m.vvNew[bucket, pos] == -1 {
          m.SetNew(bucket, pos, n);
          info := info.(refCount := 1);
        }
      }
      SequentialNext(m.mapInfo, m.vRandom[..n], 0, info);
      assert m.vRandom == m.vRandom[..n] + [n];
      m.mapInfo := m.mapInfo[n := info];
      n := n + 1;
    }
    return true, b;
  }

  lemma ReadStart(h: Hashes, st: State, s: seq<Token>, r: State)
    requires SameBody(h, st, s) && r.h == h && r.key == st.key
    requires r.infos == map[] && r.addrs == map[] && r.random == [] && r.newTable == map[] && r.triedTable == map[]
    ensures st.nNew >= 0 && st.nTried >= 0 && Loaded(st, Order(st), r, 0)
  {
  }

  lemma ReadNewStep(h: Hashes, st: State, s: seq<Token>, r: State, n: nat)
    requires SameBody(h, st, s) && Loaded(st, Order(st), r, n) && n < st.nNew
    ensures 6 + n < |s| && s[6 + n].InfoToken? && n !in r.infos
    ensures var info := FromRecord(s[6 + n].r, n);
            Loaded(st, Order(st), r.(infos := r.infos[n := info], addrs := r.addrs[info.service.addr := n],
                                     random := r.random + [n]), n + 1)
  {
    hide Between; hide Written; hide Order; hide Numbered; hide Loaded; hide NewId;
    OrderNumbers(st);
    NumberedNat(st, Order(st));
    EntryToken(h, st, s, n);
    Runs.IndexedRandom(st);
    LoadedFresh(st, Order(st), r, n);
    LoadNew(st, Order(st), r, n);
  }

  lemma LoadedFresh(st: State, order: seq<int>, r: State, n: nat)
    requires Loaded(st, order, r, n)
    ensures n !in r.infos
  {
    hide AddrOk; hide TriedOk;
  }

  lemma NumberedNat(st: State, order: seq<int>)
    requires Numbered(st, order)
    ensures 0 <= st.nNew && 0 <= st.nTried && |order| == st.nNew + st.nTried
  {
  }

  /** Read the entries of the tried table into the cells they hash to; an entry whose cell is taken is lost. */
  method ReadTried(m: Manager, s: seq<Token>, ghost legacy: bool, ghost st: State, ghost b0: State, ghost good: bool)
    returns (ok: bool, ghost b: State)
    requires good ==> SameBody(m.h, st, s) && m.nTried == st.nTried >= 0 && m.nNew == st.nNew >= 0
    requires good ==> Loaded(st, Order(st), b0, m.nNew) && Homed(b0, m.View(), legacy)
    requires m.Shaped() && m.nIdCount == m.nNew && |m.vRandom| == Ops.Max0(m.nNew)
    requires Sequential(m.mapInfo, m.vRandom, m.nIdCount - |m.vRandom|)
    modifies m`mapInfo, m`mapAddr, m`vRandom, m`nIdCount, m`nTried, m`triedCells, m.vvTried
    ensures m.Shaped()
    ensures ok ==> Sequential(m.mapInfo, m.vRandom, m.nIdCount - |m.vRandom|)
    ensures ok ==> m.nIdCount - |m.vRandom| == old(m.nIdCount - |m.vRandom|) && |m.vRandom| >= |old(m.vRandom)|
    ensures good ==> ok && m.nTried == st.nTried && m.nIdCount == st.nNew + st.nTried
    ensures good ==> Loaded(st, Order(st), b, st.nNew + st.nTried) && Homed(b, m.View(), legacy)
  {
    hide Between; hide Holds; hide Written; hide Order; hide Loaded; hide SameBody; hide Sequential; hide Homed;
    b := b0;
    var first := 6 + Ops.Max0(m.nNew);
    ghost var start := m.nIdCount - |m.vRandom|;
    var nLost := 0;
    var n := 0;
    while n < m.nTried
      invariant m.Shaped() && 0 <= n <= Ops.Max0(m.nTried) && m.nTried == old(m.nTried)
      invariant Sequential(m.mapInfo, m.vRandom, start) && m.nIdCount == start + |m.vRandom|
      invariant |m.vRandom| >= |old(m.vRandom)|
      invariant good ==> nLost == 0 && m.nIdCount == m.nNew + n
      invariant good ==> Loaded(st, Order(st), b, m.nNew + n) && Homed(b, m.View(), legacy)
    {
      if good {
        ReadTriedStep(m.h, st, s, b, m.nNew + n);
        HomedSame(b, m.View(), legacy);
      }
      if first + n >= |s| || !s[first + n].InfoToken? {
        return false, b;
      }
      var info := FromRecord(s[first + n].r, -1);
      var bucket := TriedBucket(m.h, m.nKey, info.service);
      var pos := BucketPosition(m.h, m.nKey, false, bucket, info.service);
      CellAt(m.vvTried, m.triedCells, bucket, pos);
      if m.vvTried[bucket, pos] == -1 {
        info := info.(randomPos := |m.vRandom|, inTried := true);
        SequentialNext(m.mapInfo, m.vRandom, start, info);
        if good {
          HomedTried(b, m.View(), legacy, m.nIdCount, info, Slot(bucket, pos));
          b := b.(infos := b.infos[m.nIdCount := info], addrs := b.addrs[info.service.addr := m.nIdCount],
                  random := b.random + [m.nIdCount], triedTable := b.triedTable[Slot(bucket, pos) := m.nIdCount],
                  idCount := b.idCount + 1);
        }
        m.vRandom := m.vRandom + [m.nIdCount];
        m.mapInfo := m.mapInfo[m.nIdCount := info];
        m.mapAddr := m.mapAddr[info.service.addr := m.nIdCount];
        m.SetTried(bucket, pos, m.nIdCount);
        m.nIdCount := m.nIdCount + 1;
      } else {
        nLost := nLost + 1;
      }
      n := n + 1;
    }
    m.nTried := m.nTried - nLost;
    return true, b;
  }

  lemma HomedSame(b: State, r: State, legacy: bool)
    requires Homed(b, r, legacy)
    ensures b.random == r.random && b.triedTable == r.triedTable && b.h == r.h && b.key == r.key && b.idCount == r.idCount
  {
  }

  lemma ReadTriedStep(h: Hashes, st: State, s: seq<Token>, r: State, n: nat)
    requires SameBody(h, st, s) && Loaded(st, Order(st), r, n) && st.nNew <= n < st.nNew + st.nTried
    ensures 6 + n < |s| && s[6 + n].InfoToken? && |r.random| == n && n !in r.infos && st.h == r.h == h && r.key == st.key
    ensures var info := FromRecord(s[6 + n].r, n).(inTried := true);
            var u := TriedSlot(st.h, st.key, info.service);
            && u !in r.triedTable
            && Loaded(st, Order(st), r.(infos := r.infos[n := info], addrs := r.addrs[info.service.addr := n],
                                        random := r.random + [n], triedTable := r.triedTable[u := n],
                                        idCount := r.idCount + 1), n + 1)
  {
    hide Between; hide Written; hide Order; hide Numbered; hide NewId; hide AddrOk; hide TriedOk; hide Sequential;
    OrderNumbers(st);
    NumberedNat(st, Order(st));
    EntryToken(h, st, s, n);
    Runs.IndexedRandom(st);
    TriedTableOk(st);
    LoadedFresh(st, Order(st), r, n);
    LoadTried(st, Order(st), r, n);
  }

  lemma TriedTableOk(st: State)
    requires Inv(st)
    ensures TriedOk(st.h, st.key, st.infos, st.triedTable)
  {
  }

  // ----- Reading the cells of the new table -----

  /** The cells before position `p` of `bucket`. */
  predicate Before(s: Slot, bucket: nat, p: nat) {
    s.bucket < bucket || (s.bucket == bucket && s.pos < p)
  }

  ghost predicate CellsRead(st: State, newTable: map<Slot, int>, bucket: nat, p: nat) {
    && (forall s :: s in newTable <==> s in st.newTable && Before(s, bucket, p))
    && (forall s :: s in newTable ==> var id := st.newTable[s]; id in st.infos && newTable[s] == NewId(st, id))
  }

  ghost predicate CountsRead(st: State, order: seq<int>, infos: map<int, Info>, newTable: map<Slot, int>) {
    && (forall j :: j in infos <==> 0 <= j < |order|)
    && (forall j :: j in infos ==>
          var id := order[j];
          id in st.infos && infos[j] == st.infos[id].(lastTry := 0, randomPos := j, refCount := |Refs(newTable, j)|))
  }

  /** The entries are loaded, the cells before position `p` of `bucket` linked, their references counted. */
  ghost predicate Linked(st: State, order: seq<int>, r: State, bucket: nat, p: nat) {
    && r.h == st.h && r.key == st.key && r.nNew == st.nNew
    && CellsRead(st, r.newTable, bucket, p) && CountsRead(st, order, r.infos, r.newTable)
  }

  lemma LinkStart(st: State, order: seq<int>, r: State)
    requires Numbered(st, order) && Loaded(st, order, r, |order|) && r.nNew == st.nNew
    ensures Linked(st, order, r, 0, 0)
  {
    hide AddrOk; hide TriedOk; hide NewId;
    forall j | j in r.infos ensures Refs(r.newTable, j) == {} {}
  }

  lemma LinkSkip(st: State, order: seq<int>, r: State, bucket: nat, p: nat, q: nat)
    requires Linked(st, order, r, bucket, p) && p <= q
    requires forall k: nat :: p <= k < q ==> Slot(bucket, k) !in st.newTable
    ensures Linked(st, order, r, bucket, q)
  {
    hide CountsRead;
    forall s | s in st.newTable ensures Before(s, bucket, p) <==> Before(s, bucket, q) {
      if s.bucket == bucket {
        assert s == Slot(bucket, s.pos);
      }
    }
  }

  lemma LinkBucket(st: State, order: seq<int>, r: State, bucket: nat)
    requires NewOk(st.h, st.key, st.infos, st.newTable) && Linked(st, order, r, bucket, BUCKET_SIZE)
    ensures Linked(st, order, r, bucket + 1, 0)
  {
    hide CountsRead;
    forall s | s in st.newTable ensures Before(s, bucket, BUCKET_SIZE) <==> Before(s, bucket + 1, 0) {
      var id := st.newTable[s];
      assert id in st.infos && s.pos < BUCKET_SIZE;
    }
  }

  /** Linking the next cell: it is free, and its occupant has not reached the limit of references. */
  lemma LinkCell(st: State, order: seq<int>, r: State, bucket: nat, p: nat)
    requires Inv(st) && Numbered(st, order) && Linked(st, order, r, bucket, p)
    requires Slot(bucket, p) in st.newTable
    ensures st.newTable[Slot(bucket, p)] in st.infos
    ensures var u := Slot(bucket, p); var j := NewId(st, st.newTable[u]);
            && u !in r.newTable && 0 <= j < st.nNew && j in r.infos && r.infos[j].refCount < NEW_BUCKETS_PER_ADDRESS
            && u == NewSlot(r.h, r.key, r.infos[j].service, bucket)
            && j == Index(st.infos, false, st.newTable[u])
            && Linked(st, order, r.(newTable := r.newTable[u := j],
                                    infos := r.infos[j := r.infos[j].(refCount := r.infos[j].refCount + 1)]), bucket, p + 1)
  {
    hide Between; hide Index; hide CountsRead; hide NewOk; hide RefsOk; hide Numbered; hide CellsRead;
    var u := Slot(bucket, p);
    Ops.UnlinkKeeps(st, u, {}, 0);
    var id := st.newTable[u];
    var j := NewId(st, id);
    Ops.EntrySound(st, id);
    Tables(st);
    RefsGrow(st, order, r.newTable, bucket, p, id);
    LinkEntry(st, order, r, u, bucket, p);
    LinkCount(st, order, r.infos, r.newTable, u, j);
    LinkRead(st, r.newTable, bucket, p);
  }

  lemma LinkEntry(st: State, order: seq<int>, r: State, u: Slot, bucket: nat, p: nat)
    requires NewOk(st.h, st.key, st.infos, st.newTable) && Numbered(st, order) && Linked(st, order, r, bucket, p)
    requires u == Slot(bucket, p) && u in st.newTable && st.newTable[u] in st.infos && !st.infos[st.newTable[u]].inTried
    ensures var id := st.newTable[u]; var j := NewId(st, id);
            && u !in r.newTable && 0 <= j < st.nNew && j in r.infos && r.infos[j].service == st.infos[id].service
            && r.infos[j].refCount == |Refs(r.newTable, j)| && u == NewSlot(st.h, st.key, st.infos[id].service, bucket)
  {
    hide Index;
    var id := st.newTable[u];
    assert order[NewId(st, id)] == id;
  }

  lemma LinkRead(st: State, newTable: map<Slot, int>, bucket: nat, p: nat)
    requires CellsRead(st, newTable, bucket, p)
    requires Slot(bucket, p) in st.newTable && st.newTable[Slot(bucket, p)] in st.infos
    ensures CellsRead(st, newTable[Slot(bucket, p) := NewId(st, st.newTable[Slot(bucket, p)])], bucket, p + 1)
  {
    hide NewId;
  }

  lemma RefsGrow(st: State, order: seq<int>, newTable: map<Slot, int>, bucket: nat, p: nat, id: int)
    requires Numbered(st, order) && CellsRead(st, newTable, bucket, p) && RefsOk(st.infos, st.newTable)
    requires id in st.infos && Slot(bucket, p) in st.newTable && st.newTable[Slot(bucket, p)] == id
    ensures |Refs(newTable, NewId(st, id))| < st.infos[id].refCount
  {
    var u := Slot(bucket, p);
    var j := NewId(st, id);
    forall s | s in Refs(newTable, j) ensures s in Refs(st.newTable, id) - {u} {
      var k := st.newTable[s];
      assert NewId(st, k) == j && order[NewId(st, k)] == k && order[NewId(st, id)] == id;
    }
    assert u in Refs(st.newTable, id);
    SubsetSize(Refs(newTable, j), Refs(st.newTable, id) - {u});
  }

  lemma LinkCount(st: State, order: seq<int>, infos: map<int, Info>, newTable: map<Slot, int>, u: Slot, j: int)
    requires CountsRead(st, order, infos, newTable) && u !in newTable && j in infos
    ensures CountsRead(st, order, infos[j := infos[j].(refCount := infos[j].refCount + 1)], newTable[u := j])
  {
    assert Refs(newTable[u := j], j) == Refs(newTable, j) + {u};
    forall k | k in infos && k != j ensures Refs(newTable[u := j], k) == Refs(newTable, k) {
    }
  }

  /** The stream at the first cell of a bucket not yet read: the next occupied position, if any. */
  lemma {:induction false} NextCell(st: State, bucket: nat, p: nat) returns (q: nat)
    requires p <= BUCKET_SIZE
    ensures p <= q <= BUCKET_SIZE && forall k: nat :: p <= k < q ==> Slot(bucket, k) !in st.newTable
    ensures q == BUCKET_SIZE ==> CellTokens(st, bucket, p) == []
    ensures q < BUCKET_SIZE ==> Slot(bucket, q) in st.newTable
    ensures q < BUCKET_SIZE ==>
              CellTokens(st, bucket, p) ==
              [IntToken(Index(st.infos, false, st.newTable[Slot(bucket, q)]))] + CellTokens(st, bucket, q + 1)
    decreases BUCKET_SIZE - p
  {
    if p == BUCKET_SIZE || Slot(bucket, p) in st.newTable {
      q := p;
    } else {
      q := NextCell(st, bucket, p + 1);
    }
  }

  /** A stream standing at position `p` of a bucket. */
  ghost predicate At(s: seq<Token>, i: nat, st: State, bucket: nat, p: nat) {
    && i <= |s| && p <= BUCKET_SIZE && bucket < NEW_BUCKET_COUNT
    && s[i..] == CellTokens(st, bucket, p) + BucketTokens(st, bucket + 1)
  }

  lemma OpenBucket(s: seq<Token>, i: nat, st: State, bucket: nat)
    requires i <= |s| && bucket < NEW_BUCKET_COUNT && s[i..] == BucketTokens(st, bucket)
    ensures i < |s| && s[i] == IntToken(|CellTokens(st, bucket, 0)|) && At(s, i + 1, st, bucket, 0)
  {
    hide CellTokens;
    assert s[i..][0] == s[i];
    assert s[i..][1..] == s[i + 1..];
  }

  lemma StepCell(s: seq<Token>, i: nat, st: State, bucket: nat, p: nat, q: nat, t: Token)
    requires At(s, i, st, bucket, p) && q <= BUCKET_SIZE
    requires CellTokens(st, bucket, p) == [t] + CellTokens(st, bucket, q)
    ensures i < |s| && s[i] == t && At(s, i + 1, st, bucket, q)
  {
    hide CellTokens; hide BucketTokens;
    assert s[i..][0] == s[i];
    assert s[i..][1..] == s[i + 1..];
  }

  /** Read one bucket: each index names an entry of the new table, whose cell is computed from its hash. */
  method ReadBucket(m: Manager, s: seq<Token>, i0: nat, bucket: nat, usable: bool,
                    ghost st: State, ghost good: bool, ghost sound: bool)
    returns (ok: bool, i: nat)
    requires usable ==> bucket < NEW_BUCKET_COUNT
    requires sound ==> LooseOk(m.View()) && forall j :: 0 <= j < m.nNew ==> j in m.mapInfo && !m.mapInfo[j].inTried
    requires good ==> usable && Original(m.h, st, s) && i0 <= |s| && s[i0..] == BucketTokens(st, bucket)
    requires good ==> Linked(st, Order(st), m.View(), bucket, 0)
    requires m.Shaped() && RandomOk(m.mapInfo, m.vRandom) && forall j :: 0 <= j < m.nNew ==> j in m.mapInfo
    modifies m`mapInfo, m`newCells, m.vvNew
    ensures m.Shaped() && RandomOk(m.mapInfo, m.vRandom) && m.mapInfo.Keys == old(m.mapInfo.Keys)
    ensures !usable ==> m.View() == old(m.View())
    ensures sound ==> LooseOk(m.View()) && forall j :: 0 <= j < m.nNew ==> j in m.mapInfo && !m.mapInfo[j].inTried
    ensures good ==> ok && i <= |s| && s[i..] == BucketTokens(st, bucket + 1)
    ensures good ==> Linked(st, Order(st), m.View(), bucket + 1, 0)
  {
    hide Between; hide Holds; hide Written; hide Order; hide Linked; hide Original; hide CellTokens; hide BucketTokens;
    hide RandomOk; hide At; hide LooseOk;
    i := i0;
    if good {
      OpenBucket(s, i, st, bucket);
    }
    if i >= |s| || !s[i].IntToken? {
      return false, i;
    }
    var nSize := s[i].n;
    i := i + 1;
    ghost var p: nat := 0;
    var n := 0;
    while n < nSize
      invariant m.Shaped() && RandomOk(m.mapInfo, m.vRandom) && m.mapInfo.Keys == old(m.mapInfo.Keys)
      invariant 0 <= n && p <= BUCKET_SIZE
      invariant !usable ==> m.View() == old(m.View())
      invariant sound ==> LooseOk(m.View()) && forall j :: 0 <= j < m.nNew ==> j in m.mapInfo && !m.mapInfo[j].inTried
      invariant good ==> At(s, i, st, bucket, p) && nSize - n == |CellTokens(st, bucket, p)|
      invariant good ==> Linked(st, Order(st), m.View(), bucket, p)
    {
      if good {
        p := ReadCellStep(s, i, m.h, st, m.View(), bucket, p);
      }
      if i >= |s| || !s[i].IntToken? {
        return false, i;
      }
      var nIndex := s[i].n;
      i := i + 1;
      if 0 <= nIndex < m.nNew {
        var info := m.mapInfo[nIndex];
        var pos := BucketPosition(m.h, m.nKey, true, bucket, info.service);
        if usable {
          CellAt(m.vvNew, m.newCells, bucket, pos);
        }
        if usable && m.vvNew[bucket, pos] == -1 && info.refCount < NEW_BUCKETS_PER_ADDRESS {
          RandomRecounted(m.mapInfo, m.vRandom, nIndex);
          if sound {
            LooseLink(m.View(), Slot(bucket, pos), nIndex);
          }
          m.mapInfo := m.mapInfo[nIndex := info.(refCount := info.refCount + 1)];
          m.SetNew(bucket, pos, nIndex);
        }
      }
      n := n + 1;
    }
    if good {
      CloseBucket(s, i, m.h, st, m.View(), bucket, p);
    }
    return true, i;
  }

  lemma RandomRecounted(infos: map<int, Info>, random: seq<int>, id: int)
    requires RandomOk(infos, random) && id in infos
    ensures RandomOk(infos[id := infos[id].(refCount := infos[id].refCount + 1)], random)
  {
  }

  lemma ReadCellStep(s: seq<Token>, i: nat, h: Hashes, st: State, r: State, bucket: nat, p: nat) returns (p': nat)
    requires p <= BUCKET_SIZE && Original(h, st, s) && At(s, i, st, bucket, p) && CellTokens(st, bucket, p) != []
    requires Linked(st, Order(st), r, bucket, p)
    ensures i < |s| && s[i].IntToken? && p' <= BUCKET_SIZE && At(s, i + 1, st, bucket, p')
    ensures |CellTokens(st, bucket, p)| == 1 + |CellTokens(st, bucket, p')|
    ensures var j := s[i].n;
            && 0 <= j < st.nNew && r.nNew == st.nNew && j in r.infos && r.infos[j].refCount < NEW_BUCKETS_PER_ADDRESS
            && var u := NewSlot(r.h, r.key, r.infos[j].service, bucket);
            && u !in r.newTable
            && Linked(st, Order(st), r.(newTable := r.newTable[u := j],
                                        infos := r.infos[j := r.infos[j].(refCount := r.infos[j].refCount + 1)]), bucket, p')
  {
    hide Between; hide Written; hide Order; hide CellTokens; hide At; hide Index; hide NewId; hide Numbered;
    var q := NextCell(st, bucket, p);
    OrderNumbers(st);
    LinkSkip(st, Order(st), r, bucket, p, q);
    LinkCell(st, Order(st), r, bucket, q);
    p' := q + 1;
    StepCell(s, i, st, bucket, p, p', IntToken(Index(st.infos, false, st.newTable[Slot(bucket, q)])));
  }

  lemma CloseBucket(s: seq<Token>, i: nat, h: Hashes, st: State, r: State, bucket: nat, p: nat)
    requires Original(h, st, s) && At(s, i, st, bucket, p) && CellTokens(st, bucket, p) == []
    requires Linked(st, Order(st), r, bucket, p)
    ensures i <= |s| && s[i..] == BucketTokens(st, bucket + 1)
    ensures Linked(st, Order(st), r, bucket + 1, 0)
  {
    hide Between; hide Written; hide Order; hide BucketTokens; hide Index; hide Linked; hide NewOk; hide RefsOk;
    var q := NextCell(st, bucket, p);
    LinkSkip(st, Order(st), r, bucket, p, BUCKET_SIZE);
    Tables(st);
    LinkBucket(st, Order(st), r, bucket);
  }

  method ReadBuckets(m: Manager, s: seq<Token>, i0: nat, nVersion: nat, nUBuckets: int,
                     ghost st: State, ghost good: bool, ghost sound: bool)
    returns (ok: bool)
    requires sound ==> LooseOk(m.View()) && forall j :: 0 <= j < m.nNew ==> j in m.mapInfo && !m.mapInfo[j].inTried
    requires good ==> nVersion == 1 && nUBuckets == NEW_BUCKET_COUNT && Original(m.h, st, s)
    requires good ==> i0 <= |s| && s[i0..] == BucketTokens(st, 0) && Linked(st, Order(st), m.View(), 0, 0)
    requires m.Shaped() && RandomOk(m.mapInfo, m.vRandom) && forall j :: 0 <= j < m.nNew ==> j in m.mapInfo
    modifies m`mapInfo, m`newCells, m.vvNew
    ensures m.Shaped() && RandomOk(m.mapInfo, m.vRandom) && m.mapInfo.Keys == old(m.mapInfo.Keys)
    ensures nVersion != 1 || nUBuckets != NEW_BUCKET_COUNT ==> m.View() == old(m.View())
    ensures sound ==> LooseOk(m.View())
    ensures good ==> ok && Linked(st, Order(st), m.View(), NEW_BUCKET_COUNT, 0)
  {
    hide Between; hide Holds; hide Written; hide Order; hide Linked; hide Original; hide BucketTokens; hide RandomOk;
    hide LooseOk;
    var i: nat := i0;
    var bucket := 0;
    while bucket < nUBuckets
      invariant m.Shaped() && RandomOk(m.mapInfo, m.vRandom) && m.mapInfo.Keys == old(m.mapInfo.Keys)
      invariant 0 <= bucket
      invariant nVersion != 1 || nUBuckets != NEW_BUCKET_COUNT ==> m.View() == old(m.View())
      invariant sound ==> LooseOk(m.View()) && forall j :: 0 <= j < m.nNew ==> j in m.mapInfo && !m.mapInfo[j].inTried
      invariant good ==> bucket <= NEW_BUCKET_COUNT && i <= |s| && s[i..] == BucketTokens(st, bucket)
      invariant good ==> Linked(st, Order(st), m.View(), bucket, 0)
    {
      var usable := nVersion == 1 && nUBuckets == NEW_BUCKET_COUNT;
      ok, i := ReadBucket(m, s, i, bucket, usable, st, good, sound);
      if !ok {
        return;
      }
      bucket := bucket + 1;
    }
    ok := true;
  }

  lemma DeleteRandom(st: State, id: int)
    requires RandomOk(st.infos, st.random) && id in st.infos
    ensures RandomOk(Delete(st, id).infos, Delete(st, id).random)
    ensures Delete(st, id).infos.Keys == st.infos.Keys - {id}
  {
    hide SwapRandom; hide DropLast; hide RandomOk; hide SameEntries;
    SwapToLast(st, id);
    var w := SwapRandom(st, st.infos[id].randomPos, |st.random| - 1);
    SwapRandomOk(st, st.infos[id].randomPos, |st.random| - 1);
    SameKeys(st.infos, w.infos);
    DropLastRandom(w, id);
  }

  lemma SameKeys(a: map<int, Info>, b: map<int, Info>)
    requires SameEntries(a, b)
    ensures a.Keys == b.Keys
  {
    assert forall id :: id in a.Keys <==> id in b.Keys;
  }

  lemma DropLastRandom(w: State, id: int)
    requires RandomOk(w.infos, w.random) && id in w.infos && |w.random| > 0 && w.infos[id].randomPos == |w.random| - 1
    ensures RandomOk(DropLast(w, id).infos, DropLast(w, id).random)
    ensures DropLast(w, id).infos.Keys == w.infos.Keys - {id}
  {
  }

  /** The entry is in one of the tables. */
  predicate Housed(info: Info) {
    info.inTried || info.refCount != 0
  }

  /** Forget the entries of the new table that ended up without a cell; the ids lie between `lo` and `hi`. */
  method Prune(m: Manager, lo: int, hi: int, ghost sound: bool)
    requires m.Shaped() && RandomOk(m.mapInfo, m.vRandom) && lo <= hi
    requires forall id :: id in m.mapInfo ==> lo <= id < hi
    requires sound ==> LooseOk(m.View())
    modifies m`mapInfo, m`vRandom, m`mapAddr, m`nNew
    ensures m.Shaped() && forall id :: id in m.mapInfo ==> Housed(m.mapInfo[id])
    ensures KeepsHoused(old(m.mapInfo), m.mapInfo)
    ensures old(forall id :: id in m.mapInfo ==> Housed(m.mapInfo[id])) ==> m.View() == old(m.View())
    ensures sound ==> Inv(m.View())
  {
    hide Holds; hide RandomOk; hide Delete; hide LooseOk; hide Inv;
    ghost var kept := forall id :: id in m.mapInfo ==> Housed(m.mapInfo[id]);
    for id := lo to hi
      invariant m.Shaped() && RandomOk(m.mapInfo, m.vRandom)
      invariant forall k :: k in m.mapInfo ==> lo <= k < hi && (k < id ==> Housed(m.mapInfo[k]))
      invariant KeepsHoused(old(m.mapInfo), m.mapInfo)
      invariant kept ==> m.View() == old(m.View())
      invariant sound ==> LooseOk(m.View())
    {
      if id in m.mapInfo && !Housed(m.mapInfo[id]) {
        if sound {
          LooseDelete(m.View(), id);
        }
        DeleteRandom(m.View(), id);
        Ops.DeleteFrame(m.View(), id);
        m.Delete(id);
      }
    }
    if sound {
      LooseNone(m.View());
    }
  }

  /** Every housed entry of `a` is in `b`, with another place in the random order at most, and nothing else is. */
  ghost predicate KeepsHoused(a: map<int, Info>, b: map<int, Info>) {
    && (forall id :: id in b ==> id in a && b[id] == a[id].(randomPos := b[id].randomPos))
    && (forall id :: id in a && Housed(a[id]) ==> id in b)
  }

  /** When the last bucket was read every entry has its references back. */
  lemma LinkedRestored(st: State, r: State)
    requires Inv(st) && Numbered(st, Order(st))
    requires Linked(st, Order(st), r, NEW_BUCKET_COUNT, 0)
    requires r.nTried == st.nTried && r.idCount == st.nNew + st.nTried
    requires |r.random| == r.idCount && forall j :: 0 <= j < |r.random| ==> r.random[j] == j
    requires AddrOk(r.infos, r.addrs) && TriedOk(r.h, r.key, r.infos, r.triedTable)
    ensures Restored(st, r)
    ensures forall j :: j in r.infos ==> Housed(r.infos[j])
  {
    hide Between; hide NewId; hide RandomOk; hide AddrOk; hide TriedOk; hide RefsOk;
    var order := Order(st);
    Tables(st);
    LinkedCells(st, order, r);
    forall id | id in st.infos
      ensures var j := NewId(st, id);
              j in r.infos && r.infos[j] == st.infos[id].(lastTry := 0, randomPos := j)
    {
      RefsRestored(st, order, r, id);
    }
    RestoredAddrs(st, order, r);
    RestoredTriedCells(st, order, r);
    LinkedHoused(st, r);
  }

  lemma LinkedCells(st: State, order: seq<int>, r: State)
    requires NewOk(st.h, st.key, st.infos, st.newTable) && Linked(st, order, r, NEW_BUCKET_COUNT, 0)
    ensures SameCells(st, st.newTable, r.newTable)
  {
    hide NewId;
    forall s | s in st.newTable ensures s.bucket < NEW_BUCKET_COUNT {
      var id := st.newTable[s];
      assert id in st.infos;
    }
  }

  lemma LinkedHoused(st: State, r: State)
    requires Inv(st) && Numbered(st, Order(st)) && Linked(st, Order(st), r, NEW_BUCKET_COUNT, 0)
    requires forall id :: id in st.infos ==>
      var j := NewId(st, id); j in r.infos && r.infos[j] == st.infos[id].(lastTry := 0, randomPos := j)
    ensures forall j :: j in r.infos ==> Housed(r.infos[j])
  {
    hide Between; hide NewId;
    forall j | j in r.infos ensures Housed(r.infos[j]) {
      var id := Order(st)[j];
      assert id in st.infos && NewId(st, id) == j;
      Ops.EntrySound(st, id);
    }
  }

  lemma RefsRestored(st: State, order: seq<int>, r: State, id: int)
    requires RefsOk(st.infos, st.newTable) && Numbered(st, order) && id in st.infos
    requires SameCells(st, st.newTable, r.newTable) && CountsRead(st, order, r.infos, r.newTable)
    ensures var j := NewId(st, id); j in r.infos && r.infos[j] == st.infos[id].(lastTry := 0, randomPos := j)
  {
    hide NewId;
    var j := NewId(st, id);
    assert order[j] == id;
    forall s ensures s in Refs(r.newTable, j) <==> s in Refs(st.newTable, id) {
      if s in st.newTable {
        var k := st.newTable[s];
        assert k in st.infos && r.newTable[s] == NewId(st, k) && order[NewId(st, k)] == k;
      }
    }
    assert Refs(r.newTable, j) == Refs(st.newTable, id);
  }

  lemma RestoredAddrs(st: State, order: seq<int>, r: State)
    requires Inv(st) && Numbered(st, order) && AddrOk(r.infos, r.addrs)
    requires CountsRead(st, order, r.infos, r.newTable)
    ensures forall a :: a in st.addrs <==> a in r.addrs
    ensures forall a :: a in st.addrs ==> var id := st.addrs[a]; id in st.infos && r.addrs[a] == NewId(st, id)
  {
    hide Between; hide RandomOk; hide NewId;
    Runs.IndexedRandom(st);
    forall a | a in st.addrs
      ensures var id := st.addrs[a]; id in st.infos && a in r.addrs && r.addrs[a] == NewId(st, id)
    {
      var id := st.addrs[a];
      assert id in st.infos && st.infos[id].service.addr == a;
      var j := NewId(st, id);
      assert order[j] == id && j in r.infos && r.infos[j].service.addr == a;
    }
    forall a | a in r.addrs ensures a in st.addrs {
      var j := r.addrs[a];
      var id := order[j];
      assert j in r.infos && id in st.infos && st.infos[id].service.addr == a;
    }
  }

  lemma RestoredTriedCells(st: State, order: seq<int>, r: State)
    requires Inv(st) && Numbered(st, order) && TriedOk(r.h, r.key, r.infos, r.triedTable)
    requires r.h == st.h && r.key == st.key && CountsRead(st, order, r.infos, r.newTable)
    ensures SameCells(st, st.triedTable, r.triedTable)
  {
    hide Between; hide NewId; hide TriedSlot;
    TriedTableOk(st);
    forall s | s in st.triedTable
      ensures var id := st.triedTable[s]; id in st.infos && s in r.triedTable && r.triedTable[s] == NewId(st, id)
    {
      var id := st.triedTable[s];
      assert id in st.infos && st.infos[id].inTried;
      var j := NewId(st, id);
      assert order[j] == id && j in r.infos && r.infos[j].inTried;
    }
    forall s | s in r.triedTable ensures s in st.triedTable {
      var j := r.triedTable[s];
      var id := order[j];
      assert j in r.infos && id in st.infos && st.infos[id].inTried;
    }
  }

  /** The start of a stream, as Unserialize takes it apart. */
  lemma OriginalHeader(h: Hashes, st: State, s: seq<Token>)
    requires Original(h, st, s)
    ensures |s| >= 6 && s[..6] == Header(st) && st.h == h && FlipBit30(FlipBit30(NEW_BUCKET_COUNT)) == NEW_BUCKET_COUNT
    ensures 0 <= st.nNew && 0 <= st.nTried
  {
    hide Between; hide Ids; hide BucketTokens; hide NewId;
    OrderNumbers(st);
  }

  lemma LoadedLinked(h: Hashes, st: State, s: seq<Token>, r: State)
    requires Original(h, st, s) && Loaded(st, Order(st), r, st.nNew + st.nTried) && r.nNew == st.nNew
    ensures Numbered(st, Order(st)) && Linked(st, Order(st), r, 0, 0)
    ensures AddrOk(r.infos, r.addrs) && TriedOk(r.h, r.key, r.infos, r.triedTable)
    ensures |r.random| == st.nNew + st.nTried && forall j :: 0 <= j < |r.random| ==> r.random[j] == j
  {
    hide Between; hide Ids; hide Written; hide NewId; hide AddrOk; hide TriedOk;
    OrderNumbers(st);
    LinkStart(st, Order(st), r);
  }

  /** Recounting references leaves the other indexes alone. */
  lemma LinkedIndexes(st: State, order: seq<int>, a: State, b: State)
    requires Linked(st, order, a, 0, 0) && Linked(st, order, b, NEW_BUCKET_COUNT, 0)
    requires b == a.(infos := b.infos, newTable := b.newTable)
    requires AddrOk(a.infos, a.addrs) && TriedOk(a.h, a.key, a.infos, a.triedTable)
    ensures AddrOk(b.infos, b.addrs) && TriedOk(b.h, b.key, b.infos, b.triedTable)
  {
    hide CellsRead;
    assert SameServices(a.infos, b.infos);
    ServicesAddr(a.infos, b.infos, a.addrs);
    assert forall j :: j in b.infos ==> a.infos[j].inTried == b.infos[j].inTried;
    TriedSame(a.h, a.key, a.infos, b.infos, a.triedTable);
  }

  lemma ServicesAddr(a: map<int, Info>, b: map<int, Info>, addrs: map<NetAddr, int>)
    requires SameServices(a, b) && AddrOk(a, addrs)
    ensures AddrOk(b, addrs)
  {
  }

  lemma TriedSame(h: Hashes, key: nat, a: map<int, Info>, b: map<int, Info>, triedTable: map<Slot, int>)
    requires SameServices(a, b) && TriedOk(h, key, a, triedTable)
    requires forall j :: j in b ==> a[j].inTried == b[j].inTried
    ensures TriedOk(h, key, b, triedTable)
  {
  }

  /** A version or a number of buckets that this code does not write. */
  predicate Foreign(s: seq<Token>) {
    |s| >= 6 && s[0].ByteToken? && s[5].IntToken? && (s[0].b != 1 || FlipBit30(s[5].n) != NEW_BUCKET_COUNT)
  }

  ghost predicate RecordsKept(st: State, r: State) {
    forall a :: a in r.addrs ==>
      && a in st.addrs && st.addrs[a] in st.infos && r.addrs[a] in r.infos
      && ToRecord(r.infos[r.addrs[a]]) == ToRecord(st.infos[st.addrs[a]])
      && r.infos[r.addrs[a]].inTried == st.infos[st.addrs[a]].inTried
  }

  ghost predicate TriedKept(st: State, r: State) {
    forall id :: id in st.infos && st.infos[id].inTried ==> st.infos[id].service.addr in r.addrs
  }

  /** The home cell of `info` is taken, and its address is kept exactly if it is the one there. */
  ghost predicate HomeKept(r: State, info: Info) {
    var u := Ops.Home(r.h, r.key, info);
    && u in r.newTable && r.newTable[u] in r.infos
    && (info.service.addr in r.addrs <==> r.infos[r.newTable[u]].service.addr == info.service.addr)
  }

  /**
   What a stream of another layout gives: every tried entry, and of the others exactly those whose
   home cell was not taken by another one.
   */
  ghost predicate Recovered(st: State, r: State) {
    && r.h == st.h && r.key == st.key && RecordsKept(st, r) && TriedKept(st, r)
    && (forall id :: id in st.infos && !st.infos[id].inTried ==> HomeKept(r, st.infos[id]))
  }

  lemma HomedRecovered(h: Hashes, st: State, s: seq<Token>, b: State, r: State, w: State)
    requires SameBody(h, st, s) && Loaded(st, Order(st), b, st.nNew + st.nTried) && Homed(b, r, true)
    requires w == r.(infos := w.infos, random := w.random, addrs := w.addrs, nNew := w.nNew)
    requires KeepsHoused(r.infos, w.infos) && Inv(w)
    requires forall j :: j in w.infos ==> Housed(w.infos[j])
    ensures Recovered(st, w)
  {
    hide Between; hide Order; hide Entries; hide NewId; hide RandomOk; hide Ops.Home; hide Sequential; hide TriedOk;
    hide HomeCells; hide Numbered; hide AddrOk; hide KeepsHoused; hide Traced; hide RecordsKept; hide TriedKept; hide HomeKept;
    hide Inv;
    OrderNumbers(st);
    NumberedNat(st, Order(st));
    Runs.IndexedRandom(st);
    Runs.IndexedRandom(w);
    HomedTraced(st, Order(st), b, r, true);
    RecoveredRecords(st, Order(st), r, w);
    RecoveredTried(st, Order(st), r, w);
    forall id | id in st.infos && !st.infos[id].inTried ensures HomeKept(w, st.infos[id]) {
      RecoveredHome(st, Order(st), r, w, id);
    }
  }

  lemma RecoveredRecords(st: State, order: seq<int>, r: State, w: State)
    requires AddrOk(st.infos, st.addrs) && AddrOk(w.infos, w.addrs)
    requires Traced(st, order, r.infos) && KeepsHoused(r.infos, w.infos)
    ensures RecordsKept(st, w)
  {
    forall a | a in w.addrs
      ensures a in st.addrs && w.addrs[a] in w.infos && st.addrs[a] == order[w.addrs[a]]
    {
      var j := w.addrs[a];
      assert j in w.infos && j in r.infos && w.infos[j].service.addr == a;
      var id := order[j];
      assert id in st.infos && st.infos[id].service.addr == a;
    }
  }

  lemma RecoveredTried(st: State, order: seq<int>, r: State, w: State)
    requires AddrOk(w.infos, w.addrs) && Numbered(st, order)
    requires Traced(st, order, r.infos) && KeepsHoused(r.infos, w.infos) && forall j :: 0 <= j < |order| ==> j in r.infos
    ensures TriedKept(st, w)
  {
    hide NewId;
    forall id | id in st.infos && st.infos[id].inTried ensures st.infos[id].service.addr in w.addrs {
      var j := NewId(st, id);
      assert order[j] == id && j in r.infos && Housed(r.infos[j]);
      assert j in w.infos;
    }
  }

  lemma RecoveredHome(st: State, order: seq<int>, r: State, w: State, id: int)
    requires AddrOk(st.infos, st.addrs) && AddrOk(w.infos, w.addrs) && Numbered(st, order)
    requires id in st.infos && !st.infos[id].inTried
    requires Traced(st, order, r.infos) && KeepsHoused(r.infos, w.infos) && forall j :: 0 <= j < |order| ==> j in r.infos
    requires HomeCells(r.h, r.key, r.infos, r.newTable) && w.h == r.h && w.key == r.key && w.newTable == r.newTable
    requires forall j :: j in w.infos ==> Housed(w.infos[j])
    ensures HomeKept(w, st.infos[id])
  {
    hide NewId;
    var j := NewId(st, id);
    assert order[j] == id && j in r.infos && !r.infos[j].inTried;
    var a := st.infos[id].service.addr;
    assert r.infos[j].service.addr == a;
    var u := Ops.Home(r.h, r.key, st.infos[id]);
    assert u == Ops.Home(r.h, r.key, r.infos[j]);
    hide Ops.Home;
    var k := r.newTable[u];
    HomeHoused(r, w, u);
    if a in w.addrs {
      var i := w.addrs[a];
      assert i in w.infos && i in r.infos && w.infos[i].service.addr == a;
      AddrsDistinct(st, order, r, i, j);
      assert Housed(w.infos[j]);
      assert k == j;
    }
  }

  lemma HomeHoused(r: State, w: State, u: Slot)
    requires HomeCells(r.h, r.key, r.infos, r.newTable) && KeepsHoused(r.infos, w.infos) && u in r.newTable
    ensures r.newTable[u] in w.infos
  {
    hide Ops.Home;
    var k := r.newTable[u];
    assert k in r.infos && Housed(r.infos[k]);
  }

  lemma AddrsDistinct(st: State, order: seq<int>, r: State, i: int, j: int)
    requires AddrOk(st.infos, st.addrs) && Numbered(st, order) && Traced(st, order, r.infos)
    requires i in r.infos && j in r.infos && r.infos[i].service.addr == r.infos[j].service.addr
    ensures i == j
  {
    hide NewId;
    var x, y := order[i], order[j];
    assert x in st.infos && y in st.infos && NewId(st, x) == i && NewId(st, y) == j;
  }

  /** The counters and the key of a stream. */
  lemma BodyHeader(h: Hashes, st: State, s: seq<Token>)
    requires SameBody(h, st, s)
    ensures |s| >= 6 && s[1] == ByteToken(32) && s[2] == KeyToken(st.key) && s[3] == IntToken(st.nNew) && s[4] == IntToken(st.nTried)
    ensures st.h == h && 0 <= st.nNew && 0 <= st.nTried && Inv(st)
  {
    hide Between; hide Ids; hide NewId;
    OrderNumbers(st);
    assert s[1] == s[1..5][0] && s[2] == s[1..5][1] && s[3] == s[1..5][2] && s[4] == s[1..5][3];
  }

  /** What is read up to the buckets; `b` are the entries without references. */
  method ReadEntries(m: Manager, s: seq<Token>, legacy: bool, ghost st: State, ghost good: bool)
    returns (ok: bool, ghost b: State, nCells: nat)
    requires m.Shaped() && m.mapInfo == map[] && m.mapAddr == map[] && m.vRandom == []
    requires m.newCells == map[] && m.triedCells == map[]
    requires good ==> SameBody(m.h, st, s) && m.nKey == st.key && m.nNew == st.nNew && m.nTried == st.nTried
    modifies m`mapInfo, m`mapAddr, m`vRandom, m`newCells, m.vvNew, m`nIdCount, m`nTried, m`triedCells, m.vvTried
    ensures m.Shaped() && nCells == 6 + Ops.Max0(m.nNew) + Ops.Max0(old(m.nTried))
    ensures ok ==> Sequential(m.mapInfo, m.vRandom, m.nIdCount - |m.vRandom|)
    ensures ok ==> m.nIdCount - |m.vRandom| == m.nNew - Ops.Max0(m.nNew) && |m.vRandom| >= Ops.Max0(m.nNew)
    ensures good ==> ok && m.nTried == st.nTried && m.nIdCount == st.nNew + st.nTried
    ensures good ==> Loaded(st, Order(st), b, st.nNew + st.nTried) && Homed(b, m.View(), legacy)
  {
    hide Between; hide Holds; hide Written; hide Order; hide Loaded; hide SameBody; hide Sequential; hide Homed;
    if good {
      BodyHeader(m.h, st, s);
    }
    nCells := 6 + Ops.Max0(m.nNew) + Ops.Max0(m.nTried);
    ok, b := ReadNew(m, s, legacy, st, good);
    if !ok {
      return;
    }
    if good {
      HomedIdCount(st, b, m.View(), legacy, m.nNew);
      b := b.(idCount := m.nNew);
    }
    m.nIdCount := m.nNew;
    SequentialShift(m.mapInfo, m.vRandom, m.nNew);
    ok, b := ReadTried(m, s, legacy, st, b, good);
  }

  lemma HomedIdCount(st: State, b: State, r: State, legacy: bool, n: int)
    requires Loaded(st, Order(st), b, st.nNew) && Homed(b, r, legacy)
    ensures Loaded(st, Order(st), b.(idCount := n), st.nNew) && Homed(b.(idCount := n), r.(idCount := n), legacy)
  {
  }

  /**
   Read a stream into a fresh manager. For the tables of any consistent manager, reading what it
   wrote restores them up to renumbering, with nothing lost. Entries like those of a consistent
   manager give a consistent manager whatever the layout, and a foreign layout loses only entries
   whose home cell is taken.
   */
  method Unserialize(m: Manager, s: seq<Token>, ghost st: State) returns (ok: bool)
    requires m.Shaped() && m.View() == Init(m.h, m.nKey)
    modifies m, m.vvNew, m.vvTried
    ensures m.Shaped()
    ensures |s| > 1 && s[1].ByteToken? && s[1].b != 32 ==> !ok
    ensures Original(m.h, st, s) ==> ok && Restored(st, m.View()) && m.Valid()
    ensures SameBody(m.h, st, s) && ok ==> m.Valid()
    ensures SameBody(m.h, st, s) && ok && Foreign(s) ==> Recovered(st, m.View())
  {
    hide Between; hide Holds; hide Written; hide Order; hide Loaded; hide Linked; hide Original; hide Restored; hide Numbered;
    hide RandomOk; hide Sequential; hide AddrOk; hide TriedOk; hide BucketTokens; hide SameBody; hide Homed; hide LooseOk;
    hide Recovered; hide KeepsHoused; hide Inv;
    ghost var exact := Original(m.h, st, s);
    ghost var good := SameBody(m.h, st, s);
    if exact {
      OriginalBody(m.h, st, s);
      OriginalHeader(m.h, st, s);
      assert forall k :: 0 <= k < 6 ==> s[k] == Header(st)[k];
    }
    if good {
      BodyHeader(m.h, st, s);
    }
    if |s| < 6 || !s[0].ByteToken? || !s[1].ByteToken? || !s[2].KeyToken? || !s[3].IntToken? || !s[4].IntToken? || !s[5].IntToken? {
      return false;
    }
    var nVersion := s[0].b;
    if s[1].b != 32 {
      return false;
    }
    m.nKey := s[2].key;
    m.nNew := s[3].n;
    m.nTried := s[4].n;
    var nUBuckets := s[5].n;
    if nVersion != 0 {
      nUBuckets := FlipBit30(nUBuckets);
    }
    var legacy := nVersion != 1 || nUBuckets != NEW_BUCKET_COUNT;
    ghost var b; var nCells;
    ok, b, nCells := ReadEntries(m, s, legacy, st, good);
    if !ok {
      return;
    }
    var lo := m.nIdCount - |m.vRandom|;
    SequentialRandom(m.mapInfo, m.vRandom, lo);
    SequentialCovers(m.mapInfo, m.vRandom, lo, m.nNew);
    ghost var a := m.View();
    if good {
      HomedLoose(m.h, st, s, b, a, legacy);
    }
    if exact {
      ExactLinked(m.h, st, s, b, a);
    }
    ok := ReadBuckets(m, s, nCells, nVersion, nUBuckets, st, exact, good);
    if !ok {
      return;
    }
    ghost var c := m.View();
    if exact {
      ExactRestored(m.h, st, s, a, c);
    }
    Prune(m, lo, m.nIdCount, good);
    if good && legacy {
      HomedRecovered(m.h, st, s, b, c, m.View());
    }
  }

  lemma ExactLinked(h: Hashes, st: State, s: seq<Token>, b: State, r: State)
    requires Original(h, st, s) && Loaded(st, Order(st), b, st.nNew + st.nTried) && Homed(b, r, false) && r.nNew == st.nNew
    ensures Numbered(st, Order(st)) && Linked(st, Order(st), r, 0, 0)
    ensures AddrOk(r.infos, r.addrs) && TriedOk(r.h, r.key, r.infos, r.triedTable)
    ensures |r.random| == st.nNew + st.nTried && forall j :: 0 <= j < |r.random| ==> r.random[j] == j
    ensures 0 <= st.nNew && 0 <= st.nTried && 6 + st.nNew + st.nTried <= |s|
    ensures s[6 + st.nNew + st.nTried..] == BucketTokens(st, 0)
  {
    hide Loaded; hide Original; hide Order; hide Linked; hide Numbered; hide BucketTokens; hide AddrOk; hide TriedOk;
    LoadedLinked(h, st, s, r);
    CellsSuffix(h, st, s);
  }

  lemma ExactRestored(h: Hashes, st: State, s: seq<Token>, a: State, c: State)
    requires Original(h, st, s) && Numbered(st, Order(st))
    requires Linked(st, Order(st), a, 0, 0) && Linked(st, Order(st), c, NEW_BUCKET_COUNT, 0)
    requires c == a.(infos := c.infos, newTable := c.newTable)
    requires AddrOk(a.infos, a.addrs) && TriedOk(a.h, a.key, a.infos, a.triedTable)
    requires a.nTried == st.nTried && a.idCount == st.nNew + st.nTried
    requires |a.random| == a.idCount && forall j :: 0 <= j < |a.random| ==> a.random[j] == j
    ensures Restored(st, c) && Inv(c) && forall j :: j in c.infos ==> Housed(c.infos[j])
  {
    hide Linked; hide Original; hide Order; hide Restored; hide Numbered; hide AddrOk; hide TriedOk; hide Inv;
    OriginalConsistent(h, st, s);
    LinkedIndexes(st, Order(st), a, c);
    LinkedRestored(st, c);
    RestoredConsistent(st, c);
  }

  lemma OriginalConsistent(h: Hashes, st: State, s: seq<Token>)
    requires Original(h, st, s)
    ensures Inv(st)
  {
  }

  lemma SequentialShift(infos: map<int, Info>, random: seq<int>, n: int)
    requires Sequential(infos, random, 0) && |random| == Ops.Max0(n)
    ensures Sequential(infos, random, n - |random|)
  {
  }

  lemma SequentialCovers(infos: map<int, Info>, random: seq<int>, start: int, n: int)
    requires Sequential(infos, random, start) && start == n - Ops.Max0(n) && |random| >= Ops.Max0(n)
    ensures forall j :: 0 <= j < n ==> j in infos
    ensures forall j :: j in infos ==> start <= j < start + |random|
  {
  }

  /** Writing a manager and reading the stream into a new one gives the same manager up to renumbering. */
  method Reload(m: Manager, key: nat) returns (r: Manager)
    requires m.Valid()
    ensures fresh(r) && r.Valid() && Restored(m.View(), r.View())
  {
    hide Between; hide Holds; hide Written; hide Restored;
    var s := Serialize(m);
    ghost var st := m.View();
    r := new Manager(m.h, key);
    var ok := Unserialize(r, s, st);
    assert ok;
  }
}
