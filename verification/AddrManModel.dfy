/**
 The address manager's tables as one value, the operations on them, and the
 consistency that the operations keep.

 Bucket hashing is a parameter: three functions of the secret key and of the
 address, each reduced modulo the table size as the source reduces them.
 */
module AddrManModel {

  const TRIED_BUCKET_COUNT := 256
  const NEW_BUCKET_COUNT := 1024
  const BUCKET_SIZE := 64
  const NEW_BUCKETS_PER_ADDRESS := 8
  const HORIZON_DAYS := 30
  const RETRIES := 3
  const MAX_FAILURES := 10
  const MIN_FAIL_DAYS := 7
  const GETADDR_MAX_PCT := 23
  const GETADDR_MAX := 2500
  const UINT32_LIMIT := 0x1_0000_0000


  /** An address without a port (CNetAddr). */
  datatype NetAddr = NetAddr(ip: nat)

  /** An address with its port (CService). */
  datatype Service = Service(addr: NetAddr, port: nat)

  /** An address as gossiped by peers (CAddress). */
  datatype Address = Address(service: Service, services: set<nat>, time: nat)

  datatype Hashes = Hashes(
    triedHash: (nat, Service) -> nat,
    newHash: (nat, NetAddr, NetAddr) -> nat,
    position: (nat, bool, nat, Service) -> nat)

  /** A cell of the "new" or the "tried" table. */
  datatype Slot = Slot(bucket: nat, pos: nat)

  datatype Info = Info(
    service: Service, services: set<nat>, time: nat, source: NetAddr,
    lastTry: int, lastSuccess: int, attempts: int,
    refCount: int, inTried: bool, randomPos: int)

  datatype State = State(
    h: Hashes, key: nat, idCount: int,
    infos: map<int, Info>, addrs: map<NetAddr, int>, random: seq<int>,
    nTried: int, triedTable: map<Slot, int>,
    nNew: int, newTable: map<Slot, int>)

  // ----- Bucket placement and entry quality -----

  function TriedBucket(h: Hashes, key: nat, s: Service): nat {
    h.triedHash(key, s) % TRIED_BUCKET_COUNT
  }

  function NewBucket(h: Hashes, key: nat, s: Service, source: NetAddr): nat {
    h.newHash(key, s.addr, source) % NEW_BUCKET_COUNT
  }

  function BucketPosition(h: Hashes, key: nat, isNew: bool, bucket: nat, s: Service): nat {
    h.position(key, isNew, bucket, s) % BUCKET_SIZE
  }

  function TriedSlot(h: Hashes, key: nat, s: Service): Slot {
    var b := TriedBucket(h, key, s);
    Slot(b, BucketPosition(h, key, false, b, s))
  }

  function NewSlot(h: Hashes, key: nat, s: Service, bucket: nat): Slot {
    Slot(bucket, BucketPosition(h, key, true, bucket, s))
  }

  predicate IsTerrible(info: Info, now: int) {
    if info.lastTry != 0 && info.lastTry >= now - 60 then false
    else if info.time > now + 10 * 60 then true
    else if info.time == 0 || now - info.time > HORIZON_DAYS * 24 * 60 * 60 then true
    else if info.lastSuccess == 0 && info.attempts >= RETRIES then true
    else now - info.lastSuccess > MIN_FAIL_DAYS * 24 * 60 * 60 && info.attempts >= MAX_FAILURES
  }

  // ----- The invariant that CAddrMan::Check_ evaluates -----

  /** The cells of the new table that refer to `id`. */
  function Refs(newTable: map<Slot, int>, id: int): set<Slot> {
    set s | s in newTable && newTable[s] == id
  }

  function TriedIds(infos: map<int, Info>): set<int> {
    set id | id in infos && infos[id].inTried
  }

  function NewIds(infos: map<int, Info>): set<int> {
    set id | id in infos && !infos[id].inTried
  }

  /** vRandom lists every id once, and each entry knows its place in it. */
  ghost predicate RandomOk(infos: map<int, Info>, random: seq<int>) {
    && (forall i :: 0 <= i < |random| ==> var id := random[i]; id in infos && infos[id].randomPos == i)
    && (forall id :: id in infos ==> 0 <= infos[id].randomPos < |random| && random[infos[id].randomPos] == id)
  }

  /** mapAddr is the inverse of "the address of entry id". */
  ghost predicate AddrOk(infos: map<int, Info>, addrs: map<NetAddr, int>) {
    && (forall id :: id in infos ==> var a := infos[id].service.addr; a in addrs && addrs[a] == id)
    && (forall a :: a in addrs ==> var id := addrs[a]; id in infos && infos[id].service.addr == a)
  }

  /** Every occupied cell of the new table is where its occupant hashes to. */
  ghost predicate NewOk(h: Hashes, key: nat, infos: map<int, Info>, newTable: map<Slot, int>) {
    forall s :: s in newTable ==>
      var id := newTable[s];
      s.bucket < NEW_BUCKET_COUNT && id in infos && s == NewSlot(h, key, infos[id].service, s.bucket)
  }

  /** Reference counts are exact. */
  ghost predicate RefsOk(infos: map<int, Info>, newTable: map<Slot, int>) {
    forall id :: id in infos ==> infos[id].refCount == |Refs(newTable, id)|
  }

  /** Tried entries sit in exactly one cell, the one they hash to. */
  ghost predicate TriedOk(h: Hashes, key: nat, infos: map<int, Info>, triedTable: map<Slot, int>) {
    && (forall s :: s in triedTable ==>
          var id := triedTable[s];
          id in infos && infos[id].inTried && s == TriedSlot(h, key, infos[id].service))
    && (forall id :: id in infos && infos[id].inTried ==>
          var s := TriedSlot(h, key, infos[id].service); s in triedTable && triedTable[s] == id)
  }

  /** The bounds that hold of a single entry; an entry in limbo is in neither table. */
  predicate EntryOk(info: Info, limbo: bool) {
    && (info.inTried ==> !limbo && info.refCount == 0)
    && (!info.inTried ==> if limbo then info.refCount == 0 else 1 <= info.refCount <= NEW_BUCKETS_PER_ADDRESS)
  }

  ghost predicate Indexed(st: State) {
    RandomOk(st.infos, st.random) && AddrOk(st.infos, st.addrs)
  }

  ghost predicate Placed(st: State) {
    && NewOk(st.h, st.key, st.infos, st.newTable)
    && RefsOk(st.infos, st.newTable)
    && TriedOk(st.h, st.key, st.infos, st.triedTable)
  }

  ghost predicate Tallied(st: State, limbo: set<int>, extra: int) {
    && (forall id :: id in st.infos ==> 0 <= id < st.idCount && EntryOk(st.infos[id], id in limbo))
    && 0 <= st.idCount
    && limbo <= NewIds(st.infos)
    && st.nTried == |TriedIds(st.infos)|
    && st.nNew == |NewIds(st.infos) - limbo| + extra
  }

  /**
   Consistency in the middle of an operation: the entries of `limbo` are in
   neither table, and `nNew` is off by `extra`.
   */
  ghost predicate Between(st: State, limbo: set<int>, extra: int) {
    Indexed(st) && Placed(st) && Tallied(st, limbo, extra)
  }

  /** Consistency between operations. */
  ghost predicate Inv(st: State) {
    Between(st, {}, 0)
  }

  function Init(h: Hashes, key: nat): (st: State) {
    State(h, key, 0, map[], map[], [], 0, map[], 0, map[])
  }

  // ----- SwapRandom -----

  function SwapRandom(st: State, i: nat, j: nat): (r: State)
    requires RandomOk(st.infos, st.random)
    requires i != j ==> i < |st.random| && j < |st.random|
  {
    if i == j then st
    else
      var id1, id2 := st.random[i], st.random[j];
      var infos := st.infos[id1 := st.infos[id1].(randomPos := j)];
      st.(infos := infos[id2 := infos[id2].(randomPos := i)],
          random := st.random[i := id2][j := id1])
  }

  // Each part of the invariant depends on few fields of the entries; the next
  // lemmas say on which.

  ghost predicate SameServices(a: map<int, Info>, b: map<int, Info>) {
    && (forall id :: id in a <==> id in b)
    && (forall id :: id in b ==> a[id].service == b[id].service)
  }

  /** Same addresses, same tables, possibly other statistics or vRandom positions. */
  ghost predicate SamePlaces(a: map<int, Info>, b: map<int, Info>) {
    && SameServices(a, b)
    && (forall id :: id in b ==> a[id].inTried == b[id].inTried && a[id].refCount == b[id].refCount)
  }

  /** Two tables of entries that differ only in vRandom positions. */
  ghost predicate SameEntries(a: map<int, Info>, b: map<int, Info>) {
    && (forall id :: id in a <==> id in b)
    && (forall id :: id in b ==> a[id] == b[id].(randomPos := a[id].randomPos))
  }

  lemma PlacesKeepPlaced(st: State, r: State)
    requires Placed(st) && SamePlaces(st.infos, r.infos)
    requires r == st.(infos := r.infos, random := r.random)
    ensures Placed(r)
  {
  }

  lemma PlacesKeepTallied(st: State, r: State, limbo: set<int>, extra: int)
    requires Tallied(st, limbo, extra) && SamePlaces(st.infos, r.infos)
    requires r == st.(infos := r.infos, random := r.random)
    requires forall id :: id in r.infos ==> EntryOk(r.infos[id], id in limbo)
    ensures Tallied(r, limbo, extra)
  {
    assert forall id :: id in TriedIds(st.infos) <==> id in TriedIds(r.infos);
    assert TriedIds(st.infos) == TriedIds(r.infos);
    assert forall id :: id in NewIds(st.infos) <==> id in NewIds(r.infos);
    assert NewIds(st.infos) == NewIds(r.infos);
  }

  lemma SwapRandomOk(st: State, i: nat, j: nat)
    requires RandomOk(st.infos, st.random)
    requires i != j ==> i < |st.random| && j < |st.random|
    ensures RandomOk(SwapRandom(st, i, j).infos, SwapRandom(st, i, j).random)
    ensures SameEntries(st.infos, SwapRandom(st, i, j).infos)
  {
  }

  lemma SwapRandomIndexed(st: State, i: nat, j: nat)
    requires Indexed(st)
    requires i != j ==> i < |st.random| && j < |st.random|
    ensures Indexed(SwapRandom(st, i, j))
    ensures SameEntries(st.infos, SwapRandom(st, i, j).infos)
  {
    hide RandomOk;
    SwapRandomOk(st, i, j);
  }

  lemma SwapRandomKeeps(st: State, i: nat, j: nat, limbo: set<int>, extra: int)
    requires Between(st, limbo, extra)
    requires i != j ==> i < |st.random| && j < |st.random|
    ensures Between(SwapRandom(st, i, j), limbo, extra)
  {
    hide Placed; hide RandomOk; hide AddrOk; hide SwapRandom; hide Tallied;
    SwapRandomIndexed(st, i, j);
    var r := SwapRandom(st, i, j);
    SwapRandomRest(st, i, j);
    PlacesKeepPlaced(st, r);
    SameEntriesTallied(st, r, limbo, extra);
  }

  lemma SwapRandomRest(st: State, i: nat, j: nat)
    requires RandomOk(st.infos, st.random)
    requires i != j ==> i < |st.random| && j < |st.random|
    ensures var r := SwapRandom(st, i, j); r == st.(infos := r.infos, random := r.random)
  {
  }

  lemma SameEntriesTallied(st: State, r: State, limbo: set<int>, extra: int)
    requires Tallied(st, limbo, extra) && SameEntries(st.infos, r.infos)
    requires r == st.(infos := r.infos, random := r.random)
    ensures Tallied(r, limbo, extra)
  {
    PlacesKeepTallied(st, r, limbo, extra);
  }

  // ----- Updates of one entry's statistics -----

  /** Update of statistics only: time, services, tries and successes. */
  predicate SamePlace(a: Info, b: Info) {
    && a.service == b.service && a.source == b.source && a.randomPos == b.randomPos
    && a.refCount == b.refCount && a.inTried == b.inTried
  }

  function Put(st: State, id: int, info: Info): (r: State) {
    st.(infos := st.infos[id := info])
  }

  lemma PutIndexed(st: State, id: int, info: Info)
    requires Indexed(st)
    requires id in st.infos && info.service == st.infos[id].service && info.randomPos == st.infos[id].randomPos
    ensures Indexed(Put(st, id, info))
  {
  }

  lemma PutKeeps(st: State, id: int, info: Info, limbo: set<int>, extra: int)
    requires Between(st, limbo, extra)
    requires id in st.infos && SamePlace(info, st.infos[id]) && EntryOk(info, id in limbo)
    ensures Between(Put(st, id, info), limbo, extra)
  {
    hide Indexed; hide Placed; hide Tallied;
    PutIndexed(st, id, info);
    PlacesKeepPlaced(st, Put(st, id, info));
    PutTallied(st, id, info, limbo, extra);
  }

  lemma PutTallied(st: State, id: int, info: Info, limbo: set<int>, extra: int)
    requires Tallied(st, limbo, extra)
    requires id in st.infos && SamePlace(info, st.infos[id]) && EntryOk(info, id in limbo)
    ensures Tallied(Put(st, id, info), limbo, extra)
  {
    PlacesKeepTallied(st, Put(st, id, info), limbo, extra);
  }

  // ----- Create -----

  /** A fresh entry: in the indexes, in neither table. */
  function Create(st: State, a: Address, source: NetAddr): (r: State) {
    var id := st.idCount;
    st.(idCount := id + 1,
        infos := st.infos[id := Info(a.service, a.services, a.time, source, 0, 0, 0, 0, false, |st.random|)],
        addrs := st.addrs[a.service.addr := id],
        random := st.random + [id])
  }

  lemma CreateIndexed(st: State, a: Address, source: NetAddr)
    requires Indexed(st) && st.idCount !in st.infos && a.service.addr !in st.addrs
    ensures Indexed(Create(st, a, source))
  {
  }

  lemma CreatePlaced(st: State, a: Address, source: NetAddr)
    requires Placed(st) && st.idCount !in st.infos
    ensures Placed(Create(st, a, source))
  {
    assert Refs(st.newTable, st.idCount) == {};
  }

  lemma CreateTallied(st: State, a: Address, source: NetAddr)
    requires Tallied(st, {}, 0)
    ensures Tallied(Create(st, a, source), {st.idCount}, 0)
  {
    var r := Create(st, a, source);
    assert TriedIds(r.infos) == TriedIds(st.infos);
    assert NewIds(r.infos) - {st.idCount} == NewIds(st.infos) - {};
  }

  lemma CreateKeeps(st: State, a: Address, source: NetAddr)
    requires Inv(st)
    requires a.service.addr !in st.addrs
    ensures Between(Create(st, a, source), {st.idCount}, 0)
  {
    hide Indexed; hide Placed; hide Create;
    CreateIndexed(st, a, source);
    CreatePlaced(st, a, source);
    CreateTallied(st, a, source);
  }

  // ----- Delete -----

  /** Removal of an entry that is in neither table. */
  function Delete(st: State, id: int): (r: State)
    requires RandomOk(st.infos, st.random)
    requires id in st.infos
  {
    DropLast(SwapRandom(st, st.infos[id].randomPos, |st.random| - 1), id)
  }

  function DropLast(w: State, id: int): State
    requires id in w.infos && |w.random| > 0
  {
    w.(random := w.random[..|w.random| - 1],
       addrs := w.addrs - {w.infos[id].service.addr},
       infos := w.infos - {id},
       nNew := w.nNew - 1)
  }

  lemma DropLastIndexed(w: State, id: int)
    requires Indexed(w) && id in w.infos && w.infos[id].randomPos == |w.random| - 1
    ensures Indexed(DropLast(w, id))
  {
  }

  lemma DropLastPlaced(w: State, id: int)
    requires Placed(w) && id in w.infos && |w.random| > 0
    requires !w.infos[id].inTried && w.infos[id].refCount == 0
    ensures Placed(DropLast(w, id))
  {
    forall s | s in w.newTable ensures w.newTable[s] != id {
      assert s !in Refs(w.newTable, id);
    }
  }

  lemma DropLastTallied(w: State, id: int, limbo: set<int>, extra: int)
    requires Tallied(w, limbo, extra) && id in limbo && |w.random| > 0
    ensures Tallied(DropLast(w, id), limbo - {id}, extra - 1)
  {
    var r := DropLast(w, id);
    assert TriedIds(r.infos) == TriedIds(w.infos);
    assert NewIds(r.infos) - (limbo - {id}) == NewIds(w.infos) - limbo;
  }

  lemma DropLastKeeps(w: State, id: int, limbo: set<int>, extra: int)
    requires Between(w, limbo, extra) && id in limbo && |w.random| > 0
    requires w.infos[id].randomPos == |w.random| - 1
    ensures Between(DropLast(w, id), limbo - {id}, extra - 1)
  {
    hide Indexed; hide Placed; hide DropLast;
    DropLastIndexed(w, id);
    DropLastPlaced(w, id);
    DropLastTallied(w, id, limbo, extra);
  }

  lemma DeleteEntries(st: State, id: int)
    requires RandomOk(st.infos, st.random) && id in st.infos
    ensures SameEntries(st.infos - {id}, Delete(st, id).infos)
  {
    SwapRandomOk(st, st.infos[id].randomPos, |st.random| - 1);
  }

  lemma DeleteKeeps(st: State, id: int, limbo: set<int>, extra: int)
    requires Between(st, limbo, extra)
    requires id in limbo
    ensures Between(Delete(st, id), limbo - {id}, extra - 1)
  {
    hide Between; hide RandomOk; hide SwapRandom; hide DropLast;
    LimboMember(st, id, limbo, extra);
    var pos, last := st.infos[id].randomPos, |st.random| - 1;
    SwapToLast(st, id);
    SwapRandomKeeps(st, pos, last, limbo, extra);
    DropLastKeeps(SwapRandom(st, pos, last), id, limbo, extra);
  }

  lemma LimboMember(st: State, id: int, limbo: set<int>, extra: int)
    requires Between(st, limbo, extra)
    ensures RandomOk(st.infos, st.random)
    ensures id in limbo ==> id in st.infos && st.infos[id].refCount == 0 && !st.infos[id].inTried
  {
  }

  lemma SwapToLast(st: State, id: int)
    requires RandomOk(st.infos, st.random) && id in st.infos
    ensures 0 <= st.infos[id].randomPos < |st.random|
    ensures var w := SwapRandom(st, st.infos[id].randomPos, |st.random| - 1);
            && |w.random| == |st.random| && id in w.infos && w.infos[id].randomPos == |st.random| - 1
            && w.infos[id].service == st.infos[id].service
  {
  }
}
