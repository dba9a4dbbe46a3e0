/**
 What one call of the address manager does, said of the tables alone: which entry it finds, which
 cell it takes, and that nothing else changes.
 */
module AddrManEffects {
  import opened Common
  import opened AddrManModel
  import opened AddrManOps
  import opened Powers
  import opened AddrManRuns

  const HOUR := 60 * 60
  const DAY := 24 * HOUR

  // ----- Placing -----

  /** The cell of the new table that `source` assigns to a service. */
  function CellFor(st: State, s: Service, source: NetAddr): Slot {
    NewSlot(st.h, st.key, s, NewBucket(st.h, st.key, s, source))
  }

  /** The occupant of cell `u` has one reference less, and is forgotten with the last. */
  ghost predicate Displaced(infos: map<int, Info>, r: State, newTable: map<Slot, int>, u: Slot) {
    u in newTable ==>
      newTable[u] in infos && var id := newTable[u];
      if infos[id].refCount == 1 then id !in r.infos
      else id in r.infos && r.infos[id] == infos[id].(refCount := infos[id].refCount - 1, randomPos := r.infos[id].randomPos)
  }

  lemma ClearNewEffect(st: State, u: Slot)
    requires RandomOk(st.infos, st.random) && (u in st.newTable ==> st.newTable[u] in st.infos)
    ensures Displaced(st.infos, ClearNew(st, u), st.newTable, u)
  {
    if u in st.newTable {
      UnlinkRandom(st, u);
      DeleteFrame(Unlink(st, u), st.newTable[u]);
    }
  }

  /** `r` is `st` with `id` in cell `u`, in place of the cell's occupant. */
  ghost predicate Linked(st: State, r: State, u: Slot, id: int, info: Info) {
    && r.newTable == st.newTable[u := id] && Displaced(st.infos, r, st.newTable, u)
    && id in r.infos && r.infos[id] == info.(randomPos := r.infos[id].randomPos)
    && OthersKept(st, r, {id} + Occupant(st.newTable, u))
  }

  lemma PlaceEffect(st: State, id: int, source: NetAddr, now: int)
    requires Placeable(st, id)
    ensures var info := st.infos[id]; var r := Place(st, id, source, now); var u := CellFor(st, info.service, source);
            && SameTried(st, r) && (u in st.newTable ==> st.newTable[u] in st.infos)
            && if u !in st.newTable || (st.newTable[u] != id && Overwritable(st.infos[st.newTable[u]], info.refCount, now))
               then Linked(st, r, u, id, info.(refCount := info.refCount + 1))
               else if info.refCount != 0 then r == st
               else r.newTable == st.newTable && id !in r.infos && OthersKept(st, r, {id})
  {
    hide Between; hide RandomOk; hide IsTerrible; hide ClearNew; hide Delete; hide Overwritable;
    var info := st.infos[id];
    var u := CellFor(st, info.service, source);
    PlaceableRandom(st, id);
    if u in st.newTable {
      PlaceableOccupant(st, u, id);
    }
    if u in st.newTable && st.newTable[u] == id {
    } else if u !in st.newTable || Overwritable(st.infos[st.newTable[u]], info.refCount, now) {
      PlaceStep(st, u, id);
      ClearedTable(st, u, id);
      ClearNewEffect(st, u);
      var c := ClearNew(st, u);
      assert (st.newTable - {u})[u := id] == st.newTable[u := id];
    } else if info.refCount == 0 {
      DeleteFrame(st, id);
      DeleteTables(st, id);
    }
  }

  lemma ClearedTable(st: State, u: Slot, id: int)
    requires Placeable(st, id)
    ensures RandomOk(st.infos, st.random) && (u in st.newTable ==> st.newTable[u] in st.infos)
    ensures ClearNew(st, u).newTable == st.newTable - {u}
  {
    hide Between; hide RandomOk; hide ClearNew;
    PlaceableRandom(st, id);
    if st.infos[id].refCount == 0 {
      ClearNewKeeps(st, u, {id}, 1);
    } else {
      ClearNewKeeps(st, u, {}, 0);
    }
  }

  // ----- Add -----

  /** The time of a known entry after it was announced again: an old one gives way to the announced one. */
  predicate TimeFollows(was: nat, time: nat, a: Address, penalty: int, now: int) {
    var interval := if now - a.time < DAY then HOUR else DAY;
    if a.time != 0 && (was == 0 || was + interval + penalty < a.time)
    then time == (if penalty <= a.time then (a.time - penalty) % UINT32_LIMIT else 0)
    else time == was
  }

  /** `r` differs from `st` in entry `id` alone, whose cells stay the same. */
  ghost predicate OnlyEntry(st: State, r: State, id: int) {
    && id in st.infos && id in r.infos && SamePlace(r.infos[id], st.infos[id])
    && r == st.(infos := st.infos[id := r.infos[id]])
  }

  /** A known entry gets cell `u` for newer news, with odds that halve with each reference it has. */
  predicate GetsCell(st: State, id: int, u: Slot, time: nat, a: Address, now: int, draw: nat)
    requires id in st.infos && (u in st.newTable ==> st.newTable[u] in st.infos)
  {
    && !st.infos[id].inTried && 0 <= st.infos[id].refCount < NEW_BUCKETS_PER_ADDRESS
    && a.time != 0 && (time == 0 || time < a.time)
    && (PowPositive(2, st.infos[id].refCount); draw % Pow(2, st.infos[id].refCount) == 0)
    && (u in st.newTable ==> st.newTable[u] != id && IsTerrible(st.infos[st.newTable[u]], now))
  }

  /** What Add makes of a known address. */
  ghost predicate KnownAdded(st: State, r: State, id: int, a: Address, source: NetAddr, penalty: int, now: int, draw: nat)
    requires id in st.infos && id in r.infos
  {
    var was, e := st.infos[id], r.infos[id];
    var u := CellFor(st, was.service, source);
    && e.services == was.services + a.services && TimeFollows(was.time, e.time, a, penalty, now)
    && e == was.(services := e.services, time := e.time, refCount := e.refCount, randomPos := e.randomPos)
    && SameTried(st, r) && (u in st.newTable ==> st.newTable[u] in st.infos)
    && if GetsCell(st, id, u, e.time, a, now, draw) then Linked(st, r, u, id, e.(refCount := was.refCount + 1))
       else OnlyEntry(st, r, id)
  }

  lemma AddKnown(st: State, a: Address, source: NetAddr, penalty: int, now: int, draw: nat)
    requires Inv(st) && a.service.addr in st.addrs
    ensures var (r, isNew) := Add(st, true, a, source, penalty, now, draw);
            var id := st.addrs[a.service.addr];
            && !isNew && id in st.infos && id in r.infos
            && KnownAdded(st, r, id, a, source, penalty, now, draw)
  {
    hide Between; hide Place; hide IsTerrible; hide RandomOk; hide Pow; hide NewSlot; hide NewBucket;
    IndexedRandom(st);
    var id := st.addrs[a.service.addr];
    assert id in st.infos;
    RefreshedKeeps(st, id, a, penalty, now);
    EntrySound(st, id);
    var was := st.infos[id];
    var info := Refreshed(was, a, penalty, now);
    var w := Put(st, id, info);
    var u := CellFor(st, was.service, source);
    if u in st.newTable {
      UnlinkKeeps(st, u, {}, 0);
    }
    if MayGrow(info, a, draw) {
      PlaceEffect(w, id, source, now);
      if u in st.newTable ==> st.newTable[u] != id {
        KnownGrown(st, w, id, u);
      }
    }
  }

  /** A reference more or less says nothing new of a cell taken from a terrible entry. */
  lemma KnownGrown(st: State, w: State, id: int, u: Slot)
    requires u in st.newTable ==> st.newTable[u] in st.infos && st.newTable[u] != id
    requires id in st.infos && id in w.infos && w == Put(st, id, w.infos[id]) && SamePlace(w.infos[id], st.infos[id])
    ensures forall r: State, info: Info :: Linked(w, r, u, id, info) ==> Linked(st, r, u, id, info)
  {
  }

  lemma AddUnroutable(st: State, a: Address, source: NetAddr, penalty: int, now: int, draw: nat)
    requires Inv(st)
    ensures Add(st, false, a, source, penalty, now, draw) == (st, false)
  {
  }

  /** The entry of a newcomer: as announced, never tried, with one reference. */
  predicate Newcomer(info: Info, a: Address, source: NetAddr, penalty: int) {
    info == Info(a.service, a.services, if penalty <= a.time then (a.time - penalty) % UINT32_LIMIT else 0, source,
                 0, 0, 0, 1, false, info.randomPos)
  }

  /** What Add makes of an unknown address: it gets the cell for its source, or nothing is stored and nothing lost. */
  ghost predicate UnknownAdded(st: State, r: State, a: Address, source: NetAddr, penalty: int, now: int) {
    var u, id := CellFor(st, a.service, source), st.idCount;
    && (u in st.newTable ==> st.newTable[u] in st.infos) && id !in st.infos
    && r.triedTable == st.triedTable && r.key == st.key
    && if u !in st.newTable || IsTerrible(st.infos[st.newTable[u]], now) || st.infos[st.newTable[u]].refCount > 1
       then && r.newTable == st.newTable[u := id] && Displaced(st.infos, r, st.newTable, u)
            && id in r.infos && Newcomer(r.infos[id], a, source, penalty)
            && OthersStay(st, r, {id} + Occupant(st.newTable, u))
       else r.newTable == st.newTable && OthersStay(st, r, {})
  }

  lemma AddUnknown(st: State, a: Address, source: NetAddr, penalty: int, now: int, draw: nat)
    requires Inv(st) && a.service.addr !in st.addrs
    ensures var (r, isNew) := Add(st, true, a, source, penalty, now, draw);
            && isNew && UnknownAdded(st, r, a, source, penalty, now)
            && (a.service.addr in r.addrs <==> st.idCount in r.infos)
            && (a.service.addr in r.addrs ==> r.addrs[a.service.addr] == st.idCount)
  {
    hide Between; hide Place; hide IsTerrible; hide RandomOk; hide UnknownAdded;
    IndexedRandom(st);
    FreshPlaceable(st, a, source, penalty);
    var w, id := Fresh(st, a, source, penalty), st.idCount;
    PlaceKeeps(w, id, source, now);
    var r := Place(w, id, source, now);
    FreshPlaced(st, a, source, penalty, now);
    IndexedRandom(r);
    assert UnknownAdded(st, r, a, source, penalty, now);
    NewcomerIndexed(st, r, a, source, penalty, now);
  }

  lemma NewcomerIndexed(st: State, r: State, a: Address, source: NetAddr, penalty: int, now: int)
    requires UnknownAdded(st, r, a, source, penalty, now) && AddrOk(st.infos, st.addrs) && AddrOk(r.infos, r.addrs)
    requires a.service.addr !in st.addrs
    ensures a.service.addr in r.addrs <==> st.idCount in r.infos
    ensures a.service.addr in r.addrs ==> r.addrs[a.service.addr] == st.idCount
  {
    hide IsTerrible; hide NewSlot; hide NewBucket;
    if a.service.addr in r.addrs {
      var j := r.addrs[a.service.addr];
      assert j in r.infos && r.infos[j].service.addr == a.service.addr;
      assert forall k :: k in st.infos ==> st.infos[k].service.addr != a.service.addr;
    }
  }

  lemma FreshPlaced(st: State, a: Address, source: NetAddr, penalty: int, now: int)
    requires Inv(st) && a.service.addr !in st.addrs
    ensures Placeable(Fresh(st, a, source, penalty), st.idCount)
    ensures UnknownAdded(st, Place(Fresh(st, a, source, penalty), st.idCount, source, now), a, source, penalty, now)
  {
    hide Between; hide Place; hide IsTerrible; hide RandomOk; hide NewSlot; hide NewBucket;
    NoSuchId(st);
    FreshPlaceable(st, a, source, penalty);
    var u := CellFor(st, a.service, source);
    if u in st.newTable {
      UnlinkKeeps(st, u, {}, 0);
    }
    PlaceEffect(Fresh(st, a, source, penalty), st.idCount, source, now);
  }

  /** Every entry but those of `out` is in `r` as it was, up to its place in the random order. */
  ghost predicate OthersStay(st: State, r: State, out: set<int>) {
    && (forall j :: j in r.infos ==> j in st.infos || j in out)
    && (forall j :: j in st.infos && j !in out ==>
          j in r.infos && r.infos[j] == st.infos[j].(randomPos := r.infos[j].randomPos))
  }

  // ----- Good -----

  lemma MoveToNewEffect(v: State, k: Slot, id: int)
    requires Between(v, {id}, 0) && k in v.triedTable
    ensures v.triedTable[k] in v.infos && v.triedTable[k] != id
    ensures var victim := v.triedTable[k]; var was := v.infos[victim]; var u := HomeSlot(v, was); var m := MoveToNew(v, k, id);
            && m.newTable == v.newTable[u := victim] && m.triedTable == v.triedTable - {k}
            && victim in m.infos
            && m.infos[victim] == was.(inTried := false, refCount := 1, randomPos := m.infos[victim].randomPos)
            && Displaced(v.infos, m, v.newTable, u)
  {
    hide Between; hide RandomOk; hide ClearNew; hide OthersKept;
    EvictKeeps(v, k, {id}, 0);
    var victim := v.triedTable[k];
    var e := Evict(v, k);
    assert {id} + {victim} == {id, victim};
    RehomeStep(e, victim, id);
    var u := HomeSlot(e, e.infos[victim]);
    ClearNewKeeps(e, u, {id, victim}, 0);
    MoveToNewKeeps(v, k, id);
    assert (v.newTable - {u})[u := victim] == v.newTable[u := victim];
    VictimKept(e, u, victim, id);
    ClearNewEffect(e, u);
    if u in v.newTable {
      UnlinkKeeps(e, u, {id, victim}, 0);
    }
  }

  lemma VictimKept(e: State, u: Slot, victim: int, id: int)
    requires Between(e, {id, victim}, 0) && u == HomeSlot(e, e.infos[victim])
    ensures RandomOk(e.infos, e.random) && (u in e.newTable ==> e.newTable[u] in e.infos)
    ensures var c := ClearNew(e, u); victim in c.infos && c.infos[victim] == e.infos[victim].(randomPos := c.infos[victim].randomPos)
    ensures e.infos[victim].refCount == 0
  {
    hide Between; hide RandomOk; hide ClearNew;
    RehomeStep(e, victim, id);
    LimboMember(e, victim, {id, victim}, 0);
    LimboUnlinked(e, u, {id, victim}, 0, victim);
  }

  /** Everything MakeTried does. */
  ghost predicate Promoted(st: State, r: State, id: int, info: Info) {
    var k := TriedSlot(st.h, st.key, info.service);
    var rest := st.newTable - Refs(st.newTable, id);
    && id in r.infos && r.infos[id] == info.(inTried := true, refCount := 0, randomPos := r.infos[id].randomPos)
    && r.triedTable == st.triedTable[k := id]
    && (k !in st.triedTable ==> r.newTable == rest && OthersStay(st, r, {id}))
    && (k in st.triedTable ==>
          && st.triedTable[k] in st.infos
          && var victim := st.triedTable[k];
          && SentBack(st, r, victim, rest) && Displaced(st.infos, r, rest, HomeSlot(st, st.infos[victim]))
          && OthersStay(st, r, {id, victim} + Occupant(rest, HomeSlot(st, st.infos[victim]))))
  }

  /** The displaced entry took its home cell. */
  ghost predicate SentBack(st: State, r: State, victim: int, rest: map<Slot, int>)
    requires victim in st.infos
  {
    && r.newTable == rest[HomeSlot(st, st.infos[victim]) := victim]
    && victim in r.infos
    && r.infos[victim] == st.infos[victim].(inTried := false, refCount := 1, randomPos := r.infos[victim].randomPos)
  }

  lemma MakeTriedEffect(st: State, id: int)
    requires Inv(st) && id in st.infos && !st.infos[id].inTried
    ensures Promoted(st, MakeTried(st, id), id, st.infos[id])
  {
    hide Between; hide MoveToNew; hide TriedSlot; hide Home;
    LeaveNewKeeps(st, id);
    var v := LeaveNew(st, id);
    var k := TriedSlot(v.h, v.key, v.infos[id].service);
    if k in v.triedTable {
      LimboEntry(v, k, id);
      MoveToNewMeaning(v, k, id);
      MoveToNewEffect(v, k, id);
      var m := MoveToNew(v, k, id);
      assert (st.triedTable - {k})[k := id] == st.triedTable[k := id];
      MoveToNewHash(v, k, id);
    }
  }

  lemma MoveToNewHash(v: State, k: Slot, id: int)
    requires Between(v, {id}, 0) && k in v.triedTable
    ensures MoveToNew(v, k, id).h == v.h && MoveToNew(v, k, id).key == v.key
  {
    MoveToNewKeeps(v, k, id);
  }

  /** Good on a known service: fresh statistics, and the tried cell if it is not there yet. */
  lemma GoodEffect(st: State, s: Service, time: int, id: int)
    requires Inv(st) && id in st.infos && st.infos[id].service == s
    ensures var r := Good(st, s, time); var info := st.infos[id].(lastSuccess := time, lastTry := time, attempts := 0);
            if info.inTried then r == st.(infos := st.infos[id := info]) else Promoted(st, r, id, info)
  {
    hide Between; hide MakeTried; hide TriedSlot; hide Home; hide RandomOk;
    IndexedRandom(st);
    var info := st.infos[id].(lastSuccess := time, lastTry := time, attempts := 0);
    GoodStatistics(st, id, time);
    if !info.inTried {
      var w := Put(st, id, info);
      MakeTriedEffect(w, id);
      PromotedPut(st, w, MakeTried(w, id), id, info);
    }
  }

  lemma PromotedPut(st: State, w: State, r: State, id: int, info: Info)
    requires id in st.infos && w == Put(st, id, info) && info.service == st.infos[id].service
    requires !info.inTried && info.source == st.infos[id].source
    requires Promoted(w, r, id, info) && Inv(st)
    ensures Promoted(st, r, id, info)
  {
    hide Between; hide TriedSlot; hide Home;
    var k := TriedSlot(st.h, st.key, info.service);
    if k in st.triedTable {
      EvictTriedKnown(st, k);
    }
  }

  lemma EvictTriedKnown(st: State, k: Slot)
    requires Inv(st) && k in st.triedTable
    ensures st.triedTable[k] in st.infos && st.infos[st.triedTable[k]].inTried
  {
  }

  // ----- Statistics -----

  /** No entry has exactly this address and port. */
  ghost predicate Unknown(st: State, s: Service) {
    forall id :: id in st.infos ==> st.infos[id].service != s
  }

  lemma UnknownIgnored(st: State, s: Service, time: int, services: set<nat>)
    requires Inv(st) && Unknown(st, s)
    ensures Good(st, s, time) == Attempt(st, s, time) == Connected(st, s, time) == SetServices(st, s, services) == st
  {
  }

  /** Each call changes the one entry with this address and port, and there only what it is about. */
  lemma StatisticsEffect(st: State, s: Service, time: int, services: set<nat>, id: int)
    requires Inv(st) && id in st.infos && st.infos[id].service == s
    ensures var info := st.infos[id];
            && Attempt(st, s, time) == st.(infos := st.infos[id := info.(lastTry := time, attempts := info.attempts + 1)])
            && SetServices(st, s, services) == st.(infos := st.infos[id := info.(services := services)])
            && Connected(st, s, time) ==
               if info.time + 20 * 60 < time then st.(infos := st.infos[id := info.(time := time % UINT32_LIMIT)]) else st
  {
    hide Between;
    IndexedRandom(st);
  }

  /** `n` attempts at the same time. */
  function Attempts(st: State, s: Service, time: int, n: nat): State {
    if n == 0 then st else Attempt(Attempts(st, s, time, n - 1), s, time)
  }

  lemma {:induction false} AttemptsCount(st: State, s: Service, time: int, n: nat, id: int)
    requires Inv(st) && id in st.infos && st.infos[id].service == s
    ensures var r := Attempts(st, s, time, n);
            && Inv(r) && id in r.infos
            && r.infos[id] == st.infos[id].(attempts := st.infos[id].attempts + n,
                                            lastTry := if n == 0 then st.infos[id].lastTry else time)
  {
    hide Between; hide Attempt;
    if n > 0 {
      AttemptsCount(st, s, time, n - 1, id);
      var w := Attempts(st, s, time, n - 1);
      StatisticsEffect(w, s, time, {}, id);
      StatisticsKeep(w, s, time, {});
    }
  }

  /** When an entry is terrible, in seconds. */
  lemma TerribleExactly(info: Info, now: int)
    ensures IsTerrible(info, now) <==>
            && (info.lastTry == 0 || info.lastTry < now - 60)
            && (|| info.time == 0 || info.time > now + 600 || info.time < now - 2_592_000
                || (info.attempts >= 3 && info.lastSuccess == 0)
                || (info.attempts >= 10 && info.lastSuccess < now - 604_800))
  {
  }

  /** Three attempts without any success make an entry terrible, but only after a minute. */
  lemma FailuresTurnTerrible(st: State, s: Service, time: int, n: nat, id: int, now: int)
    requires Inv(st) && id in st.infos && st.infos[id].service == s && n > 0 && time > 0
    requires st.infos[id].lastSuccess == 0 && st.infos[id].attempts >= 0
    requires now - 2_592_000 <= st.infos[id].time <= now + 600 && st.infos[id].time != 0
    ensures var r := Attempts(st, s, time, n);
            id in r.infos && (IsTerrible(r.infos[id], now) <==> st.infos[id].attempts + n >= 3 && now > time + 60)
  {
    hide Between; hide Attempts;
    AttemptsCount(st, s, time, n, id);
    if st.infos[id].attempts + n < 3 {
      assert st.infos[id].attempts + n < 10;
    }
  }

  /** A success redeems every entry that is announced with a sensible time. */
  lemma GoodRedeems(st: State, s: Service, time: int, id: int, now: int)
    requires Inv(st) && id in st.infos && st.infos[id].service == s
    requires now - 2_592_000 <= st.infos[id].time <= now + 600 && st.infos[id].time != 0
    ensures var r := Good(st, s, time); id in r.infos && !IsTerrible(r.infos[id], now)
  {
    hide Inv; hide Good;
    GoodEffect(st, s, time, id);
  }

  // ----- GetAddr -----

  lemma {:induction false} GatherExtends(st: State, n: nat, acc: seq<Address>, limit: nat, now: int, draw: nat -> nat)
    requires RandomOk(st.infos, st.random) && n <= |st.random|
    ensures acc <= Gather(st, n, acc, limit, now, draw).1
    decreases |st.random| - n
  {
    hide RandomOk; hide IsTerrible; hide Shuffle;
    if n < |st.random| && |acc| < limit {
      var w := Shuffle(st, n, draw);
      var info := w.infos[w.random[n]];
      GatherExtends(w, n + 1, if IsTerrible(info, now) then acc else acc + [Gossiped(info)], limit, now, draw);
    }
  }

  /** Only the draws from position `n` on matter. */
  lemma {:induction false} GatherDraws(st: State, n: nat, acc: seq<Address>, limit: nat, now: int, f: nat -> nat, g: nat -> nat)
    requires RandomOk(st.infos, st.random) && n <= |st.random|
    requires forall i: nat :: i >= n ==> f(i) == g(i)
    ensures Gather(st, n, acc, limit, now, f) == Gather(st, n, acc, limit, now, g)
    decreases |st.random| - n
  {
    hide RandomOk; hide IsTerrible; hide SwapRandom; hide SameEntries;
    if n < |st.random| && |acc| < limit {
      var w := Shuffle(st, n, f);
      assert w == Shuffle(st, n, g);
      var info := w.infos[w.random[n]];
      GatherDraws(w, n + 1, if IsTerrible(info, now) then acc else acc + [Gossiped(info)], limit, now, f, g);
    }
  }

  /** Distinct entries from position `n` of the random order on, all worth passing on. */
  ghost predicate Selectable(st: State, n: nat, ids: seq<int>, now: int) {
    && (forall i :: 0 <= i < |ids| ==>
          var id := ids[i]; id in st.infos && n <= st.infos[id].randomPos && !IsTerrible(st.infos[id], now))
    && (forall i, j :: 0 <= i < j < |ids| ==> ids[i] != ids[j])
  }

  lemma ShuffleIsSwap(st: State, n: nat, draw: nat -> nat, pos: int)
    requires RandomOk(st.infos, st.random) && n <= pos < |st.random| && draw(n) == pos - n
    ensures Shuffle(st, n, draw) == SwapRandom(st, n, pos)
  {
    hide SwapRandom; hide RandomOk;
    SmallRemainder(pos - n, |st.random| - n);
  }

  lemma SmallRemainder(x: int, m: int)
    requires 0 <= x < m
    ensures x % m == x
  {
  }

  lemma SelectFirst(st: State, n: nat, ids: seq<int>, now: int, draw: nat -> nat)
    requires RandomOk(st.infos, st.random) && Selectable(st, n, ids, now) && ids != [] && n < |st.random|
    requires draw(n) == st.infos[ids[0]].randomPos - n
    ensures var w := Shuffle(st, n, draw);
            && w.random[n] == ids[0] && Selectable(w, n + 1, ids[1..], now)
            && (forall i :: 0 <= i < |ids| ==> var id := ids[i]; id in w.infos && Gossiped(w.infos[id]) == Gossiped(st.infos[id]))
            && !IsTerrible(w.infos[ids[0]], now)
  {
    hide IsTerrible; hide Shuffle; hide Gossiped;
    var w := Shuffle(st, n, draw);
    var id0 := ids[0];
    var pos := st.infos[id0].randomPos;
    assert pos < |st.random| && st.random[pos] == id0;
    ShuffleIsSwap(st, n, draw, pos);
    assert w.random[n] == id0;
    TerribleSame(st.infos, w.infos, now);
    SelectRest(st, w, n, ids, now);
  }

  lemma SelectRest(st: State, w: State, n: nat, ids: seq<int>, now: int)
    requires RandomOk(w.infos, w.random) && Selectable(st, n, ids, now) && ids != [] && n < |st.random|
    requires |w.random| == |st.random| && w.random[..n] == st.random[..n] && RandomOk(st.infos, st.random)
    requires w.random[n] == ids[0] && SameEntries(st.infos, w.infos)
    requires forall id :: id in w.infos ==> IsTerrible(st.infos[id], now) == IsTerrible(w.infos[id], now)
    ensures Selectable(w, n + 1, ids[1..], now)
  {
    hide IsTerrible;
    forall i | 0 <= i < |ids[1..]|
      ensures var id := ids[1..][i]; id in w.infos && n + 1 <= w.infos[id].randomPos && !IsTerrible(w.infos[id], now)
    {
      var id := ids[i + 1];
      assert id != ids[0] && id in st.infos && id in w.infos;
      forall q | 0 <= q < n ensures w.random[q] != id {
        assert w.random[q] == w.random[..n][q] == st.random[..n][q];
        var k := st.random[q];
        assert k in st.infos && st.infos[k].randomPos == q;
      }
      assert w.random[w.infos[id].randomPos] == id;
    }
  }

  /** Whatever distinct worthwhile entries one names, some draws make the answer start with them in that order. */
  lemma {:induction false} AnySelection(st: State, n: nat, ids: seq<int>, acc: seq<Address>, limit: nat, now: int)
    returns (draw: nat -> nat)
    requires RandomOk(st.infos, st.random) && n <= |st.random| && Selectable(st, n, ids, now) && |acc| + |ids| <= limit
    ensures var out := Gather(st, n, acc, limit, now, draw).1;
            && acc <= out && |acc| + |ids| <= |out|
            && forall i :: 0 <= i < |ids| ==> out[|acc| + i] == Gossiped(st.infos[ids[i]])
    decreases |ids|
  {
    hide RandomOk; hide IsTerrible; hide Shuffle; hide Gossiped; hide Gather;
    if ids == [] {
      draw := x => 0;
      GatherExtends(st, n, acc, limit, now, draw);
    } else {
      PositionInside(st, ids[0]);
      var first: nat := st.infos[ids[0]].randomPos - n;
      var start: nat -> nat := x => first;
      SelectFirst(st, n, ids, now, start);
      var w := Shuffle(st, n, start);
      var more := acc + [Gossiped(w.infos[ids[0]])];
      var later := AnySelection(w, n + 1, ids[1..], more, limit, now);
      draw := x => if x == n then first else later(x);
      SelectFirst(st, n, ids, now, draw);
      ShuffleAgrees(st, n, start, draw);
      GatherStep(st, n, acc, limit, now, draw);
      GatherDraws(w, n + 1, more, limit, now, draw, later);
      var out := Gather(st, n, acc, limit, now, draw).1;
      assert more <= out;
      forall i | 0 <= i < |ids| ensures out[|acc| + i] == Gossiped(st.infos[ids[i]]) {
        if i == 0 {
          assert out[|acc|] == more[|acc|];
        } else {
          assert out[|more| + (i - 1)] == Gossiped(w.infos[ids[1..][i - 1]]);
        }
      }
    }
  }

  lemma PositionInside(st: State, id: int)
    requires RandomOk(st.infos, st.random) && id in st.infos
    ensures 0 <= st.infos[id].randomPos < |st.random|
  {
  }

  lemma ShuffleAgrees(st: State, n: nat, f: nat -> nat, g: nat -> nat)
    requires RandomOk(st.infos, st.random) && n < |st.random| && f(n) == g(n)
    ensures Shuffle(st, n, f) == Shuffle(st, n, g)
  {
  }

  lemma LimitReached(st: State, n: nat)
    requires n <= 2500 && 100 * n <= 23 * |st.random|
    ensures n <= GetAddrLimit(st)
  {
  }

  /** Every entry that is not terrible can be passed on, and so can any arrangement of up to 2500 and 23 percent. */
  lemma GetAddrAny(st: State, ids: seq<int>, now: int) returns (draw: nat -> nat)
    requires Inv(st) && |ids| <= 2500 && 100 * |ids| <= 23 * |st.random|
    requires forall i :: 0 <= i < |ids| ==> var id := ids[i]; id in st.infos && !IsTerrible(st.infos[id], now)
    requires forall i, j :: 0 <= i < j < |ids| ==> ids[i] != ids[j]
    ensures var out := GetAddr(st, now, draw).1;
            |ids| <= |out| && forall i :: 0 <= i < |ids| ==> out[i] == Gossiped(st.infos[ids[i]])
  {
    hide Between; hide IsTerrible; hide Gather; hide RandomOk;
    IndexedRandom(st);
    LimitReached(st, |ids|);
    forall i | 0 <= i < |ids| ensures var id := ids[i]; 0 <= st.infos[id].randomPos {
      PositionInside(st, ids[i]);
    }
    draw := AnySelection(st, 0, ids, [], GetAddrLimit(st), now);
  }
}
