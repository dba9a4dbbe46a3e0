/** What the address manager's operations do, over every run from an empty manager. */
module AddrManRuns {
  import opened Common
  import opened AddrManModel
  import opened AddrManOps

  // ----- GetAddr -----

  function Gossiped(info: Info): Address {
    Address(info.service, info.services, info.time)
  }

  ghost predicate Known(infos: map<int, Info>, ids: seq<int>) {
    forall i :: 0 <= i < |ids| ==> var id := ids[i]; id in infos
  }

  /** The addresses of the listed entries that are worth passing on. */
  function Listed(infos: map<int, Info>, ids: seq<int>, now: int): seq<Address>
    requires Known(infos, ids)
  {
    if ids == [] then []
    else
      var rest, id := ids[..|ids| - 1], ids[|ids| - 1];
      Listed(infos, rest, now) + (if IsTerrible(infos[id], now) then [] else [Gossiped(infos[id])])
  }

  function GetAddrLimit(st: State): nat {
    var n := GETADDR_MAX_PCT * |st.random| / 100;
    if n > GETADDR_MAX then GETADDR_MAX else n
  }

  /** Bring a random one of the entries from position `n` on to position `n`. */
  function Shuffle(st: State, n: nat, draw: nat -> nat): (w: State)
    requires RandomOk(st.infos, st.random) && n < |st.random|
    ensures RandomOk(w.infos, w.random) && SameEntries(st.infos, w.infos)
    ensures |w.random| == |st.random| && w.random[..n] == st.random[..n] && w.random[n] in w.infos
  {
    var pos := n + draw(n) % (|st.random| - n);
    SwapRandomOk(st, n, pos);
    SwapRandom(st, n, pos)
  }

  /** Shuffle vRandom from position `n` on, collecting the addresses met on the way. */
  function Gather(st: State, n: nat, acc: seq<Address>, limit: nat, now: int, draw: nat -> nat)
    : (r: (State, seq<Address>))
    requires RandomOk(st.infos, st.random) && n <= |st.random|
    decreases |st.random| - n
  {
    if n >= |st.random| || |acc| >= limit then (st, acc)
    else
      var w := Shuffle(st, n, draw);
      var info := w.infos[w.random[n]];
      Gather(w, n + 1, if IsTerrible(info, now) then acc else acc + [Gossiped(info)], limit, now, draw)
  }

  lemma GatherStep(st: State, n: nat, acc: seq<Address>, limit: nat, now: int, draw: nat -> nat)
    requires RandomOk(st.infos, st.random) && n <= |st.random|
    ensures n == |st.random| || |acc| >= limit ==> Gather(st, n, acc, limit, now, draw) == (st, acc)
    ensures n < |st.random| && |acc| < limit ==>
              var w := Shuffle(st, n, draw);
              && RandomOk(w.infos, w.random) && |w.random| == |st.random| && w.random[n] in w.infos
              && var info := w.infos[w.random[n]];
              Gather(st, n, acc, limit, now, draw) ==
              Gather(w, n + 1, if IsTerrible(info, now) then acc else acc + [Gossiped(info)], limit, now, draw)
  {
  }

  function GetAddr(st: State, now: int, draw: nat -> nat): (r: (State, seq<Address>))
    requires Inv(st)
  {
    Gather(st, 0, [], GetAddrLimit(st), now, draw)
  }

  lemma ShuffleKeeps(st: State, n: nat, draw: nat -> nat)
    requires Inv(st) && n < |st.random|
    ensures Inv(Shuffle(st, n, draw))
  {
    hide Between; hide RandomOk; hide SwapRandom; hide SameEntries;
    IndexedRandom(st);
    SwapRandomKeeps(st, n, n + draw(n) % (|st.random| - n), {}, 0);
  }

  lemma {:induction false} GatherKeeps(st: State, n: nat, acc: seq<Address>, limit: nat, now: int, draw: nat -> nat)
    requires Inv(st) && n <= |st.random|
    ensures Inv(Gather(st, n, acc, limit, now, draw).0)
    decreases |st.random| - n
  {
    hide Between; hide RandomOk; hide IsTerrible; hide Shuffle;
    IndexedRandom(st);
    if n < |st.random| && |acc| < limit {
      ShuffleKeeps(st, n, draw);
      var w := Shuffle(st, n, draw);
      var info := w.infos[w.random[n]];
      GatherKeeps(w, n + 1, if IsTerrible(info, now) then acc else acc + [Gossiped(info)], limit, now, draw);
    }
  }

  lemma IndexedRandom(st: State)
    requires Inv(st)
    ensures RandomOk(st.infos, st.random) && AddrOk(st.infos, st.addrs)
  {
  }

  lemma ListedSame(a: map<int, Info>, b: map<int, Info>, ids: seq<int>, now: int)
    requires SameEntries(a, b) && Known(a, ids) && Known(b, ids)
    ensures Listed(a, ids, now) == Listed(b, ids, now)
  {
    if ids != [] {
      var id := ids[|ids| - 1];
      assert a[id] == b[id].(randomPos := a[id].randomPos);
    }
  }

  lemma ListedStep(st: State, w: State, n: nat, now: int)
    requires RandomOk(st.infos, st.random) && RandomOk(w.infos, w.random) && SameEntries(st.infos, w.infos)
    requires n < |st.random| == |w.random| && w.random[..n] == st.random[..n]
    ensures Known(w.infos, w.random[..n + 1]) && Known(st.infos, st.random[..n])
    ensures var info := w.infos[w.random[n]]; var acc := Listed(st.infos, st.random[..n], now);
            Listed(w.infos, w.random[..n + 1], now) == if IsTerrible(info, now) then acc else acc + [Gossiped(info)]
  {
    assert w.random[..n + 1][..n] == st.random[..n];
    ListedSame(st.infos, w.infos, st.random[..n], now);
  }

  lemma PrefixKnown(st: State, n: nat)
    requires RandomOk(st.infos, st.random) && n <= |st.random|
    ensures Known(st.infos, st.random[..n])
  {
  }

  lemma SameEntriesRefl(a: map<int, Info>)
    ensures SameEntries(a, a)
  {
  }

  lemma SameEntriesTrans(a: map<int, Info>, b: map<int, Info>, c: map<int, Info>)
    requires SameEntries(a, b) && SameEntries(b, c)
    ensures SameEntries(a, c)
  {
  }

  /** Gathering lists the worthwhile entries of a prefix of vRandom, up to the limit. */
  lemma {:induction false} GatherLists(st: State, n: nat, limit: nat, now: int, draw: nat -> nat) returns (m: nat)
    requires RandomOk(st.infos, st.random) && n <= |st.random|
    requires |Listed(st.infos, st.random[..n], now)| <= limit
    ensures var acc := Listed(st.infos, st.random[..n], now);
            var (r, out) := Gather(st, n, acc, limit, now, draw);
            && RandomOk(r.infos, r.random) && SameEntries(st.infos, r.infos)
            && m <= |r.random| == |st.random|
            && out == Listed(r.infos, r.random[..m], now)
            && |out| <= limit && (|out| == limit || m == |r.random|)
    decreases |st.random| - n
  {
    hide RandomOk; hide Shuffle; hide IsTerrible; hide Listed; hide SameEntries; hide Gossiped;
    PrefixKnown(st, n);
    var acc := Listed(st.infos, st.random[..n], now);
    if n >= |st.random| || |acc| >= limit {
      m := n;
      SameEntriesRefl(st.infos);
    } else {
      var w := Shuffle(st, n, draw);
      PrefixKnown(w, n + 1);
      ListedStep(st, w, n, now);
      m := GatherLists(w, n + 1, limit, now, draw);
      SameEntriesTrans(st.infos, w.infos, Gather(st, n, acc, limit, now, draw).0.infos);
    }
  }

  /** The worthwhile entries of `ids`, each listed once, in the order of `ids`. */
  lemma {:induction false} ListedMeaning(infos: map<int, Info>, addrs: map<NetAddr, int>, ids: seq<int>, now: int)
    requires Known(infos, ids) && AddrOk(infos, addrs)
    requires forall i, j :: 0 <= i < j < |ids| ==> ids[i] != ids[j]
    ensures forall a :: a in Listed(infos, ids, now) ==>
              a.service.addr in addrs && var id := addrs[a.service.addr];
              id in ids && id in infos && !IsTerrible(infos[id], now) && a == Gossiped(infos[id])
    ensures forall id :: id in ids && id in infos && !IsTerrible(infos[id], now) ==>
              Gossiped(infos[id]) in Listed(infos, ids, now)
    ensures forall i, j :: 0 <= i < j < |Listed(infos, ids, now)| ==>
              Listed(infos, ids, now)[i].service.addr != Listed(infos, ids, now)[j].service.addr
  {
    hide IsTerrible;
    if ids != [] {
      var rest, id := ids[..|ids| - 1], ids[|ids| - 1];
      ListedMeaning(infos, addrs, rest, now);
      assert id !in rest;
      assert forall k :: k in ids <==> k in rest || k == id;
    }
  }

  /**
   GetAddr answers with at most 23 percent and at most 2500 of the entries, none of them terrible
   and none twice, and falls short of that number only when it names every entry that is not terrible.
   */
  lemma GetAddrMeaning(st: State, now: int, draw: nat -> nat)
    requires Inv(st)
    ensures var out := GetAddr(st, now, draw).1; var limit := GetAddrLimit(st);
            && 100 * |out| <= GETADDR_MAX_PCT * |st.random| && |out| <= limit <= GETADDR_MAX
            && (forall a :: a in out ==>
                  a.service.addr in st.addrs && var id := st.addrs[a.service.addr];
                  id in st.infos && !IsTerrible(st.infos[id], now) && a == Gossiped(st.infos[id]))
            && (forall i, j :: 0 <= i < j < |out| ==> out[i].service.addr != out[j].service.addr)
            && (|out| < limit ==> forall id :: id in st.infos && !IsTerrible(st.infos[id], now) ==>
                  Gossiped(st.infos[id]) in out)
  {
    hide IsTerrible; hide Gather; hide Between;
    IndexedRandom(st);
    var limit := GetAddrLimit(st);
    assert st.random[..0] == [];
    var m := GatherLists(st, 0, limit, now, draw);
    var (r, out) := Gather(st, 0, [], limit, now, draw);
    GetAddrListed(st, r, m, out, now);
  }

  lemma GetAddrListed(st: State, r: State, m: nat, out: seq<Address>, now: int)
    requires RandomOk(st.infos, st.random) && AddrOk(st.infos, st.addrs)
    requires RandomOk(r.infos, r.random) && SameEntries(st.infos, r.infos)
    requires m <= |r.random| && Known(r.infos, r.random[..m]) && out == Listed(r.infos, r.random[..m], now)
    ensures forall a :: a in out ==>
              a.service.addr in st.addrs && var id := st.addrs[a.service.addr];
              id in st.infos && !IsTerrible(st.infos[id], now) && a == Gossiped(st.infos[id])
    ensures forall i, j :: 0 <= i < j < |out| ==> out[i].service.addr != out[j].service.addr
    ensures m == |r.random| ==> forall id :: id in st.infos && !IsTerrible(st.infos[id], now) ==>
              Gossiped(st.infos[id]) in out
  {
    hide IsTerrible; hide Listed;
    assert AddrOk(r.infos, st.addrs);
    var ids := r.random[..m];
    forall i, j | 0 <= i < j < |ids| ensures ids[i] != ids[j] {
      var a, b := r.random[i], r.random[j];
      assert r.infos[a].randomPos == i && r.infos[b].randomPos == j;
    }
    ListedMeaning(r.infos, st.addrs, ids, now);
    TerribleSame(st.infos, r.infos, now);
    if m == |r.random| {
      assert ids == r.random;
      forall id | id in st.infos && !IsTerrible(st.infos[id], now) ensures Gossiped(st.infos[id]) in out {
        assert r.random[r.infos[id].randomPos] == id;
        assert id in ids;
      }
    }
  }

  lemma TerribleSame(a: map<int, Info>, b: map<int, Info>, now: int)
    requires SameEntries(a, b)
    ensures forall id :: id in b ==> IsTerrible(a[id], now) == IsTerrible(b[id], now)
    ensures forall id :: id in b ==> Gossiped(a[id]) == Gossiped(b[id])
  {
  }

  // ----- What Good moves and what it can cost -----

  lemma ClearNewOccupant(st: State, u: Slot)
    requires RandomOk(st.infos, st.random) && u in st.newTable && st.newTable[u] in st.infos
    ensures var id := st.newTable[u]; var r := ClearNew(st, u);
            id in r.infos <==> st.infos[id].refCount != 1
  {
    UnlinkRandom(st, u);
    DeleteFrame(Unlink(st, u), st.newTable[u]);
  }

  /** Sending a tried entry back keeps it known; only the last reference of its cell's occupant can get lost. */
  lemma MoveToNewMeaning(v: State, k: Slot, id: int)
    requires Between(v, {id}, 0) && k in v.triedTable
    ensures v.triedTable[k] in v.infos
    ensures var victim := v.triedTable[k]; var u := HomeSlot(v, v.infos[victim]); var m := MoveToNew(v, k, id);
            && OthersKept(v, m, {victim} + Occupant(v.newTable, u))
            && victim in m.infos && !m.infos[victim].inTried && m.infos[victim].refCount == 1
            && u in m.newTable && m.newTable[u] == victim
            && (u in v.newTable ==> v.newTable[u] in v.infos)
            && (u in v.newTable ==> !v.infos[v.newTable[u]].inTried)
            && (u in v.newTable && v.infos[v.newTable[u]].refCount != 1 ==> v.newTable[u] in m.infos)
  {
    hide Between; hide RandomOk; hide ClearNew; hide OthersKept;
    EvictKeeps(v, k, {id}, 0);
    var victim := v.triedTable[k];
    var e := Evict(v, k);
    assert {id} + {victim} == {id, victim};
    RehomeStep(e, victim, id);
    var u := HomeSlot(e, e.infos[victim]);
    var c := ClearNew(e, u);
    MoveToNewFrame(v, e, c, Link(c.(nNew := c.nNew + 1), u, victim), victim, Occupant(v.newTable, u));
    if u in v.newTable {
      UnlinkKeeps(v, u, {id}, 0);
      UnlinkKeeps(e, u, {id, victim}, 0);
      ClearNewOccupant(e, u);
    }
  }

  lemma MoveToNewFrame(v: State, e: State, c: State, m: State, victim: int, out: set<int>)
    requires OthersKept(e, c, out)
    requires victim in v.infos && e.infos == v.infos[victim := v.infos[victim].(inTried := false)]
    requires victim in c.infos && victim in m.infos && m.infos == c.infos[victim := m.infos[victim]]
    ensures OthersKept(v, m, {victim} + out)
  {
  }

  lemma LeaveNewFrame(st: State, id: int)
    requires id in st.infos
    ensures OthersKept(st, LeaveNew(st, id), {id})
    ensures LeaveNew(st, id).triedTable == st.triedTable
    ensures LeaveNew(st, id).h == st.h && LeaveNew(st, id).key == st.key
  {
  }

  /** An entry that `r` forgot: it was in the new table with a single reference. */
  ghost predicate ForgetsOnlyLoose(st: State, r: State) {
    forall id :: id in st.infos && id !in r.infos ==> !st.infos[id].inTried && st.infos[id].refCount == 1
  }

  lemma MakeTriedMeaning(st: State, id: int)
    requires Inv(st) && id in st.infos && !st.infos[id].inTried
    ensures var r := MakeTried(st, id);
            && id in r.infos && r.infos[id].inTried
            && r.infos[id].lastSuccess == st.infos[id].lastSuccess && r.infos[id].lastTry == st.infos[id].lastTry
            && r.infos[id].attempts == st.infos[id].attempts && r.infos[id].service == st.infos[id].service
            && (forall j :: j in r.infos ==> j in st.infos)
            && ForgetsOnlyLoose(st, r)
    ensures var r := MakeTried(st, id); var k := TriedSlot(st.h, st.key, st.infos[id].service);
            k in r.triedTable && r.triedTable[k] == id
    ensures TriedSlot(st.h, st.key, st.infos[id].service) !in st.triedTable ==>
              forall j :: j in st.infos ==> j in MakeTried(st, id).infos
    ensures var r := MakeTried(st, id); var k := TriedSlot(st.h, st.key, st.infos[id].service);
            k in st.triedTable ==>
              var victim := st.triedTable[k];
              victim in r.infos && !r.infos[victim].inTried && r.infos[victim].refCount == 1
  {
    hide Between; hide MoveToNew; hide LeaveNew;
    LeaveNewKeeps(st, id);
    LeaveNewFrame(st, id);
    LeaveNewEntry(st, id);
    var v := LeaveNew(st, id);
    var k := TriedSlot(v.h, v.key, v.infos[id].service);
    if k in v.triedTable {
      MoveToNewKeeps(v, k, id);
      MoveToNewMeaning(v, k, id);
      LimboEntry(v, k, id);
      EvictKeeps(v, k, {id}, 0);
      var m := MoveToNew(v, k, id);
      forall j | j in st.infos && j !in m.infos
        ensures !st.infos[j].inTried && st.infos[j].refCount == 1
      {
        assert j in v.infos && j != id;
      }
    }
  }

  lemma LeaveNewEntry(st: State, id: int)
    requires id in st.infos
    ensures id in LeaveNew(st, id).infos && LeaveNew(st, id).infos[id] == st.infos[id].(refCount := 0)
  {
  }

  lemma LimboEntry(v: State, k: Slot, id: int)
    requires Between(v, {id}, 0) && k in v.triedTable
    ensures id in v.infos
    ensures var m := MoveToNew(v, k, id);
            && id in m.infos && m.infos[id] == v.infos[id].(randomPos := m.infos[id].randomPos)
  {
    hide Between; hide MoveToNew;
    LimboKept(v, k, id);
    MoveToNewMeaning(v, k, id);
    EvictKeeps(v, k, {id}, 0);
    LimboUnlinked(v, HomeSlot(v, v.infos[v.triedTable[k]]), {id}, 0, id);
  }

  /**
   Good puts a known service into its tried cell with fresh statistics. No tried address is ever
   forgotten by it: the cell's former occupant returns to the new table, and if that costs an address,
   it is one with a single remaining reference in the new table.
   */
  lemma GoodMeaning(st: State, s: Service, time: int)
    requires Inv(st)
    ensures var f := FindExact(st, s); var r := Good(st, s, time); var k := TriedSlot(st.h, st.key, s);
            && (f.None? ==> r == st)
            && (f.Some? ==>
                  && f.value in r.infos && r.infos[f.value].inTried
                  && k in r.triedTable && r.triedTable[k] == f.value
                  && r.infos[f.value].lastSuccess == time && r.infos[f.value].lastTry == time
                  && r.infos[f.value].attempts == 0)
            && (forall j :: j in r.infos ==> j in st.infos)
            && ForgetsOnlyLoose(st, r)
            && (k !in st.triedTable ==> forall j :: j in st.infos ==> j in r.infos)
  {
    hide Between; hide MakeTried; hide TriedSlot;
    var f := FindExact(st, s);
    if f.Some? {
      var id := f.value;
      GoodStatistics(st, id, time);
      var info := st.infos[id].(lastSuccess := time, lastTry := time, attempts := 0);
      var w := Put(st, id, info);
      if info.inTried {
        TriedEntryPlaced(st, id);
      } else {
        MakeTriedMeaning(w, id);
      }
    }
  }

  lemma TriedEntryPlaced(st: State, id: int)
    requires Inv(st) && id in st.infos && st.infos[id].inTried
    ensures var k := TriedSlot(st.h, st.key, st.infos[id].service);
            k in st.triedTable && st.triedTable[k] == id
  {
  }

  /** The "something bad happened" bail-out of Good_: an entry outside the tried table is in some new cell. */
  lemma NewEntryLinked(st: State, id: int) returns (u: Slot)
    requires Inv(st) && id in st.infos && !st.infos[id].inTried
    ensures u in st.newTable && st.newTable[u] == id && u.bucket < NEW_BUCKET_COUNT
    ensures u == NewSlot(st.h, st.key, st.infos[id].service, u.bucket)
  {
    assert |Refs(st.newTable, id)| >= 1;
    u :| u in Refs(st.newTable, id);
  }

  // ----- What Add stores and what it can cost -----

  lemma PlaceMeaning(st: State, id: int, source: NetAddr, now: int)
    requires Placeable(st, id)
    ensures var info := st.infos[id]; var r := Place(st, id, source, now);
            var u := NewSlot(st.h, st.key, info.service, NewBucket(st.h, st.key, info.service, source));
            && (u in st.newTable ==> st.newTable[u] in st.infos)
            && (forall j :: j in r.infos ==> j in st.infos && r.infos[j].service == st.infos[j].service)
            && (forall j :: j in st.infos && j != id && j !in r.infos ==> IsTerrible(st.infos[j], now))
            && (info.refCount > 0 ==> id in r.infos)
            && (info.refCount == 0 ==>
                  (id in r.infos <==> u !in st.newTable || Overwritable(st.infos[st.newTable[u]], 0, now)))
  {
    hide Between; hide RandomOk; hide IsTerrible; hide ClearNew; hide Delete;
    var info := st.infos[id];
    var u := NewSlot(st.h, st.key, info.service, NewBucket(st.h, st.key, info.service, source));
    PlaceableRandom(st, id);
    if u in st.newTable {
      PlaceableOccupant(st, u, id);
    }
    if u in st.newTable && st.newTable[u] == id {
    } else if u !in st.newTable || Overwritable(st.infos[st.newTable[u]], info.refCount, now) {
      PlaceStep(st, u, id);
      if u in st.newTable {
        ClearNewOccupant(st, u);
      }
      OthersKeptServices(st, u);
    } else if info.refCount == 0 {
      DeleteFrame(st, id);
    }
  }

  lemma OthersKeptServices(st: State, u: Slot)
    requires RandomOk(st.infos, st.random) && (u in st.newTable ==> st.newTable[u] in st.infos)
    ensures var c := ClearNew(st, u);
            forall j :: j in c.infos ==> j in st.infos && c.infos[j].service == st.infos[j].service
  {
    if u in st.newTable {
      UnlinkRandom(st, u);
      DeleteFrame(Unlink(st, u), st.newTable[u]);
    }
  }

  lemma PlaceableRandom(st: State, id: int)
    requires Placeable(st, id)
    ensures RandomOk(st.infos, st.random)
  {
  }

  lemma PlaceableOccupant(st: State, u: Slot, id: int)
    requires Placeable(st, id) && u in st.newTable
    ensures st.newTable[u] in st.infos
    ensures st.infos[id].refCount == 0 ==> st.newTable[u] != id
  {
    if st.infos[id].refCount == 0 {
      UnlinkKeeps(st, u, {id}, 1);
    } else {
      UnlinkKeeps(st, u, {}, 0);
    }
  }

  /**
   Add forgets no address that is not terrible, adds at most the announced one, and stores an unknown
   routable address exactly when its cell is free or may be overwritten by a newcomer.
   */
  lemma AddMeaning(st: State, routable: bool, a: Address, source: NetAddr, penalty: int, now: int, draw: nat)
    requires Inv(st)
    ensures var (r, isNew) := Add(st, routable, a, source, penalty, now, draw);
            && (isNew <==> routable && a.service.addr !in st.addrs)
            && (forall x :: x in r.addrs ==> x in st.addrs || (routable && x == a.service.addr))
            && (forall x :: x in st.addrs && x !in r.addrs ==>
                  var id := st.addrs[x]; id in st.infos && IsTerrible(st.infos[id], now))
            && (a.service.addr in st.addrs ==> a.service.addr in r.addrs)
            && (isNew ==>
                  var u := NewSlot(st.h, st.key, a.service, NewBucket(st.h, st.key, a.service, source));
                  && (u in st.newTable ==> st.newTable[u] in st.infos)
                  && (a.service.addr in r.addrs <==>
                        u !in st.newTable || Overwritable(st.infos[st.newTable[u]], 0, now)))
  {
    hide Between; hide Place; hide IsTerrible; hide Overwritable; hide MayGrow; hide RandomOk;
    IndexedRandom(st);
    if routable {
      AddKeeps(st, routable, a, source, penalty, now, draw);
      IndexedRandom(Add(st, routable, a, source, penalty, now, draw).0);
      var f := Find(st, a.service.addr);
      if f.None? {
        FreshMeaning(st, a, source, penalty, now);
      } else {
        RefreshMeaning(st, f.value, a, source, penalty, now, draw);
      }
    }
  }

  /** The addresses of `r` are those of `st`, perhaps with the newcomer, without some terrible ones. */
  ghost predicate AddrsFollow(st: State, r: State, newcomer: NetAddr, now: int) {
    && (forall x :: x in r.addrs ==> x in st.addrs || x == newcomer)
    && (forall x :: x in st.addrs && x !in r.addrs ==>
          var id := st.addrs[x]; id in st.infos && IsTerrible(st.infos[id], now))
  }

  lemma AddrsFollowEntries(st: State, r: State, newcomer: NetAddr, now: int)
    requires AddrOk(st.infos, st.addrs) && AddrOk(r.infos, r.addrs)
    requires forall j :: j in r.infos ==>
               (j in st.infos && r.infos[j].service == st.infos[j].service) || r.infos[j].service.addr == newcomer
    requires forall j :: j in st.infos && j !in r.infos ==> IsTerrible(st.infos[j], now)
    requires forall j :: j in st.infos && j in r.infos ==> r.infos[j].service == st.infos[j].service
    ensures AddrsFollow(st, r, newcomer, now)
  {
    hide IsTerrible;
    forall x | x in r.addrs ensures x in st.addrs || x == newcomer {
      var id := r.addrs[x];
      assert id in r.infos && r.infos[id].service.addr == x;
    }
    forall x | x in st.addrs && x !in r.addrs
      ensures st.addrs[x] in st.infos && IsTerrible(st.infos[st.addrs[x]], now)
    {
      var id := st.addrs[x];
      assert id in st.infos && st.infos[id].service.addr == x;
    }
  }

  lemma FreshMeaning(st: State, a: Address, source: NetAddr, penalty: int, now: int)
    requires Inv(st) && a.service.addr !in st.addrs
    ensures Placeable(Fresh(st, a, source, penalty), st.idCount)
    ensures var r := Place(Fresh(st, a, source, penalty), st.idCount, source, now);
            var u := NewSlot(st.h, st.key, a.service, NewBucket(st.h, st.key, a.service, source));
            && (u in st.newTable ==> st.newTable[u] in st.infos)
            && AddrsFollow(st, r, a.service.addr, now)
            && (a.service.addr in r.addrs <==>
                  u !in st.newTable || Overwritable(st.infos[st.newTable[u]], 0, now))
  {
    hide Between; hide Place; hide IsTerrible; hide RandomOk; hide NewSlot; hide NewBucket; hide AddrOk;
    hide Overwritable; hide AddrsFollow;
    FreshPlaceable(st, a, source, penalty);
    var w := Fresh(st, a, source, penalty);
    var id := st.idCount;
    NoSuchId(st);
    PlaceMeaning(w, id, source, now);
    PlaceKeeps(w, id, source, now);
    var r := Place(w, id, source, now);
    IndexedRandom(st);
    IndexedRandom(r);
    var u := NewSlot(st.h, st.key, a.service, NewBucket(st.h, st.key, a.service, source));
    if u in st.newTable {
      UnlinkKeeps(st, u, {}, 0);
    }
    FreshEntries(st, w, r, a.service.addr, now);
  }

  /** The entries of `w` are those of `st` and the newcomer's; `r` lost only terrible ones and perhaps the newcomer. */
  lemma FreshEntries(st: State, w: State, r: State, newcomer: NetAddr, now: int)
    requires AddrOk(st.infos, st.addrs) && AddrOk(r.infos, r.addrs) && newcomer !in st.addrs
    requires st.idCount !in st.infos && st.idCount in w.infos && w.infos == st.infos[st.idCount := w.infos[st.idCount]]
    requires w.infos[st.idCount].service.addr == newcomer
    requires forall j :: j in r.infos ==> j in w.infos && r.infos[j].service == w.infos[j].service
    requires forall j :: j in w.infos && j != st.idCount && j !in r.infos ==> IsTerrible(w.infos[j], now)
    ensures AddrsFollow(st, r, newcomer, now)
    ensures newcomer in r.addrs <==> st.idCount in r.infos
  {
    hide IsTerrible;
    AddrsFollowEntries(st, r, newcomer, now);
    if newcomer in r.addrs {
      var j := r.addrs[newcomer];
      assert j in r.infos;
    }
  }

  lemma NoSuchId(st: State)
    requires Inv(st)
    ensures st.idCount !in st.infos
  {
  }

  lemma RefreshMeaning(st: State, id: int, a: Address, source: NetAddr, penalty: int, now: int, draw: nat)
    requires Inv(st) && a.service.addr in st.addrs && st.addrs[a.service.addr] == id && id in st.infos
    ensures var info := Refreshed(st.infos[id], a, penalty, now); var w := Put(st, id, info);
            && (MayGrow(info, a, draw) ==> Placeable(w, id))
            && var r := (if MayGrow(info, a, draw) then Place(w, id, source, now) else w);
            AddrsFollow(st, r, a.service.addr, now) && a.service.addr in r.addrs
  {
    hide Between; hide Place; hide IsTerrible; hide RandomOk; hide Refreshed; hide AddrsFollow;
    RefreshedKeeps(st, id, a, penalty, now);
    RefreshedPlace(st.infos[id], a, penalty, now);
    var info := Refreshed(st.infos[id], a, penalty, now);
    var w := Put(st, id, info);
    IndexedRandom(st);
    if MayGrow(info, a, draw) {
      PlaceMeaning(w, id, source, now);
      PlaceKeeps(w, id, source, now);
      var r := Place(w, id, source, now);
      IndexedRandom(r);
      AddrsFollowEntries(st, r, a.service.addr, now);
      assert r.infos[id].service == w.infos[id].service;
    } else {
      AddrsFollowEntries(st, w, a.service.addr, now);
    }
  }

  lemma RefreshedPlace(info: Info, a: Address, penalty: int, now: int)
    ensures SamePlace(Refreshed(info, a, penalty, now), info)
  {
  }

  // ----- Runs -----

  datatype Op =
    | AddOp(routable: bool, a: Address, source: NetAddr, penalty: int, now: int, draw: nat)
    | GoodOp(s: Service, time: int)
    | AttemptOp(s: Service, time: int)
    | ConnectedOp(s: Service, time: int)
    | SetServicesOp(s: Service, services: set<nat>)
    | GetAddrOp(now: int, draws: nat -> nat)

  function Step(st: State, op: Op): (r: State)
    requires Inv(st)
  {
    match op
    case AddOp(routable, a, source, penalty, now, draw) => Add(st, routable, a, source, penalty, now, draw).0
    case GoodOp(s, time) => Good(st, s, time)
    case AttemptOp(s, time) => Attempt(st, s, time)
    case ConnectedOp(s, time) => Connected(st, s, time)
    case SetServicesOp(s, services) => SetServices(st, s, services)
    case GetAddrOp(now, draws) => GetAddr(st, now, draws).0
  }

  lemma StepKeeps(st: State, op: Op)
    requires Inv(st)
    ensures Inv(Step(st, op))
  {
    hide Inv; hide Add; hide Good; hide Attempt; hide Connected; hide SetServices;
    match op
    case AddOp(routable, a, source, penalty, now, draw) => AddKeeps(st, routable, a, source, penalty, now, draw);
    case GoodOp(s, time) => GoodKeeps(st, s, time);
    case AttemptOp(s, time) => StatisticsKeep(st, s, time, {});
    case ConnectedOp(s, time) => StatisticsKeep(st, s, time, {});
    case SetServicesOp(s, services) => StatisticsKeep(st, s, 0, services);
    case GetAddrOp(now, draws) => GatherKeeps(st, 0, [], GetAddrLimit(st), now, draws);
  }

  /**
   The state that a run of operations reaches from an empty manager. In it everything holds that
   Check_ says about the structures; so it does in every state on the way, which the prefixes reach.
   */
  function Run(h: Hashes, key: nat, ops: seq<Op>): (st: State)
    ensures Inv(st)
    ensures |st.random| == |st.infos| == st.nNew + st.nTried
  {
    hide Inv; hide Step; hide Init;
    if ops == [] then
      InitConsistent(h, key);
      SizesAgree(Init(h, key));
      Init(h, key)
    else
      var before, op := Run(h, key, ops[..|ops| - 1]), ops[|ops| - 1];
      StepKeeps(before, op);
      SizesAgree(Step(before, op));
      Step(before, op)
  }

  lemma InitConsistent(h: Hashes, key: nat)
    ensures Inv(Init(h, key))
  {
    assert TriedIds(map[]) == {} && NewIds(map[]) == {};
  }

  /** vRandom has one place per entry, and the two counters add up to it. */
  lemma SizesAgree(st: State)
    requires Inv(st)
    ensures |st.random| == |st.infos| == st.nNew + st.nTried
  {
    assert TriedIds(st.infos) + NewIds(st.infos) == st.infos.Keys;
    assert NewIds(st.infos) - {} == NewIds(st.infos);
    assert TriedIds(st.infos) !! NewIds(st.infos);
    assert |TriedIds(st.infos) + NewIds(st.infos)| == |TriedIds(st.infos)| + |NewIds(st.infos)|;
    RandomSize(st.infos, st.random);
  }

  lemma RandomSize(infos: map<int, Info>, random: seq<int>)
    requires RandomOk(infos, random)
    ensures |random| == |infos|
  {
    var ids := set i | 0 <= i < |random| :: random[i];
    assert ids == infos.Keys by {
      forall id | id in infos ensures id in ids {
        assert random[infos[id].randomPos] == id;
      }
    }
    forall i, j | 0 <= i < j < |random| ensures random[i] != random[j] {
      var a, b := random[i], random[j];
      assert infos[a].randomPos == i && infos[b].randomPos == j;
    }
    DistinctSize(random);
  }

  lemma {:induction false} DistinctSize(s: seq<int>)
    requires forall i, j :: 0 <= i < j < |s| ==> s[i] != s[j]
    ensures |set i | 0 <= i < |s| :: s[i]| == |s|
  {
    var ids := set i | 0 <= i < |s| :: s[i];
    if |s| > 0 {
      var last := |s| - 1;
      var rest := s[..last];
      DistinctSize(rest);
      var restIds := set i | 0 <= i < |rest| :: rest[i];
      assert ids == restIds + {s[last]} by {
        forall x | x in ids ensures x in restIds + {s[last]} {
          var i :| 0 <= i < |s| && s[i] == x;
          if i < last { assert rest[i] == x; }
        }
        forall x | x in restIds ensures x in ids {
          var i :| 0 <= i < |rest| && rest[i] == x;
          assert s[i] == x;
        }
      }
    }
  }
}
