/**
 The address manager as the object it is: maps, a vector and two fixed tables that the
 methods update in place. Each method is proved to compute the corresponding function of
 AddrManOps and AddrManRuns on the manager's state.
 */
module AddrMan {
  import opened AddrManModel
  import Model = AddrManModel
  import Ops = AddrManOps
  import Runs = AddrManRuns
  import opened Powers

  /** `cells` maps the occupied cells of table `t` to their occupants; -1 marks a free cell. */
  ghost predicate Holds(t: array2<int>, cells: map<Slot, int>)
    reads t
  {
    && (forall b: nat, p: nat :: b < t.Length0 && p < t.Length1 && t[b, p] != -1 ==>
          Slot(b, p) in cells && cells[Slot(b, p)] == t[b, p])
    && (forall s :: s in cells ==> s.bucket < t.Length0 && s.pos < t.Length1 && t[s.bucket, s.pos] == cells[s] != -1)
  }

  ghost function Updated(cells: map<Slot, int>, s: Slot, x: int): map<Slot, int> {
    if x == -1 then cells - {s} else cells[s := x]
  }

  method SetCell(t: array2<int>, b: nat, p: nat, x: int, ghost cells: map<Slot, int>)
    requires b < t.Length0 && p < t.Length1 && Holds(t, cells)
    modifies t
    ensures Holds(t, Updated(cells, Slot(b, p), x))
    ensures t[b, p] == x
  {
    t[b, p] := x;
  }

  /** The new table once the cells of `id` in the buckets below `bucket` were emptied. */
  ghost function Swept(cells: map<Slot, int>, id: int, bucket: nat): map<Slot, int> {
    cells - (set s | s in Refs(cells, id) && s.bucket < bucket)
  }

  lemma SweptStep(st: State, id: int, bucket: nat)
    requires NewOk(st.h, st.key, st.infos, st.newTable) && id in st.infos
    ensures var u := NewSlot(st.h, st.key, st.infos[id].service, bucket);
            var before, after := Swept(st.newTable, id, bucket), Swept(st.newTable, id, bucket + 1);
            if u in st.newTable && st.newTable[u] == id
            then u in before && before[u] == id && after == before - {u} && |Refs(before, id)| == |Refs(after, id)| + 1
            else after == before && !(u in before && before[u] == id)
  {
    var u := NewSlot(st.h, st.key, st.infos[id].service, bucket);
    var before, after := Swept(st.newTable, id, bucket), Swept(st.newTable, id, bucket + 1);
    if u in st.newTable && st.newTable[u] == id {
      assert after == before - {u};
      assert Refs(after, id) == Refs(before, id) - {u};
      assert u in Refs(before, id);
    } else {
      assert after == before;
    }
  }

  lemma SweptEnd(st: State, id: int)
    requires NewOk(st.h, st.key, st.infos, st.newTable) && id in st.infos
    ensures var left := Swept(st.newTable, id, NEW_BUCKET_COUNT);
            left == st.newTable - Refs(st.newTable, id) && Refs(left, id) == {}
    ensures Swept(st.newTable, id, 0) == st.newTable
  {
    assert (set s | s in Refs(st.newTable, id) && s.bucket < NEW_BUCKET_COUNT) == Refs(st.newTable, id);
    assert (set s | s in Refs(st.newTable, id) && s.bucket < 0) == {};
  }

  function Rotated(n: nat, start: nat): (b: nat)
    ensures b < NEW_BUCKET_COUNT
  {
    (n + start) % NEW_BUCKET_COUNT
  }

  class Manager {
    const h: Hashes
    var nKey: nat
    var nIdCount: int
    var mapInfo: map<int, Info>
    var mapAddr: map<NetAddr, int>
    var vRandom: seq<int>
    var nTried: int
    const vvTried: array2<int>
    var nNew: int
    const vvNew: array2<int>
    ghost var triedCells: map<Slot, int>
    ghost var newCells: map<Slot, int>

    ghost predicate Shaped()
      reads this, vvTried, vvNew
    {
      && vvTried.Length0 == TRIED_BUCKET_COUNT && vvTried.Length1 == BUCKET_SIZE
      && vvNew.Length0 == NEW_BUCKET_COUNT && vvNew.Length1 == BUCKET_SIZE
      && vvTried != vvNew
      && Holds(vvTried, triedCells) && Holds(vvNew, newCells)
    }

    ghost function View(): State
      reads this
    {
      State(h, nKey, nIdCount, mapInfo, mapAddr, vRandom, nTried, triedCells, nNew, newCells)
    }

    ghost predicate Valid()
      reads this, vvTried, vvNew
    {
      Shaped() && Inv(View())
    }

    constructor (h: Hashes, key: nat)
      ensures Valid() && fresh(vvTried) && fresh(vvNew)
      ensures View() == Init(h, key)
    {
      this.h := h;
      nKey, nIdCount, mapInfo, mapAddr, vRandom, nTried, nNew := key, 0, map[], map[], [], 0, 0;
      vvTried := new int[TRIED_BUCKET_COUNT, BUCKET_SIZE]((b, p) => -1);
      vvNew := new int[NEW_BUCKET_COUNT, BUCKET_SIZE]((b, p) => -1);
      triedCells, newCells := map[], map[];
      new;
      Runs.InitConsistent(h, key);
    }

    method SetNew(bucket: nat, pos: nat, x: int)
      requires Shaped() && bucket < NEW_BUCKET_COUNT && pos < BUCKET_SIZE
      modifies this`newCells, vvNew
      ensures Shaped() && vvNew[bucket, pos] == x
      ensures newCells == Updated(old(newCells), Slot(bucket, pos), x)
    {
      SetCell(vvNew, bucket, pos, x, newCells);
      newCells := Updated(newCells, Slot(bucket, pos), x);
    }

    method SetTried(bucket: nat, pos: nat, x: int)
      requires Shaped() && bucket < TRIED_BUCKET_COUNT && pos < BUCKET_SIZE
      modifies this`triedCells, vvTried
      ensures Shaped() && vvTried[bucket, pos] == x
      ensures triedCells == Updated(old(triedCells), Slot(bucket, pos), x)
    {
      SetCell(vvTried, bucket, pos, x, triedCells);
      triedCells := Updated(triedCells, Slot(bucket, pos), x);
    }

    method SwapRandom(p1: nat, p2: nat)
      requires Shaped() && RandomOk(mapInfo, vRandom)
      requires p1 != p2 ==> p1 < |vRandom| && p2 < |vRandom|
      modifies this`mapInfo, this`vRandom
      ensures Shaped() && View() == Model.SwapRandom(old(View()), p1, p2)
    {
      if p1 == p2 {
        return;
      }
      var id1, id2 := vRandom[p1], vRandom[p2];
      mapInfo := mapInfo[id1 := mapInfo[id1].(randomPos := p2)];
      mapInfo := mapInfo[id2 := mapInfo[id2].(randomPos := p1)];
      vRandom := vRandom[p1 := id2];
      vRandom := vRandom[p2 := id1];
    }

    method Delete(nId: int)
      requires Shaped() && RandomOk(mapInfo, vRandom) && nId in mapInfo
      requires !mapInfo[nId].inTried && mapInfo[nId].refCount == 0
      modifies this`mapInfo, this`vRandom, this`mapAddr, this`nNew
      ensures Shaped() && View() == Model.Delete(old(View()), nId)
    {
      hide Holds; hide RandomOk; hide Model.SwapRandom;
      SwapToLast(View(), nId);
      SwapRandom(mapInfo[nId].randomPos, |vRandom| - 1);
      vRandom := vRandom[..|vRandom| - 1];
      mapAddr := mapAddr - {mapInfo[nId].service.addr};
      mapInfo := mapInfo - {nId};
      nNew := nNew - 1;
    }

    method ClearNew(bucket: nat, pos: nat)
      requires Shaped() && RandomOk(mapInfo, vRandom) && bucket < NEW_BUCKET_COUNT && pos < BUCKET_SIZE
      requires vvNew[bucket, pos] != -1 ==>
                 var id := vvNew[bucket, pos];
                 id in mapInfo && mapInfo[id].refCount > 0 && !mapInfo[id].inTried
      modifies this`mapInfo, this`vRandom, this`mapAddr, this`nNew, this`newCells, vvNew
      ensures Shaped() && View() == Ops.ClearNew(old(View()), Slot(bucket, pos))
    {
      hide Holds;
      CellAt(vvNew, newCells, bucket, pos);
      if vvNew[bucket, pos] != -1 {
        var id := vvNew[bucket, pos];
        Ops.UnlinkRandom(View(), Slot(bucket, pos));
        mapInfo := mapInfo[id := mapInfo[id].(refCount := mapInfo[id].refCount - 1)];
        SetNew(bucket, pos, -1);
        if mapInfo[id].refCount == 0 {
          Delete(id);
        }
      }
    }

    /** The first loop of MakeTried: clear the entry's cell in every bucket of the new table. */
    method LeaveNew(nId: int)
      requires Valid() && nId in mapInfo && !mapInfo[nId].inTried
      modifies this`mapInfo, this`nNew, this`newCells, vvNew
      ensures Shaped() && View() == Ops.LeaveNew(old(View()), nId)
      ensures mapInfo[nId].refCount == 0
    {
      hide Between; hide Swept; hide Holds;
      ghost var st := View();
      Tables(st);
      EntryId(st, nId);
      var info := mapInfo[nId];
      SweptEnd(st, nId);
      for bucket := 0 to NEW_BUCKET_COUNT
        invariant Shaped() && nNew == st.nNew && newCells == Swept(st.newTable, nId, bucket)
        invariant nId in mapInfo && mapInfo == st.infos[nId := info.(refCount := mapInfo[nId].refCount)]
        invariant mapInfo[nId].refCount == |Refs(Swept(st.newTable, nId, bucket), nId)|
      {
        SweptStep(st, nId, bucket);
        var pos := BucketPosition(h, nKey, true, bucket, info.service);
        CellAt(vvNew, newCells, bucket, pos);
        if vvNew[bucket, pos] == nId {
          SetNew(bucket, pos, -1);
          mapInfo := mapInfo[nId := mapInfo[nId].(refCount := mapInfo[nId].refCount - 1)];
        }
      }
      nNew := nNew - 1;
    }

    method MakeTried(nId: int)
      requires Valid() && nId in mapInfo && !mapInfo[nId].inTried
      modifies this`mapInfo, this`vRandom, this`mapAddr, this`nNew, this`nTried
      modifies this`newCells, this`triedCells, vvNew, vvTried
      ensures Shaped() && View() == Ops.MakeTried(old(View()), nId)
    {
      hide Between; hide Ops.MoveToNew; hide Ops.LeaveNew; hide Holds;
      Ops.LeaveNewKeeps(View(), nId);
      EntryId(View(), nId);
      LeaveNew(nId);
      assert mapInfo[nId].refCount == 0;
      var info := mapInfo[nId];
      var kBucket := TriedBucket(h, nKey, info.service);
      var kPos := BucketPosition(h, nKey, false, kBucket, info.service);
      CellAt(vvTried, triedCells, kBucket, kPos);
      if vvTried[kBucket, kPos] != -1 {
        Ops.LimboKept(View(), Slot(kBucket, kPos), nId);
        Ops.MoveToNewKeeps(View(), Slot(kBucket, kPos), nId);
        ReturnToNew(kBucket, kPos, nId);
        CellAt(vvTried, triedCells, kBucket, kPos);
      }
      assert vvTried[kBucket, kPos] == -1;
      SetTried(kBucket, kPos, nId);
      nTried := nTried + 1;
      mapInfo := mapInfo[nId := mapInfo[nId].(inTried := true)];
    }

    /** The eviction part of MakeTried: the occupant of a tried cell goes back to the new table. */
    method ReturnToNew(kBucket: nat, kPos: nat, ghost nId: int)
      requires Shaped() && kBucket < TRIED_BUCKET_COUNT && kPos < BUCKET_SIZE
      requires vvTried[kBucket, kPos] != -1 && Between(View(), {nId}, 0)
      modifies this`mapInfo, this`vRandom, this`mapAddr, this`nNew, this`nTried
      modifies this`newCells, this`triedCells, vvNew, vvTried
      ensures Shaped() && Slot(kBucket, kPos) in old(triedCells)
      ensures View() == Ops.MoveToNew(old(View()), Slot(kBucket, kPos), nId)
    {
      hide Between; hide Ops.ClearNew; hide RandomOk; hide Ops.OthersKept; hide Holds;
      CellAt(vvTried, triedCells, kBucket, kPos);
      var victim := vvTried[kBucket, kPos];
      Ops.EvictKeeps(View(), Slot(kBucket, kPos), {nId}, 0);
      assert {nId} + {victim} == {nId, victim};
      mapInfo := mapInfo[victim := mapInfo[victim].(inTried := false)];
      SetTried(kBucket, kPos, -1);
      nTried := nTried - 1;
      ghost var e := View();
      Ops.RehomeStep(e, victim, nId);
      LimboId(e, victim, {nId, victim}, 0);
      var bucket := NewBucket(h, nKey, mapInfo[victim].service, mapInfo[victim].source);
      var pos := BucketPosition(h, nKey, true, bucket, mapInfo[victim].service);
      CellAt(vvNew, newCells, bucket, pos);
      if Slot(bucket, pos) in e.newTable {
        Ops.UnlinkKeeps(e, Slot(bucket, pos), {nId, victim}, 0);
      }
      ClearNew(bucket, pos);
      CellAt(vvNew, newCells, bucket, pos);
      assert vvNew[bucket, pos] == -1;
      mapInfo := mapInfo[victim := mapInfo[victim].(refCount := 1)];
      SetNew(bucket, pos, victim);
      nNew := nNew + 1;
    }

    /** Find, from a random starting bucket on, a bucket of the new table that holds the entry. */
    method FindNewBucket(nId: int, rnd: nat) returns (nUBucket: int)
      requires Shaped() && nId in mapInfo && rnd < NEW_BUCKET_COUNT
      ensures -1 <= nUBucket < NEW_BUCKET_COUNT
      ensures nUBucket != -1 ==>
                vvNew[nUBucket, BucketPosition(h, nKey, true, nUBucket, mapInfo[nId].service)] == nId
      ensures nUBucket == -1 ==> forall b: nat :: b < NEW_BUCKET_COUNT ==>
                vvNew[b, BucketPosition(h, nKey, true, b, mapInfo[nId].service)] != nId
    {
      hide Holds;
      var service := mapInfo[nId].service;
      for n := 0 to NEW_BUCKET_COUNT
        invariant forall m: nat :: m < n ==>
          var b := Rotated(m, rnd); vvNew[b, BucketPosition(h, nKey, true, b, service)] != nId
      {
        var nB := Rotated(n, rnd);
        if vvNew[nB, BucketPosition(h, nKey, true, nB, service)] == nId {
          return nB;
        }
      }
      forall b: nat | b < NEW_BUCKET_COUNT
        ensures vvNew[b, BucketPosition(h, nKey, true, b, service)] != nId
      {
        var m := (b + NEW_BUCKET_COUNT - rnd) % NEW_BUCKET_COUNT;
        assert Rotated(m, rnd) == b;
      }
      return -1;
    }

    method Good(s: Service, time: int, rnd: nat)
      requires Valid() && rnd < NEW_BUCKET_COUNT
      modifies this`mapInfo, this`vRandom, this`mapAddr, this`nNew, this`nTried
      modifies this`newCells, this`triedCells, vvNew, vvTried
      ensures Valid() && View() == Ops.Good(old(View()), s, time)
    {
      hide Between; hide Ops.MakeTried; hide Holds;
      Ops.GoodKeeps(View(), s, time);
      if s.addr !in mapAddr || mapAddr[s.addr] !in mapInfo {
        return;
      }
      var nId := mapAddr[s.addr];
      if mapInfo[nId].service != s {
        return;
      }
      Ops.GoodStatistics(View(), nId, time);
      mapInfo := mapInfo[nId := mapInfo[nId].(lastSuccess := time, lastTry := time, attempts := 0)];
      if mapInfo[nId].inTried {
        return;
      }
      var nUBucket := FindNewBucket(nId, rnd);
      ghost var u := Runs.NewEntryLinked(View(), nId);
      CellAt(vvNew, newCells, u.bucket, u.pos);
      assert nUBucket != -1;
      MakeTried(nId);
    }

    method Attempt(s: Service, time: int)
      requires Valid()
      modifies this`mapInfo
      ensures Valid() && View() == Ops.Attempt(old(View()), s, time)
    {
      hide Between; hide Holds;
      Ops.StatisticsKeep(View(), s, time, {});
      if s.addr in mapAddr && mapAddr[s.addr] in mapInfo {
        var nId := mapAddr[s.addr];
        if mapInfo[nId].service == s {
          mapInfo := mapInfo[nId := mapInfo[nId].(lastTry := time, attempts := mapInfo[nId].attempts + 1)];
        }
      }
    }

    method Connected(s: Service, time: int)
      requires Valid()
      modifies this`mapInfo
      ensures Valid() && View() == Ops.Connected(old(View()), s, time)
    {
      hide Between; hide Holds;
      Ops.StatisticsKeep(View(), s, time, {});
      if s.addr in mapAddr && mapAddr[s.addr] in mapInfo {
        var nId := mapAddr[s.addr];
        if mapInfo[nId].service == s && time - mapInfo[nId].time > 20 * 60 {
          mapInfo := mapInfo[nId := mapInfo[nId].(time := time % UINT32_LIMIT)];
        }
      }
    }

    method SetServices(s: Service, services: set<nat>)
      requires Valid()
      modifies this`mapInfo
      ensures Valid() && View() == Ops.SetServices(old(View()), s, services)
    {
      hide Between; hide Holds;
      Ops.StatisticsKeep(View(), s, 0, services);
      if s.addr in mapAddr && mapAddr[s.addr] in mapInfo {
        var nId := mapAddr[s.addr];
        if mapInfo[nId].service == s {
          mapInfo := mapInfo[nId := mapInfo[nId].(services := services)];
        }
      }
    }

    /** The second half of Add_: give the entry the cell that the announcing source assigns to it. */
    method Place(nId: int, source: NetAddr, now: int)
      requires Shaped() && Ops.Placeable(View(), nId)
      modifies this`mapInfo, this`vRandom, this`mapAddr, this`nNew, this`newCells, vvNew
      ensures Valid() && View() == Ops.Place(old(View()), nId, source, now)
    {
      hide Between; hide Holds; hide Ops.ClearNew; hide RandomOk; hide Model.Delete; hide IsTerrible; hide Ops.OthersKept;
      ghost var st := View();
      Ops.PlaceKeeps(st, nId, source, now);
      Runs.PlaceableRandom(st, nId);
      PlaceableId(st, nId);
      var bucket := NewBucket(h, nKey, mapInfo[nId].service, source);
      var pos := BucketPosition(h, nKey, true, bucket, mapInfo[nId].service);
      ghost var u := Slot(bucket, pos);
      CellAt(vvNew, newCells, bucket, pos);
      if u in newCells {
        Runs.PlaceableOccupant(st, u, nId);
        PlaceableCell(st, u, nId);
      }
      if vvNew[bucket, pos] != nId {
        var fInsert := vvNew[bucket, pos] == -1;
        if !fInsert {
          var existing := mapInfo[vvNew[bucket, pos]];
          if IsTerrible(existing, now) || (existing.refCount > 1 && mapInfo[nId].refCount == 0) {
            fInsert := true;
          }
        }
        if fInsert {
          Ops.PlaceStep(st, u, nId);
          ClearNew(bucket, pos);
          mapInfo := mapInfo[nId := mapInfo[nId].(refCount := mapInfo[nId].refCount + 1)];
          SetNew(bucket, pos, nId);
        } else if mapInfo[nId].refCount == 0 {
          Delete(nId);
        }
      }
    }

    method Add(routable: bool, a: Address, source: NetAddr, penalty: int, now: int, draw: nat) returns (fNew: bool)
      requires Valid()
      modifies this`nIdCount, this`mapInfo, this`vRandom, this`mapAddr, this`nNew, this`newCells, vvNew
      ensures Valid() && (View(), fNew) == Ops.Add(old(View()), routable, a, source, penalty, now, draw)
    {
      hide Between; hide Holds; hide Ops.Place; hide RandomOk;
      ghost var st := View();
      if !routable {
        return false;
      }
      var nId;
      if a.service.addr in mapAddr && mapAddr[a.service.addr] in mapInfo {
        fNew := false;
        nId := mapAddr[a.service.addr];
        Ops.RefreshedKeeps(st, nId, a, penalty, now);
        var grow := Refresh(nId, a, penalty, now, draw);
        if !grow {
          return;
        }
      } else {
        Ops.UnknownAddress(st, a.service.addr);
        Ops.FreshPlaceable(st, a, source, penalty);
        nId := nIdCount;
        nIdCount := nIdCount + 1;
        mapInfo := mapInfo[nId := Info(a.service, a.services, a.time, source, 0, 0, 0, 0, false, |vRandom|)];
        mapAddr := mapAddr[a.service.addr := nId];
        vRandom := vRandom + [nId];
        mapInfo := mapInfo[nId := mapInfo[nId].(time := Ops.Max0(mapInfo[nId].time - penalty) % UINT32_LIMIT)];
        nNew := nNew + 1;
        fNew := true;
      }
      Place(nId, source, now);
    }

    /** The first half of Add_ for a known address: refresh it and decide whether it may get another cell. */
    method Refresh(nId: int, a: Address, penalty: int, now: int, draw: nat) returns (grow: bool)
      requires Shaped() && nId in mapInfo
      modifies this`mapInfo
      ensures Shaped()
      ensures View() == Put(old(View()), nId, Ops.Refreshed(old(mapInfo)[nId], a, penalty, now))
      ensures grow == Ops.MayGrow(mapInfo[nId], a, draw)
    {
      hide Holds;
      var fCurrentlyOnline := now - a.time < 24 * 60 * 60;
      var nUpdateInterval := if fCurrentlyOnline then 60 * 60 else 24 * 60 * 60;
      var info := mapInfo[nId];
      if a.time != 0 && (info.time == 0 || info.time < a.time - nUpdateInterval - penalty) {
        info := info.(time := Ops.Max0(a.time - penalty) % UINT32_LIMIT);
      }
      info := info.(services := info.services + a.services);
      mapInfo := mapInfo[nId := info];
      if a.time == 0 || (info.time != 0 && a.time <= info.time) {
        return false;
      }
      if info.inTried {
        return false;
      }
      if info.refCount == NEW_BUCKETS_PER_ADDRESS {
        return false;
      }
      var nFactor := 1;
      var n := 0;
      while n < info.refCount
        invariant 0 <= n && (n <= info.refCount || n == 0) && nFactor == Pow(2, n)
      {
        nFactor := nFactor * 2;
        n := n + 1;
      }
      PowPositive(2, n);
      if nFactor > 1 && draw % nFactor != 0 {
        return false;
      }
      return true;
    }

    method GetAddr(now: int, draw: nat -> nat) returns (vAddr: seq<Address>)
      requires Valid()
      modifies this`mapInfo, this`vRandom
      ensures Valid() && (View(), vAddr) == Runs.GetAddr(old(View()), now, draw)
    {
      hide Between; hide Holds; hide IsTerrible; hide RandomOk; hide Model.SwapRandom; hide SameEntries; hide Runs.Gather;
      ghost var st := View();
      Runs.GatherKeeps(st, 0, [], Runs.GetAddrLimit(st), now, draw);
      Runs.IndexedRandom(st);
      var nNodes := GETADDR_MAX_PCT * |vRandom| / 100;
      if nNodes > GETADDR_MAX {
        nNodes := GETADDR_MAX;
      }
      vAddr := [];
      var n := 0;
      while n < |vRandom|
        invariant Shaped() && RandomOk(mapInfo, vRandom) && 0 <= n <= |vRandom|
        invariant Runs.Gather(st, 0, [], nNodes, now, draw) == Runs.Gather(View(), n, vAddr, nNodes, now, draw)
        invariant nNodes == Runs.GetAddrLimit(st)
      {
        Runs.GatherStep(View(), n, vAddr, nNodes, now, draw);
        if |vAddr| >= nNodes {
          break;
        }
        var nRndPos := draw(n) % (|vRandom| - n) + n;
        SwapRandomOk(View(), n, nRndPos);
        ghost var w := Runs.Shuffle(View(), n, draw);
        SwapRandom(n, nRndPos);
        assert View() == w;
        var ai := mapInfo[vRandom[n]];
        if !IsTerrible(ai, now) {
          vAddr := vAddr + [Address(ai.service, ai.services, ai.time)];
        }
        n := n + 1;
      }
      Runs.GatherStep(View(), n, vAddr, nNodes, now, draw);
    }
  }

  lemma PlaceableId(st: State, id: int)
    requires Ops.Placeable(st, id)
    ensures id >= 0
  {
  }

  lemma PlaceableCell(st: State, u: Slot, id: int)
    requires Ops.Placeable(st, id) && u in st.newTable
    ensures var k := st.newTable[u]; k in st.infos && st.infos[k].refCount > 0 && !st.infos[k].inTried
  {
    if st.infos[id].refCount == 0 {
      Ops.UnlinkKeeps(st, u, {id}, 1);
    } else {
      Ops.UnlinkKeeps(st, u, {}, 0);
    }
  }

  lemma CellAt(t: array2<int>, cells: map<Slot, int>, b: nat, p: nat)
    requires Holds(t, cells) && b < t.Length0 && p < t.Length1
    ensures Slot(b, p) in cells <==> t[b, p] != -1
    ensures Slot(b, p) in cells ==> cells[Slot(b, p)] == t[b, p]
  {
  }

  lemma LimboId(st: State, id: int, limbo: set<int>, extra: int)
    requires Between(st, limbo, extra) && id in st.infos
    ensures id >= 0
  {
  }

  lemma Tables(st: State)
    requires Inv(st)
    ensures NewOk(st.h, st.key, st.infos, st.newTable) && RefsOk(st.infos, st.newTable)
  {
  }

  lemma EntryId(st: State, id: int)
    requires Inv(st) && id in st.infos
    ensures id >= 0
  {
  }
}
