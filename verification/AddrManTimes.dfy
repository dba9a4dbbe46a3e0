/** The remaining tests of CAddrMan::Check_: the times of the entries and the key. */
module AddrManTimes {
  import opened Common
  import opened AddrManModel
  import opened AddrManOps
  import opened AddrManRuns

  /** No time is negative, and a tried entry was reached once. */
  ghost predicate Timed(infos: map<int, Info>) {
    forall id :: id in infos ==>
      infos[id].lastTry >= 0 && infos[id].lastSuccess >= 0 && (infos[id].inTried ==> infos[id].lastSuccess != 0)
  }

  /** The whole of Check_. */
  ghost predicate Checked(st: State) {
    Inv(st) && Timed(st.infos) && st.key != 0
  }

  /** `r` has only entries of `st`, with their times, and none but those of `more` became tried; same key. */
  ghost predicate TimesFrom(st: State, r: State, more: set<int>) {
    && r.key == st.key
    && forall id :: id in r.infos ==>
         && id in st.infos && r.infos[id].lastTry == st.infos[id].lastTry
         && r.infos[id].lastSuccess == st.infos[id].lastSuccess
         && (r.infos[id].inTried ==> st.infos[id].inTried || id in more)
  }

  lemma ClearNewTimes(st: State, s: Slot)
    requires RandomOk(st.infos, st.random) && (s in st.newTable ==> st.newTable[s] in st.infos)
    ensures TimesFrom(st, ClearNew(st, s), {})
  {
    hide RandomOk; hide Delete;
    ClearNewFrame(st, s);
    if s in st.newTable {
      UnlinkRandom(st, s);
      DeleteFrame(Unlink(st, s), st.newTable[s]);
    }
  }

  lemma MoveToNewTimes(v: State, k: Slot, id: int)
    requires Between(v, {id}, 0) && k in v.triedTable
    ensures TimesFrom(v, MoveToNew(v, k, id), {})
  {
    hide Between; hide RandomOk; hide ClearNew; hide OthersKept;
    EvictKeeps(v, k, {id}, 0);
    var victim := v.triedTable[k];
    var e := Evict(v, k);
    assert {id} + {victim} == {id, victim};
    RehomeStep(e, victim, id);
    ClearNewTimes(e, HomeSlot(e, e.infos[victim]));
  }

  lemma MakeTriedTimes(st: State, id: int)
    requires Inv(st) && id in st.infos && !st.infos[id].inTried
    ensures TimesFrom(st, MakeTried(st, id), {id})
  {
    hide Between; hide MoveToNew; hide LeaveNew;
    LeaveNewKeeps(st, id);
    LeaveNewFrame(st, id);
    LeaveNewEntry(st, id);
    var v := LeaveNew(st, id);
    var k := TriedSlot(v.h, v.key, v.infos[id].service);
    assert TimesFrom(st, v, {});
    if k in v.triedTable {
      LimboKept(v, k, id);
      MoveToNewTimes(v, k, id);
    }
  }

  /** Good leaves the times in order exactly when it is given a positive time or finds nothing to update. */
  lemma GoodTimed(st: State, s: Service, time: int)
    requires Inv(st) && Timed(st.infos)
    ensures Timed(Good(st, s, time).infos) <==> time > 0 || FindExact(st, s).None?
    ensures Good(st, s, time).key == st.key
  {
    hide Between; hide MakeTried; hide TriedSlot;
    var f := FindExact(st, s);
    if f.Some? {
      var id := f.value;
      GoodMeaning(st, s, time);
      GoodStatistics(st, id, time);
      var w := Put(st, id, st.infos[id].(lastSuccess := time, lastTry := time, attempts := 0));
      if !w.infos[id].inTried {
        MakeTriedTimes(w, id);
      }
    }
  }

  /** A clock reading of zero leaves a tried entry that Check_ refuses, with all structures intact. */
  lemma GoodAtZero(st: State, s: Service)
    requires Inv(st) && Timed(st.infos) && FindExact(st, s).Some?
    ensures Inv(Good(st, s, 0)) && !Timed(Good(st, s, 0).infos)
  {
    GoodKeeps(st, s, 0);
    GoodTimed(st, s, 0);
  }

  /** Attempt does so exactly unless the time is negative. */
  lemma AttemptTimed(st: State, s: Service, time: int)
    requires Inv(st) && Timed(st.infos)
    ensures Timed(Attempt(st, s, time).infos) <==> time >= 0 || FindExact(st, s).None?
  {
    hide Between;
    var f := FindExact(st, s);
    if f.Some? {
      assert Attempt(st, s, time).infos[f.value].lastTry == time;
    }
  }

  lemma PlaceTimes(st: State, id: int, source: NetAddr, now: int)
    requires Placeable(st, id)
    ensures TimesFrom(st, Place(st, id, source, now), {})
  {
    hide Between; hide RandomOk; hide IsTerrible; hide ClearNew; hide Delete;
    PlaceableRandom(st, id);
    var info := st.infos[id];
    var u := NewSlot(st.h, st.key, info.service, NewBucket(st.h, st.key, info.service, source));
    if u in st.newTable {
      PlaceableOccupant(st, u, id);
    }
    if u in st.newTable && st.newTable[u] == id {
    } else if u !in st.newTable || Overwritable(st.infos[st.newTable[u]], info.refCount, now) {
      PlaceStep(st, u, id);
      ClearNewTimes(st, u);
    } else if info.refCount == 0 {
      DeleteFrame(st, id);
    }
  }

  lemma AddTimed(st: State, routable: bool, a: Address, source: NetAddr, penalty: int, now: int, draw: nat)
    requires Inv(st) && Timed(st.infos)
    ensures var r := Add(st, routable, a, source, penalty, now, draw).0; Timed(r.infos) && r.key == st.key
  {
    hide Between; hide Place; hide IsTerrible; hide RandomOk;
    if routable {
      var f := Find(st, a.service.addr);
      if f.None? {
        UnknownAddress(st, a.service.addr);
        FreshPlaceable(st, a, source, penalty);
        PlaceTimes(Fresh(st, a, source, penalty), st.idCount, source, now);
      } else {
        RefreshedKeeps(st, f.value, a, penalty, now);
        var info := Refreshed(st.infos[f.value], a, penalty, now);
        if MayGrow(info, a, draw) {
          PlaceTimes(Put(st, f.value, info), f.value, source, now);
        }
      }
    }
  }

  lemma {:induction false} GatherTimes(st: State, n: nat, acc: seq<Address>, limit: nat, now: int, draw: nat -> nat)
    requires RandomOk(st.infos, st.random) && n <= |st.random|
    ensures TimesFrom(st, Gather(st, n, acc, limit, now, draw).0, {})
    decreases |st.random| - n
  {
    if n < |st.random| && |acc| < limit {
      var w := Shuffle(st, n, draw);
      SwapRandomOk(st, n, n + draw(n) % (|st.random| - n));
      GatherStep(st, n, acc, limit, now, draw);
      assert TimesFrom(st, w, {});
      var info := w.infos[w.random[n]];
      GatherTimes(w, n + 1, if IsTerrible(info, now) then acc else acc + [Gossiped(info)], limit, now, draw);
    }
  }

  // ----- Runs -----

  /** The clock readings that the times rely on. */
  predicate Timely(op: Op) {
    match op
    case GoodOp(_, time) => time > 0
    case AttemptOp(_, time) => time >= 0
    case _ => true
  }

  lemma StepChecked(st: State, op: Op)
    requires Checked(st) && Timely(op)
    ensures Checked(Step(st, op))
  {
    hide Between; hide Add; hide Good; hide Attempt; hide Gather;
    StepKeeps(st, op);
    IndexedRandom(st);
    match op
    case AddOp(routable, a, source, penalty, now, draw) => AddTimed(st, routable, a, source, penalty, now, draw);
    case GoodOp(s, time) => GoodTimed(st, s, time);
    case AttemptOp(s, time) => AttemptTimed(st, s, time); AttemptKey(st, s, time);
    case ConnectedOp(s, time) =>
    case SetServicesOp(s, services) =>
    case GetAddrOp(now, draws) => GatherTimes(st, 0, [], GetAddrLimit(st), now, draws);
  }

  lemma AttemptKey(st: State, s: Service, time: int)
    ensures Attempt(st, s, time).key == st.key
  {
  }

  /** With sane clock readings and a key, all of Check_ holds after every run. */
  lemma {:induction false} RunChecked(h: Hashes, key: nat, ops: seq<Op>)
    requires key != 0 && forall i :: 0 <= i < |ops| ==> Timely(ops[i])
    ensures Checked(Run(h, key, ops))
  {
    hide Inv; hide Step; hide Timed;
    if ops == [] {
      InitConsistent(h, key);
      InitTimed(h, key);
    } else {
      var n := |ops| - 1;
      RunChecked(h, key, ops[..n]);
      StepChecked(Run(h, key, ops[..n]), ops[n]);
    }
  }

  lemma InitTimed(h: Hashes, key: nat)
    ensures Timed(Init(h, key).infos) && Init(h, key).key == key
  {
  }
}
