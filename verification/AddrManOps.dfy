/** The address manager's operations on the two tables, each of which keeps them consistent. */
module AddrManOps {
  import opened Common
  import opened AddrManModel
  import opened Powers

  // ----- Removing references from the new table -----

  /** Empty one occupied cell of the new table. */
  function Unlink(st: State, s: Slot): (r: State)
    requires s in st.newTable && st.newTable[s] in st.infos
  {
    var id := st.newTable[s];
    st.(newTable := st.newTable - {s},
        infos := st.infos[id := st.infos[id].(refCount := st.infos[id].refCount - 1)])
  }

  lemma UnlinkIndexed(st: State, s: Slot)
    requires Indexed(st) && s in st.newTable && st.newTable[s] in st.infos
    ensures Indexed(Unlink(st, s))
  {
    var id := st.newTable[s];
    PutIndexed(st, id, st.infos[id].(refCount := st.infos[id].refCount - 1));
  }

  lemma UnlinkPlaced(st: State, s: Slot)
    requires Placed(st) && s in st.newTable
    ensures st.newTable[s] in st.infos && Placed(Unlink(st, s))
    ensures Refs(st.newTable, st.newTable[s]) != {}
  {
    var id := st.newTable[s];
    var r := Unlink(st, s);
    assert s in Refs(st.newTable, id);
    assert Refs(r.newTable, id) == Refs(st.newTable, id) - {s};
    forall k | k in r.infos && k != id ensures Refs(r.newTable, k) == Refs(st.newTable, k) {
    }
  }

  /** The limbo set and the surplus of nNew after a cell of `id` was emptied. */
  function LimboAfter(st: State, id: int, limbo: set<int>): set<int>
    requires id in st.infos
  {
    if st.infos[id].refCount == 1 then limbo + {id} else limbo
  }

  function ExtraAfter(st: State, id: int, extra: int): int
    requires id in st.infos
  {
    if st.infos[id].refCount == 1 then extra + 1 else extra
  }

  lemma UnlinkTallied(st: State, s: Slot, limbo: set<int>, extra: int)
    requires Tallied(st, limbo, extra) && s in st.newTable && st.newTable[s] in st.infos
    requires st.infos[st.newTable[s]].refCount > 0
    ensures var id := st.newTable[s];
            Tallied(Unlink(st, s), LimboAfter(st, id, limbo), ExtraAfter(st, id, extra))
  {
    var id := st.newTable[s];
    var r := Unlink(st, s);
    assert forall k :: k in TriedIds(st.infos) <==> k in TriedIds(r.infos);
    assert TriedIds(st.infos) == TriedIds(r.infos);
    assert forall k :: k in NewIds(st.infos) <==> k in NewIds(r.infos);
    assert NewIds(st.infos) == NewIds(r.infos);
    assert NewIds(st.infos) - (limbo + {id}) == NewIds(st.infos) - limbo - {id};
    assert id in NewIds(st.infos) - limbo;
  }

  lemma UnlinkKeeps(st: State, s: Slot, limbo: set<int>, extra: int)
    requires Between(st, limbo, extra) && s in st.newTable
    ensures var id := st.newTable[s];
            && id in st.infos && st.infos[id].refCount > 0 && id !in limbo && !st.infos[id].inTried
            && Between(Unlink(st, s), LimboAfter(st, id, limbo), ExtraAfter(st, id, extra))
  {
    UnlinkPlaced(st, s);
    var id := st.newTable[s];
    assert st.infos[id].refCount > 0;
    hide Indexed; hide Placed; hide Unlink;
    UnlinkIndexed(st, s);
    UnlinkTallied(st, s, limbo, extra);
  }

  /** Empty a cell of the new table, forgetting an entry that loses its last reference (ClearNew). */
  function ClearNew(st: State, s: Slot): (r: State)
    requires RandomOk(st.infos, st.random)
    requires s in st.newTable ==> st.newTable[s] in st.infos
  {
    if s !in st.newTable then st
    else
      var id := st.newTable[s];
      UnlinkRandom(st, s);
      if st.infos[id].refCount == 1 then Delete(Unlink(st, s), id) else Unlink(st, s)
  }

  lemma UnlinkRandom(st: State, s: Slot)
    requires RandomOk(st.infos, st.random) && s in st.newTable && st.newTable[s] in st.infos
    ensures RandomOk(Unlink(st, s).infos, st.random)
  {
  }

  lemma UnlinkTables(st: State, s: Slot)
    requires s in st.newTable && st.newTable[s] in st.infos
    ensures Unlink(st, s).newTable == st.newTable - {s}
    ensures Unlink(st, s).infos.Keys == st.infos.Keys && Unlink(st, s).random == st.random
  {
  }

  lemma DeleteTables(st: State, id: int)
    requires RandomOk(st.infos, st.random) && id in st.infos
    ensures Delete(st, id).newTable == st.newTable
  {
  }

  lemma ClearNewKeeps(st: State, s: Slot, limbo: set<int>, extra: int)
    requires Between(st, limbo, extra)
    ensures s in st.newTable ==> st.newTable[s] in st.infos
    ensures Between(ClearNew(st, s), limbo, extra)
    ensures ClearNew(st, s).newTable == st.newTable - {s}
  {
    hide Between; hide RandomOk; hide Unlink; hide Delete;
    LimboMember(st, 0, limbo, extra);
    if s in st.newTable {
      UnlinkKeeps(st, s, limbo, extra);
      UnlinkTables(st, s);
      UnlinkRandom(st, s);
      var id := st.newTable[s];
      if st.infos[id].refCount == 1 {
        DeleteKeeps(Unlink(st, s), id, limbo + {id}, extra + 1);
        DeleteTables(Unlink(st, s), id);
        assert limbo + {id} - {id} == limbo;
      }
    } else {
      assert st.newTable - {s} == st.newTable;
    }
  }

  /** Empty every cell of the new table that refers to `id`. */
  function UnlinkAll(st: State, id: int): (r: State)
    requires id in st.infos
  {
    st.(newTable := st.newTable - Refs(st.newTable, id),
        infos := st.infos[id := st.infos[id].(refCount := 0)])
  }

  lemma UnlinkAllPlaced(st: State, id: int)
    requires Placed(st) && id in st.infos
    ensures Placed(UnlinkAll(st, id))
  {
    var r := UnlinkAll(st, id);
    assert Refs(r.newTable, id) == {};
    forall k | k in r.infos && k != id ensures Refs(r.newTable, k) == Refs(st.newTable, k) {
    }
  }

  lemma UnlinkAllTallied(st: State, id: int, limbo: set<int>, extra: int)
    requires Tallied(st, limbo, extra) && id in st.infos && id !in limbo && !st.infos[id].inTried
    ensures Tallied(UnlinkAll(st, id), limbo + {id}, extra + 1)
  {
    var r := UnlinkAll(st, id);
    assert forall k :: k in TriedIds(st.infos) <==> k in TriedIds(r.infos);
    assert TriedIds(st.infos) == TriedIds(r.infos);
    assert forall k :: k in NewIds(st.infos) <==> k in NewIds(r.infos);
    assert NewIds(st.infos) == NewIds(r.infos);
    assert NewIds(st.infos) - (limbo + {id}) == NewIds(st.infos) - limbo - {id};
  }

  lemma UnlinkAllKeeps(st: State, id: int, limbo: set<int>, extra: int)
    requires Between(st, limbo, extra) && id in st.infos && id !in limbo && !st.infos[id].inTried
    ensures Between(UnlinkAll(st, id), limbo + {id}, extra + 1)
  {
    PutIndexed(st, id, st.infos[id].(refCount := 0));
    assert Indexed(UnlinkAll(st, id));
    hide Indexed; hide Placed; hide UnlinkAll;
    UnlinkAllPlaced(st, id);
    UnlinkAllTallied(st, id, limbo, extra);
  }

  // ----- Adding a reference -----

  /** Put `id` into a free cell of the new table. */
  function Link(st: State, s: Slot, id: int): (r: State)
    requires id in st.infos
  {
    st.(newTable := st.newTable[s := id],
        infos := st.infos[id := st.infos[id].(refCount := st.infos[id].refCount + 1)])
  }

  lemma LinkPlaced(st: State, s: Slot, id: int)
    requires Placed(st) && id in st.infos && s !in st.newTable
    requires s.bucket < NEW_BUCKET_COUNT && s == NewSlot(st.h, st.key, st.infos[id].service, s.bucket)
    ensures Placed(Link(st, s, id))
  {
    hide RefsOk;
    LinkRefs(st.infos, st.newTable, s, id);
  }

  lemma LinkRefs(infos: map<int, Info>, newTable: map<Slot, int>, s: Slot, id: int)
    requires RefsOk(infos, newTable) && id in infos && s !in newTable
    ensures RefsOk(infos[id := infos[id].(refCount := infos[id].refCount + 1)], newTable[s := id])
  {
    assert Refs(newTable[s := id], id) == Refs(newTable, id) + {s};
    forall k | k in infos && k != id ensures Refs(newTable[s := id], k) == Refs(newTable, k) {
    }
  }

  lemma LinkIndexed(st: State, s: Slot, id: int)
    requires Indexed(st) && id in st.infos
    ensures Indexed(Link(st, s, id))
  {
    PutIndexed(st, id, st.infos[id].(refCount := st.infos[id].refCount + 1));
  }

  lemma LinkTallied(st: State, s: Slot, id: int, limbo: set<int>, extra: int)
    requires Tallied(st, limbo, extra) && id in st.infos
    requires !st.infos[id].inTried && st.infos[id].refCount < NEW_BUCKETS_PER_ADDRESS
    ensures Tallied(Link(st, s, id), limbo - {id}, if id in limbo then extra - 1 else extra)
  {
    var r := Link(st, s, id);
    assert forall k :: k in TriedIds(st.infos) <==> k in TriedIds(r.infos);
    assert TriedIds(st.infos) == TriedIds(r.infos);
    assert forall k :: k in NewIds(st.infos) <==> k in NewIds(r.infos);
    assert NewIds(st.infos) == NewIds(r.infos);
    if id in limbo {
      assert NewIds(st.infos) - (limbo - {id}) == NewIds(st.infos) - limbo + {id};
    } else {
      assert limbo - {id} == limbo;
    }
  }

  lemma LinkKeeps(st: State, s: Slot, id: int, limbo: set<int>, extra: int)
    requires Between(st, limbo, extra) && id in st.infos && s !in st.newTable
    requires s.bucket < NEW_BUCKET_COUNT && s == NewSlot(st.h, st.key, st.infos[id].service, s.bucket)
    requires !st.infos[id].inTried && st.infos[id].refCount < NEW_BUCKETS_PER_ADDRESS
    ensures Between(Link(st, s, id), limbo - {id}, if id in limbo then extra - 1 else extra)
  {
    hide Indexed; hide Placed; hide Link;
    LinkIndexed(st, s, id);
    LinkPlaced(st, s, id);
    LinkTallied(st, s, id, limbo, extra);
  }

  // ----- The tried table -----

  /** Take the occupant of `s` out of the tried table. */
  function Evict(st: State, s: Slot): (r: State)
    requires s in st.triedTable && st.triedTable[s] in st.infos
  {
    var id := st.triedTable[s];
    st.(triedTable := st.triedTable - {s},
        infos := st.infos[id := st.infos[id].(inTried := false)],
        nTried := st.nTried - 1)
  }

  lemma EvictPlaced(st: State, s: Slot)
    requires Placed(st) && s in st.triedTable
    ensures st.triedTable[s] in st.infos && Placed(Evict(st, s))
  {
    var id := st.triedTable[s];
    var r := Evict(st, s);
    forall k | k in r.infos && r.infos[k].inTried
      ensures var t := TriedSlot(r.h, r.key, r.infos[k].service); t in r.triedTable && r.triedTable[t] == k
    {
    }
  }

  lemma EvictTallied(st: State, s: Slot, limbo: set<int>, extra: int)
    requires Tallied(st, limbo, extra) && s in st.triedTable && st.triedTable[s] in st.infos
    requires st.infos[st.triedTable[s]].inTried
    ensures Tallied(Evict(st, s), limbo + {st.triedTable[s]}, extra)
  {
    var id := st.triedTable[s];
    var r := Evict(st, s);
    assert forall k :: k in TriedIds(r.infos) <==> k in TriedIds(st.infos) && k != id;
    assert TriedIds(r.infos) == TriedIds(st.infos) - {id};
    assert forall k :: k in NewIds(r.infos) <==> k in NewIds(st.infos) || k == id;
    assert NewIds(r.infos) - (limbo + {id}) == NewIds(st.infos) - limbo;
  }

  lemma EvictKeeps(st: State, s: Slot, limbo: set<int>, extra: int)
    requires Between(st, limbo, extra) && s in st.triedTable
    ensures st.triedTable[s] in st.infos && st.triedTable[s] !in limbo
    ensures Between(Evict(st, s), limbo + {st.triedTable[s]}, extra)
  {
    var id := st.triedTable[s];
    EvictPlaced(st, s);
    assert st.infos[id].inTried;
    PutIndexed(st, id, st.infos[id].(inTried := false));
    assert Indexed(Evict(st, s));
    hide Indexed; hide Placed; hide Evict;
    EvictTallied(st, s, limbo, extra);
  }

  /** Put `id` into the tried table, in the cell it hashes to. */
  function EnterTried(st: State, id: int): (r: State)
    requires id in st.infos
  {
    st.(triedTable := st.triedTable[TriedSlot(st.h, st.key, st.infos[id].service) := id],
        infos := st.infos[id := st.infos[id].(inTried := true)],
        nTried := st.nTried + 1)
  }

  lemma EnterTriedPlaced(st: State, id: int)
    requires Placed(st) && id in st.infos && !st.infos[id].inTried
    requires TriedSlot(st.h, st.key, st.infos[id].service) !in st.triedTable
    ensures Placed(EnterTried(st, id))
  {
  }

  lemma EnterTriedTallied(st: State, id: int, limbo: set<int>, extra: int)
    requires Tallied(st, limbo, extra) && id in limbo && id in st.infos
    ensures Tallied(EnterTried(st, id), limbo - {id}, extra)
  {
    var r := EnterTried(st, id);
    assert forall k :: k in TriedIds(r.infos) <==> k in TriedIds(st.infos) || k == id;
    assert TriedIds(r.infos) == TriedIds(st.infos) + {id};
    assert forall k :: k in NewIds(r.infos) <==> k in NewIds(st.infos) && k != id;
    assert NewIds(r.infos) - (limbo - {id}) == NewIds(st.infos) - limbo;
  }

  lemma EnterTriedKeeps(st: State, id: int, limbo: set<int>, extra: int)
    requires Between(st, limbo, extra) && id in limbo && id in st.infos
    requires TriedSlot(st.h, st.key, st.infos[id].service) !in st.triedTable
    ensures Between(EnterTried(st, id), limbo - {id}, extra)
  {
    PutIndexed(st, id, st.infos[id].(inTried := true));
    assert Indexed(EnterTried(st, id));
    hide Indexed; hide EnterTried;
    EnterTriedPlaced(st, id);
    hide Placed;
    EnterTriedTallied(st, id, limbo, extra);
  }

  // ----- What ClearNew leaves alone -----

  /** `r` is `st` except for the new table's entries, their vRandom positions and the indexes. */
  ghost predicate SameTried(st: State, r: State) {
    && r.h == st.h && r.key == st.key && r.idCount == st.idCount
    && r.triedTable == st.triedTable && r.nTried == st.nTried
  }

  /** Every entry but `out` is in `r`, unchanged up to its vRandom position. */
  ghost predicate OthersKept(st: State, r: State, out: set<int>) {
    && (forall id :: id in r.infos ==> id in st.infos)
    && (forall id :: id in st.infos && id !in out ==>
          id in r.infos && r.infos[id] == st.infos[id].(randomPos := r.infos[id].randomPos))
  }

  function Occupant(table: map<Slot, int>, s: Slot): set<int> {
    if s in table then {table[s]} else {}
  }

  lemma DeleteFrame(st: State, id: int)
    requires RandomOk(st.infos, st.random) && id in st.infos
    ensures SameTried(st, Delete(st, id)) && OthersKept(st, Delete(st, id), {id})
    ensures id !in Delete(st, id).infos
  {
    DeleteEntries(st, id);
  }

  lemma UnlinkFrame(st: State, s: Slot)
    requires s in st.newTable && st.newTable[s] in st.infos
    ensures SameTried(st, Unlink(st, s)) && OthersKept(st, Unlink(st, s), {st.newTable[s]})
  {
  }

  lemma ClearNewFrame(st: State, s: Slot)
    requires RandomOk(st.infos, st.random)
    requires s in st.newTable ==> st.newTable[s] in st.infos
    ensures SameTried(st, ClearNew(st, s)) && OthersKept(st, ClearNew(st, s), Occupant(st.newTable, s))
  {
    if s in st.newTable {
      UnlinkRandom(st, s);
      UnlinkFrame(st, s);
      var id := st.newTable[s];
      hide RandomOk; hide Unlink; hide Delete;
      if st.infos[id].refCount == 1 {
        DeleteFrame(Unlink(st, s), id);
      }
    }
  }

  // ----- MakeTried -----

  /** The cell of the new table that an entry's own source assigns to it. */
  function Home(h: Hashes, key: nat, info: Info): Slot {
    NewSlot(h, key, info.service, NewBucket(h, key, info.service, info.source))
  }

  function HomeSlot(st: State, info: Info): Slot {
    Home(st.h, st.key, info)
  }

  /** Enter `victim`, in limbo beside `id`, into its home cell of the new table. */
  function Rehome(e: State, victim: int, id: int): (r: State)
    requires Between(e, {id, victim}, 0)
  {
    RehomeStep(e, victim, id);
    hide Indexed; hide Placed; hide Tallied; hide ClearNew;
    var u := HomeSlot(e, e.infos[victim]);
    var c := ClearNew(e, u);
    Link(c.(nNew := c.nNew + 1), u, victim)
  }

  lemma RehomeStep(e: State, victim: int, id: int)
    requires Between(e, {id, victim}, 0)
    ensures victim in e.infos && RandomOk(e.infos, e.random)
    ensures var u := HomeSlot(e, e.infos[victim]);
            && (u in e.newTable ==> e.newTable[u] in e.infos)
            && var c := ClearNew(e, u);
            && Between(c, {id, victim}, 0) && u !in c.newTable && SameTried(e, c)
            && OthersKept(e, c, Occupant(e.newTable, u)) && id in c.infos && victim in c.infos
            && c.infos[victim].service == e.infos[victim].service && c.infos[victim].refCount == 0
            && !c.infos[victim].inTried
  {
    hide Between; hide RandomOk; hide ClearNew;
    LimboMember(e, victim, {id, victim}, 0);
    LimboMember(e, id, {id, victim}, 0);
    var u := HomeSlot(e, e.infos[victim]);
    ClearNewKeeps(e, u, {id, victim}, 0);
    ClearNewFrame(e, u);
    LimboMember(ClearNew(e, u), victim, {id, victim}, 0);
    LimboMember(ClearNew(e, u), id, {id, victim}, 0);
    LimboUnlinked(e, u, {id, victim}, 0, victim);
  }

  lemma RehomeKeeps(e: State, victim: int, id: int)
    requires Between(e, {id, victim}, 0) && id != victim
    ensures Between(Rehome(e, victim, id), {id}, 0)
    ensures SameTried(e, Rehome(e, victim, id))
  {
    hide Between; hide OthersKept; hide ClearNew; hide RandomOk;
    RehomeStep(e, victim, id);
    var u := HomeSlot(e, e.infos[victim]);
    var c := ClearNew(e, u);
    BumpNew(c, {id, victim}, 0, 1);
    LinkKeeps(c.(nNew := c.nNew + 1), u, victim, {id, victim}, 1);
    assert {id, victim} - {victim} == {id};
  }

  /** Move the occupant of tried cell `k` back to the new table, while `id` is in limbo. */
  function MoveToNew(st: State, k: Slot, id: int): (r: State)
    requires Between(st, {id}, 0) && k in st.triedTable
  {
    EvictKeeps(st, k, {id}, 0);
    hide Between;
    assert {id} + {st.triedTable[k]} == {id, st.triedTable[k]};
    Rehome(Evict(st, k), st.triedTable[k], id)
  }

  lemma MoveToNewKeeps(st: State, k: Slot, id: int)
    requires Between(st, {id}, 0) && k in st.triedTable
    ensures Between(MoveToNew(st, k, id), {id}, 0)
    ensures MoveToNew(st, k, id).triedTable == st.triedTable - {k}
    ensures MoveToNew(st, k, id).h == st.h && MoveToNew(st, k, id).key == st.key
  {
    EvictKeeps(st, k, {id}, 0);
    hide Between; hide Rehome;
    assert {id} + {st.triedTable[k]} == {id, st.triedTable[k]};
    RehomeKeeps(Evict(st, k), st.triedTable[k], id);
  }

  lemma BumpNew(st: State, limbo: set<int>, extra: int, delta: int)
    requires Between(st, limbo, extra)
    ensures Between(st.(nNew := st.nNew + delta), limbo, extra + delta)
  {
  }

  /** Take `id` out of the new table altogether. */
  function LeaveNew(st: State, id: int): (r: State)
    requires id in st.infos
  {
    UnlinkAll(st, id).(nNew := st.nNew - 1)
  }

  lemma LeaveNewKeeps(st: State, id: int)
    requires Inv(st) && id in st.infos && !st.infos[id].inTried
    ensures Between(LeaveNew(st, id), {id}, 0)
    ensures id in LeaveNew(st, id).infos
  {
    hide Between;
    UnlinkAllKeeps(st, id, {}, 0);
    assert {} + {id} == {id};
    BumpNew(UnlinkAll(st, id), {id}, 1, -1);
  }

  /** Move `id` from the new table to its tried cell, sending the occupant back to the new table. */
  function MakeTried(st: State, id: int): (r: State)
    requires Inv(st) && id in st.infos && !st.infos[id].inTried
  {
    hide Between;
    LeaveNewKeeps(st, id);
    var v := LeaveNew(st, id);
    var k := TriedSlot(v.h, v.key, v.infos[id].service);
    if k in v.triedTable then
      LimboKept(v, k, id);
      EnterTried(MoveToNew(v, k, id), id)
    else EnterTried(v, id)
  }

  lemma LimboKept(v: State, k: Slot, id: int)
    requires Between(v, {id}, 0) && k in v.triedTable
    ensures id in v.infos
    ensures var m := MoveToNew(v, k, id);
            && id in m.infos && m.infos[id].service == v.infos[id].service
  {
    hide Between; hide RandomOk; hide ClearNew;
    LimboMember(v, id, {id}, 0);
    EvictKeeps(v, k, {id}, 0);
    var victim := v.triedTable[k];
    var e := Evict(v, k);
    assert {id} + {victim} == {id, victim};
    RehomeStep(e, victim, id);
    LimboUnlinked(e, HomeSlot(e, e.infos[victim]), {id, victim}, 0, id);
  }

  lemma LimboUnlinked(st: State, u: Slot, limbo: set<int>, extra: int, id: int)
    requires Between(st, limbo, extra) && id in limbo
    ensures id !in Occupant(st.newTable, u)
  {
    if u in st.newTable {
      UnlinkKeeps(st, u, limbo, extra);
    }
  }

  lemma MakeTriedKeeps(st: State, id: int)
    requires Inv(st) && id in st.infos && !st.infos[id].inTried
    ensures Inv(MakeTried(st, id))
  {
    hide Between; hide MoveToNew; hide EnterTried; hide LeaveNew;
    LeaveNewKeeps(st, id);
    var v := LeaveNew(st, id);
    var k := TriedSlot(v.h, v.key, v.infos[id].service);
    assert {id} - {id} == {};
    if k in v.triedTable {
      LimboKept(v, k, id);
      MoveToNewKeeps(v, k, id);
      EnterTriedKeeps(MoveToNew(v, k, id), id, {id}, 0);
    } else {
      EnterTriedKeeps(v, id, {id}, 0);
    }
  }

  // ----- Lookup and statistics -----

  function Find(st: State, a: NetAddr): Option<int> {
    if a in st.addrs && st.addrs[a] in st.infos then Some(st.addrs[a]) else None
  }

  /** The entry for exactly this address and port, if there is one. */
  function FindExact(st: State, s: Service): (r: Option<int>)
    ensures r.Some? ==> r.value in st.infos && st.infos[r.value].service == s
  {
    var id := Find(st, s.addr);
    if id.Some? && st.infos[id.value].service == s then id else None
  }

  function Good(st: State, s: Service, time: int): (r: State)
    requires Inv(st)
  {
    var f := FindExact(st, s);
    if f.None? then st
    else
      var id := f.value;
      var info := st.infos[id].(lastSuccess := time, lastTry := time, attempts := 0);
      var w := Put(st, id, info);
      GoodStatistics(st, id, time);
      if info.inTried then w else MakeTried(w, id)
  }

  lemma GoodStatistics(st: State, id: int, time: int)
    requires Inv(st) && id in st.infos
    ensures Inv(Put(st, id, st.infos[id].(lastSuccess := time, lastTry := time, attempts := 0)))
  {
    PutKeeps(st, id, st.infos[id].(lastSuccess := time, lastTry := time, attempts := 0), {}, 0);
  }

  lemma GoodKeeps(st: State, s: Service, time: int)
    requires Inv(st)
    ensures Inv(Good(st, s, time))
  {
    hide Inv; hide MakeTried;
    var f := FindExact(st, s);
    if f.Some? {
      var id := f.value;
      GoodStatistics(st, id, time);
      var w := Put(st, id, st.infos[id].(lastSuccess := time, lastTry := time, attempts := 0));
      if !w.infos[id].inTried {
        MakeTriedKeeps(w, id);
      }
    }
  }

  function Attempt(st: State, s: Service, time: int): (r: State) {
    var f := FindExact(st, s);
    if f.None? then st
    else Put(st, f.value, st.infos[f.value].(lastTry := time, attempts := st.infos[f.value].attempts + 1))
  }

  function Connected(st: State, s: Service, time: int): (r: State) {
    var f := FindExact(st, s);
    if f.Some? && time - st.infos[f.value].time > 20 * 60
    then Put(st, f.value, st.infos[f.value].(time := time % UINT32_LIMIT))
    else st
  }

  function SetServices(st: State, s: Service, services: set<nat>): (r: State) {
    var f := FindExact(st, s);
    if f.None? then st else Put(st, f.value, st.infos[f.value].(services := services))
  }

  lemma EntrySound(st: State, id: int)
    requires Inv(st) && id in st.infos
    ensures EntryOk(st.infos[id], false)
  {
  }

  lemma StatisticsKeep(st: State, s: Service, time: int, services: set<nat>)
    requires Inv(st)
    ensures Inv(Attempt(st, s, time))
    ensures Inv(Connected(st, s, time))
    ensures Inv(SetServices(st, s, services))
  {
    hide Between; hide FindExact;
    var f := FindExact(st, s);
    if f.Some? {
      var info := st.infos[f.value];
      EntrySound(st, f.value);
      PutKeeps(st, f.value, info.(lastTry := time, attempts := info.attempts + 1), {}, 0);
      PutKeeps(st, f.value, info.(time := time % UINT32_LIMIT), {}, 0);
      PutKeeps(st, f.value, info.(services := services), {}, 0);
    }
  }

  // ----- Add -----

  function Max0(x: int): nat { if x < 0 then 0 else x }

  /** The known entry's time and services after it was announced again. */
  function Refreshed(info: Info, a: Address, penalty: int, now: int): (r: Info) {
    var interval := if now - a.time < 24 * 60 * 60 then 60 * 60 else 24 * 60 * 60;
    var time := if a.time != 0 && (info.time == 0 || info.time < a.time - interval - penalty)
                then Max0(a.time - penalty) % UINT32_LIMIT else info.time;
    info.(time := time, services := info.services + a.services)
  }

  /** Whether a known entry may get one more cell of the new table. */
  predicate MayGrow(info: Info, a: Address, draw: nat) {
    && a.time != 0
    && !(info.time != 0 && a.time <= info.time)
    && !info.inTried
    && info.refCount != NEW_BUCKETS_PER_ADDRESS
    && (info.refCount >= 1 ==> draw % (PowPositive(2, info.refCount); Pow(2, info.refCount)) == 0)
  }

  /** `id` is either a sound entry of the new table with room to grow or fresh from Create. */
  ghost predicate Placeable(st: State, id: int) {
    && id in st.infos && !st.infos[id].inTried && st.infos[id].refCount < NEW_BUCKETS_PER_ADDRESS
    && if st.infos[id].refCount == 0 then Between(st, {id}, 1) else Inv(st)
  }

  /** May the occupant of a cell be overwritten by an entry with `refCount` references? */
  predicate Overwritable(existing: Info, refCount: int, now: int) {
    IsTerrible(existing, now) || (existing.refCount > 1 && refCount == 0)
  }

  function Place(st: State, id: int, source: NetAddr, now: int): (r: State)
    requires Placeable(st, id)
  {
    var info := st.infos[id];
    var u := NewSlot(st.h, st.key, info.service, NewBucket(st.h, st.key, info.service, source));
    if u in st.newTable && st.newTable[u] == id then st
    else
      if u !in st.newTable || Overwritable(st.infos[st.newTable[u]], info.refCount, now) then
        PlaceStep(st, u, id);
        Link(ClearNew(st, u), u, id)
      else if info.refCount == 0 then Delete(st, id) else st
  }

  lemma PlaceStep(st: State, u: Slot, id: int)
    requires Placeable(st, id) && id !in Occupant(st.newTable, u)
    ensures RandomOk(st.infos, st.random) && (u in st.newTable ==> st.newTable[u] in st.infos)
    ensures var c := ClearNew(st, u);
            && Placeable(c, id) && u !in c.newTable && SameTried(st, c)
            && OthersKept(st, c, Occupant(st.newTable, u))
            && c.infos[id].service == st.infos[id].service
  {
    hide ClearNew; hide Between; hide RandomOk;
    var limbo := if st.infos[id].refCount == 0 then {id} else {};
    var extra := if st.infos[id].refCount == 0 then 1 else 0;
    LimboMember(st, id, limbo, extra);
    ClearNewKeeps(st, u, limbo, extra);
    ClearNewFrame(st, u);
  }

  lemma PlaceKeeps(st: State, id: int, source: NetAddr, now: int)
    requires Placeable(st, id)
    ensures Inv(Place(st, id, source, now))
  {
    var info := st.infos[id];
    var u := NewSlot(st.h, st.key, info.service, NewBucket(st.h, st.key, info.service, source));
    if u in st.newTable && st.newTable[u] == id {
      if info.refCount == 0 {
        LimboUnlinked(st, u, {id}, 1, id);
      }
    } else if u !in st.newTable || Overwritable(st.infos[st.newTable[u]], info.refCount, now) {
      PlaceStep(st, u, id);
      LinkPlaceable(ClearNew(st, u), u, id);
    } else if info.refCount == 0 {
      DeleteKeeps(st, id, {id}, 1);
      assert {id} - {id} == {};
    }
  }

  lemma LinkPlaceable(c: State, u: Slot, id: int)
    requires Placeable(c, id) && u !in c.newTable && u.bucket < NEW_BUCKET_COUNT
    requires u == NewSlot(c.h, c.key, c.infos[id].service, u.bucket)
    ensures Inv(Link(c, u, id))
  {
    hide Between;
    if c.infos[id].refCount == 0 {
      LinkKeeps(c, u, id, {id}, 1);
      assert {id} - {id} == {};
    } else {
      LinkKeeps(c, u, id, {}, 0);
      assert {} - {id} == {};
    }
  }

  /** The fresh entry for an unknown address, counted in nNew but not yet in the table. */
  function Fresh(st: State, a: Address, source: NetAddr, penalty: int): (r: State) {
    var c := Create(st, a, source);
    var id := st.idCount;
    Put(c, id, c.infos[id].(time := Max0(a.time - penalty) % UINT32_LIMIT)).(nNew := c.nNew + 1)
  }

  lemma FreshPlaceable(st: State, a: Address, source: NetAddr, penalty: int)
    requires Inv(st) && a.service.addr !in st.addrs
    ensures Placeable(Fresh(st, a, source, penalty), st.idCount)
  {
    hide Between;
    var id := st.idCount;
    var c := Create(st, a, source);
    CreateKeeps(st, a, source);
    var info := c.infos[id].(time := Max0(a.time - penalty) % UINT32_LIMIT);
    assert EntryOk(info, true);
    PutKeeps(c, id, info, {id}, 0);
    BumpNew(Put(c, id, info), {id}, 0, 1);
  }

  lemma RefreshedKeeps(st: State, id: int, a: Address, penalty: int, now: int)
    requires Inv(st) && id in st.infos
    ensures Inv(Put(st, id, Refreshed(st.infos[id], a, penalty, now)))
    ensures !st.infos[id].inTried ==> 1 <= st.infos[id].refCount <= NEW_BUCKETS_PER_ADDRESS
  {
    assert EntryOk(st.infos[id], false);
    PutKeeps(st, id, Refreshed(st.infos[id], a, penalty, now), {}, 0);
  }

  lemma UnknownAddress(st: State, a: NetAddr)
    requires Inv(st) && Find(st, a).None?
    ensures a !in st.addrs
  {
  }

  function Add(st: State, routable: bool, a: Address, source: NetAddr, penalty: int, now: int, draw: nat)
    : (r: (State, bool))
    requires Inv(st)
  {
    if !routable then (st, false)
    else
      var f := Find(st, a.service.addr);
      if f.None? then
        UnknownAddress(st, a.service.addr);
        FreshPlaceable(st, a, source, penalty);
        (Place(Fresh(st, a, source, penalty), st.idCount, source, now), true)
      else
        var info := Refreshed(st.infos[f.value], a, penalty, now);
        var w := Put(st, f.value, info);
        RefreshedKeeps(st, f.value, a, penalty, now);
        (if MayGrow(info, a, draw) then Place(w, f.value, source, now) else w, false)
  }

  lemma AddKeeps(st: State, routable: bool, a: Address, source: NetAddr, penalty: int, now: int, draw: nat)
    requires Inv(st)
    ensures Inv(Add(st, routable, a, source, penalty, now, draw).0)
  {
    hide Between; hide Place; hide Fresh;
    var f := Find(st, a.service.addr);
    if routable {
      if f.None? {
        UnknownAddress(st, a.service.addr);
        FreshPlaceable(st, a, source, penalty);
        PlaceKeeps(Fresh(st, a, source, penalty), st.idCount, source, now);
      } else {
        var info := Refreshed(st.infos[f.value], a, penalty, now);
        RefreshedKeeps(st, f.value, a, penalty, now);
        if MayGrow(info, a, draw) {
          PlaceKeeps(Put(st, f.value, info), f.value, source, now);
        }
      }
    }
  }
}
