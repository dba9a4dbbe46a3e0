/** The steps of one InstantSend node as functions of its state, and the invariant they keep. */
module InstantSendOps {
  import opened Common
  import opened InstantSendModel

  // ----- Lock requests -----

  /** One lock per input; an outpoint that already has a lock keeps it. */
  function AddLocks(locks: map<OutPoint, Lock>, vin: seq<OutPoint>): (r: map<OutPoint, Lock>)
    ensures forall o :: o in r <==> o in locks || o in vin
    ensures forall o :: o in r ==> r[o] == if o in locks then locks[o] else Lock({}, false)
    decreases |vin|
  {
    if vin == [] then locks
    else
      var last := vin[|vin| - 1];
      AddLocks(if last in locks then locks else locks[last := Lock({}, false)], vin[..|vin| - 1])
  }

  function CreateEmpty(node: Node, tx: TxHash): (r: Node) {
    if tx in node.candidates then node
    else node.(candidates := node.candidates[tx := Candidate(false, map[])])
  }

  /** The candidate that an arriving request leads to. */
  function Requested(net: Network, node: Node, tx: TxHash, env: Env): (c: Candidate) {
    if tx !in node.candidates then Candidate(true, AddLocks(map[], net.vin(tx)))
    else
      var c := node.candidates[tx];
      if c.request then c
      else if env.timedOut(tx) then c.(request := true)
      else Candidate(true, AddLocks(c.locks, net.vin(tx)))
  }

  function CreateCandidate(net: Network, node: Node, tx: TxHash, env: Env): (r: (Node, bool)) {
    if !env.validRequest(tx) then (node, false)
    else
      (node.(candidates := node.candidates[tx := Requested(net, node, tx, env)]),
       !(tx in node.candidates && !node.candidates[tx].request && env.timedOut(tx)))
  }

  // ----- Completing a lock -----

  /** All outpoints of `keys` that were free are now locked by `tx`. */
  ghost function LockAll(locked: map<OutPoint, TxHash>, keys: set<OutPoint>, tx: TxHash): (r: map<OutPoint, TxHash>)
    ensures forall o :: o in r <==> o in locked || o in keys
    ensures forall o :: o in r ==> r[o] == if o in locked then locked[o] else tx
    decreases keys
  {
    if keys == {} then locked
    else
      var o :| o in keys;
      LockAll(if o in locked then locked else locked[o := tx], keys - {o}, tx)
  }

  /** IsLockedInstantSendTransaction */
  predicate IsLockedTx(node: Node, tx: TxHash, env: Env) {
    && env.filtering && tx in node.candidates && |node.candidates[tx].locks| > 0
    && forall o :: o in node.candidates[tx].locks ==> o in node.locked && node.locked[o] == tx
  }

  /** No input is locked by, or in the mempool spent by, another transaction. */
  predicate Uncontested(net: Network, node: Node, tx: TxHash, env: Env) {
    forall o :: o in net.vin(tx) ==>
      (o in node.locked ==> node.locked[o] == tx) && (env.mempool(o).Some? ==> env.mempool(o).value == tx)
  }

  predicate Resolves(net: Network, node: Node, tx: TxHash, env: Env) {
    && Uncontested(net, node, tx, env)
    && (env.mined(tx) || forall o :: o in net.vin(tx) ==> env.haveCoin(o))
  }

  ghost function TryToFinalize(net: Network, node: Node, tx: TxHash, env: Env): (r: Node)
    requires tx in node.candidates
  {
    if env.enabled && node.candidates[tx].IsAllOutPointsReady() && !IsLockedTx(node, tx, env) && Resolves(net, node, tx, env)
    then node.(locked := LockAll(node.locked, node.candidates[tx].locks.Keys, tx))
    else node
  }

  ghost function ProcessRequest(net: Network, node: Node, tx: TxHash, env: Env): (r: (Node, bool)) {
    var (w, ok) := CreateCandidate(net, node, tx, env);
    if ok then assert tx in w.candidates; (TryToFinalize(net, w, tx, env), true) else (w, false)
  }

  // ----- Receiving a vote -----

  /** CTxLockVote::IsValid: a known masternode of the quorum, an unspent outpoint, a good signature. */
  predicate ValidVote(net: Network, v: Vote, env: Env) {
    env.known(v.mn) && env.haveCoin(v.outpoint) && v.mn in Quorum(net, v.outpoint) && env.signed(v)
  }

  function OrphanVoters(node: Node, tx: TxHash, o: OutPoint): set<Vote> {
    set v | v in node.orphans && v.tx == tx && v.outpoint == o
  }

  predicate EnoughOrphans(net: Network, node: Node, tx: TxHash) {
    forall o :: o in net.vin(tx) ==> |OrphanVoters(node, tx, o)| >= SIGNATURES_REQUIRED
  }

  ghost function ProcessOrphan(net: Network, node: Node, v: Vote, env: Env): (r: (Node, bool)) {
    if v in node.orphans then (node, !env.spamming)
    else
      var w := CreateEmpty(node, v.tx).(orphans := node.orphans + {v});
      if (v.tx in w.accepted || v.tx in w.rejected) && EnoughOrphans(net, w, v.tx)
      then (ProcessRequest(net, w, v.tx, env).0, true)
      else (w, !env.spamming)
  }

  /** The other candidates for which the same masternode voted on the same outpoint. */
  function Rivals(node: Node, v: Vote): set<TxHash> {
    set tx | tx in VotedFor(node.voted, v.outpoint) && tx != v.tx && Recorded(node.candidates, tx, v.outpoint, v.mn)
  }

  /** All candidates of `txs` are marked attacked on `o`, the others unchanged. */
  ghost function MarkAll(candidates: Candidates, txs: set<TxHash>, o: OutPoint): (r: Candidates)
    requires forall tx :: tx in txs ==> tx in candidates
    ensures forall tx :: tx in r <==> tx in candidates
    ensures forall tx :: tx in r ==> r[tx] == if tx in txs then candidates[tx].MarkAttacked(o) else candidates[tx]
  {
    if txs == {} then candidates
    else
      var tx :| tx in txs;
      MarkAll(candidates[tx := candidates[tx].MarkAttacked(o)], txs - {tx}, o)
  }

  /** Double votes marked and the transaction noted as voted for on the outpoint. */
  ghost function NoteVote(node: Node, v: Vote): (r: Node)
    requires v.tx in node.candidates
  {
    var rivals := Rivals(node, v);
    node.(candidates := MarkAll(node.candidates, if rivals == {} then {} else rivals + {v.tx}, v.outpoint),
          voted := node.voted[v.outpoint := VotedFor(node.voted, v.outpoint) + {v.tx}])
  }

  /** CTxLockCandidate::AddVote, and whether it took the vote. */
  predicate CanAdd(c: Candidate, v: Vote) {
    v.outpoint in c.locks && v.mn !in c.locks[v.outpoint].votes
  }

  function AddVote(c: Candidate, v: Vote): (r: Candidate) {
    if CanAdd(c, v)
    then c.(locks := c.locks[v.outpoint := c.locks[v.outpoint].(votes := c.locks[v.outpoint].votes + {v.mn})])
    else c
  }

  function PutVote(node: Node, v: Vote): (r: Node)
    requires v.tx in node.candidates
  {
    node.(candidates := node.candidates[v.tx := AddVote(node.candidates[v.tx], v)])
  }

  ghost function ProcessVote(net: Network, node: Node, v: Vote, env: Env): (r: (Node, bool)) {
    if !ValidVote(net, v, env) then (node, false)
    else if v.tx !in node.candidates || !node.candidates[v.tx].request then ProcessOrphan(net, node, v, env)
    else if env.timedOut(v.tx) then (node, false)
    else
      var w := NoteVote(node, v);
      if CanAdd(w.candidates[v.tx], v) then (TryToFinalize(net, PutVote(w, v), v.tx, env), true)
      else (w, false)
  }

  // ----- Casting votes -----

  /** Did this masternode already vote on the outpoint, for whichever transaction? */
  predicate AlreadyVoted(node: Node, o: OutPoint, mn: Masternode) {
    exists tx :: tx in VotedFor(node.voted, o) && Recorded(node.candidates, tx, o, mn)
  }

  /** One outpoint of Vote: the state after it, the votes relayed, whether to go on with the next. */
  function VoteOn(net: Network, node: Node, tx: TxHash, o: OutPoint, mn: Masternode, env: Env)
    : (r: (Node, set<Vote>, bool))
    requires tx in node.candidates
  {
    if !env.haveCoin(o) then (node, {}, false)
    else if mn !in Quorum(net, o) || AlreadyVoted(node, o, mn) then (node, {}, true)
    else if !env.canSign then (node, {}, false)
    else
      var v := Vote(tx, o, mn);
      var w := node.(seen := node.seen + {v});
      if CanAdd(w.candidates[tx], v)
      then (PutVote(w, v).(voted := node.voted[o := VotedFor(node.voted, o) + {tx}]), {v}, true)
      else (w, {}, true)
  }

  /** Every element once. */
  ghost predicate Enumerates<T(!new)>(order: seq<T>, s: set<T>) {
    (forall x :: x in s <==> x in order) && forall i, j :: 0 <= i < j < |order| ==> order[i] != order[j]
  }

  function VoteAll(net: Network, node: Node, tx: TxHash, order: seq<OutPoint>, mn: Masternode, env: Env)
    : (r: (Node, set<Vote>))
    requires tx in node.candidates
    decreases order
  {
    if order == [] then (node, {})
    else
      var (w, out, goOn) := VoteOn(net, node, tx, order[0], mn, env);
      assert tx in w.candidates;
      if !goOn then (w, out)
      else
        var (w', out') := VoteAll(net, w, tx, order[1..], mn, env);
        (w', out + out')
  }

  /** CInstantSend::Vote; `order` is the order in which the candidate's outpoints are visited. */
  ghost function CastVotes(net: Network, node: Node, tx: TxHash, order: seq<OutPoint>, env: Env): (r: (Node, set<Vote>)) {
    if tx !in node.candidates then (node, {})
    else
      var (w, out) := if env.self.Some? && env.enabled && tx in node.accepted
                      then VoteAll(net, node, tx, order, env.self.value, env) else (node, {});
      if tx in w.candidates then (TryToFinalize(net, w, tx, env), out) else (w, out)
  }

  // ----- The steps keep the invariant -----

  lemma LockAllOk(node: Node, tx: TxHash)
    requires LockedOk(node.candidates, node.locked) && tx in node.candidates && node.candidates[tx].IsAllOutPointsReady()
    requires forall o :: o in node.candidates[tx].locks && o in node.locked ==> node.locked[o] == tx
    ensures LockedOk(node.candidates, LockAll(node.locked, node.candidates[tx].locks.Keys, tx))
  {
  }

  lemma TryToFinalizeKeeps(net: Network, node: Node, tx: TxHash, env: Env)
    requires NodeInv(net, node) && tx in node.candidates
    ensures NodeInv(net, TryToFinalize(net, node, tx, env))
  {
    hide CandidatesOk; hide VotedOk; hide DoubleVotesMarked; hide LockedOk;
    var c := node.candidates[tx];
    if c.IsAllOutPointsReady() {
      forall o | o in c.locks && o in node.locked ensures node.locked[o] == tx {
        if node.locked[o] != tx {
          LockExcludes(net, node, o, tx);
        }
      }
      LockAllOk(node, tx);
    }
  }

  lemma {:induction false} CreateCandidateKeeps(net: Network, node: Node, tx: TxHash, env: Env)
    requires NodeInv(net, node)
    ensures NodeInv(net, CreateCandidate(net, node, tx, env).0)
    ensures CreateCandidate(net, node, tx, env).1 ==> tx in CreateCandidate(net, node, tx, env).0.candidates
  {
    if env.validRequest(tx) {
      var c := Requested(net, node, tx, env);
      RequestedOk(net, node, tx, env);
      SameVotesKeep(net, node, node.candidates[tx := c], tx);
    }
  }

  /** The votes, marks and locks of a candidate are those it had before the request arrived. */
  ghost predicate SameVotes(candidates: Candidates, tx: TxHash, c: Candidate) {
    && (forall o :: tx in candidates && o in candidates[tx].locks ==> o in c.locks && c.locks[o] == candidates[tx].locks[o])
    && (forall o :: o in c.locks && !(tx in candidates && o in candidates[tx].locks) ==> c.locks[o] == Lock({}, false))
    && (tx in candidates && candidates[tx].locks != map[] ==> c.locks == candidates[tx].locks)
  }

  lemma RequestedOk(net: Network, node: Node, tx: TxHash, env: Env)
    requires CandidatesOk(net, node.candidates)
    ensures var c := Requested(net, node, tx, env);
            CandidateOk(net, tx, c) && SameVotes(node.candidates, tx, c)
  {
    var c := Requested(net, node, tx, env);
    assert tx in node.candidates ==> CandidateOk(net, tx, node.candidates[tx]);
    if c.locks == AddLocks(map[], net.vin(tx)) {
      assert c.locks.Keys == Inputs(net, tx);
    }
  }

  lemma SameVotesKeep(net: Network, node: Node, candidates: Candidates, tx: TxHash)
    requires NodeInv(net, node) && tx in candidates && candidates == node.candidates[tx := candidates[tx]]
    requires CandidateOk(net, tx, candidates[tx]) && SameVotes(node.candidates, tx, candidates[tx])
    ensures NodeInv(net, node.(candidates := candidates))
  {
    forall t, o, mn ensures Recorded(candidates, t, o, mn) <==> Recorded(node.candidates, t, o, mn) {
    }
    SameVotesLocked(node, candidates, tx);
  }

  lemma SameVotesLocked(node: Node, candidates: Candidates, tx: TxHash)
    requires LockedOk(node.candidates, node.locked)
    requires tx in candidates && candidates == node.candidates[tx := candidates[tx]]
    requires SameVotes(node.candidates, tx, candidates[tx])
    ensures LockedOk(candidates, node.locked)
  {
  }

  lemma ProcessRequestKeeps(net: Network, node: Node, tx: TxHash, env: Env)
    requires NodeInv(net, node)
    ensures NodeInv(net, ProcessRequest(net, node, tx, env).0)
  {
    hide NodeInv; hide CreateCandidate; hide TryToFinalize;
    CreateCandidateKeeps(net, node, tx, env);
    var (w, ok) := CreateCandidate(net, node, tx, env);
    if ok {
      TryToFinalizeKeeps(net, w, tx, env);
    }
  }

  /** Marks never change who voted. */
  lemma MarkAllVotes(candidates: Candidates, txs: set<TxHash>, o: OutPoint)
    requires forall tx :: tx in txs ==> tx in candidates
    ensures var r := MarkAll(candidates, txs, o);
            forall tx, p, mn :: Recorded(r, tx, p, mn) <==> Recorded(candidates, tx, p, mn)
  {
  }

  lemma NoteVoteKeeps(net: Network, node: Node, v: Vote)
    requires NodeInv(net, node) && v.tx in node.candidates
    ensures NodeInv(net, NoteVote(node, v))
  {
    hide NodeInv;
    var rivals := Rivals(node, v);
    var txs := if rivals == {} then {} else rivals + {v.tx};
    MarkAllVotes(node.candidates, txs, v.outpoint);
    MarkAllKeeps(net, node, txs, v.outpoint);
    var w := node.(candidates := MarkAll(node.candidates, txs, v.outpoint));
    NotedKeeps(net, w, v);
  }

  lemma MarkAllKeeps(net: Network, node: Node, txs: set<TxHash>, o: OutPoint)
    requires NodeInv(net, node) && forall tx :: tx in txs ==> tx in node.candidates
    ensures NodeInv(net, node.(candidates := MarkAll(node.candidates, txs, o)))
  {
    hide CandidateOk; hide LockedOk; hide VotedOk; hide DoubleVotesMarked; hide MarkAll;
    var r := MarkAll(node.candidates, txs, o);
    forall tx | tx in r ensures CandidateOk(net, tx, r[tx]) {
      MarkOk(net, tx, node.candidates[tx], o);
    }
    MarkAllIndexes(node, txs, o);
  }

  lemma MarkAllIndexes(node: Node, txs: set<TxHash>, o: OutPoint)
    requires VotedOk(node.candidates, node.voted) && DoubleVotesMarked(node.candidates)
    requires LockedOk(node.candidates, node.locked) && forall tx :: tx in txs ==> tx in node.candidates
    ensures var r := MarkAll(node.candidates, txs, o);
            VotedOk(r, node.voted) && DoubleVotesMarked(r) && LockedOk(r, node.locked)
  {
    MarkAllVotes(node.candidates, txs, o);
    hide MarkAll;
    var r := MarkAll(node.candidates, txs, o);
    forall tx | tx in node.candidates
      ensures r[tx].locks.Keys == node.candidates[tx].locks.Keys
      ensures forall p :: p in r[tx].locks ==> r[tx].locks[p].votes == node.candidates[tx].locks[p].votes
      ensures forall p :: p in r[tx].locks && node.candidates[tx].locks[p].attacked ==> r[tx].locks[p].attacked
    {
    }
  }

  lemma MarkOk(net: Network, tx: TxHash, c: Candidate, o: OutPoint)
    requires CandidateOk(net, tx, c)
    ensures CandidateOk(net, tx, c.MarkAttacked(o))
  {
    assert c.MarkAttacked(o).locks.Keys == c.locks.Keys;
  }

  lemma NotedKeeps(net: Network, node: Node, v: Vote)
    requires NodeInv(net, node) && v.tx in node.candidates
    ensures NodeInv(net, node.(voted := node.voted[v.outpoint := VotedFor(node.voted, v.outpoint) + {v.tx}]))
  {
    hide CandidatesOk; hide DoubleVotesMarked; hide LockedOk;
    var voted := node.voted[v.outpoint := VotedFor(node.voted, v.outpoint) + {v.tx}];
    forall o ensures VotedFor(voted, o) == if o == v.outpoint then VotedFor(node.voted, o) + {v.tx} else VotedFor(node.voted, o) {
    }
    forall o, tx | tx in VotedFor(voted, o) ensures tx in node.candidates {
      assert tx in VotedFor(node.voted, o) || tx == v.tx;
    }
    forall tx, o, mn | Recorded(node.candidates, tx, o, mn) ensures tx in VotedFor(voted, o) {
      assert tx in VotedFor(node.voted, o);
    }
  }

  /** A vote may be counted once every other candidate with a vote of the same masternode is marked. */
  ghost predicate Countable(net: Network, node: Node, v: Vote) {
    && v.tx in node.candidates && v.tx in VotedFor(node.voted, v.outpoint) && v.mn in Quorum(net, v.outpoint)
    && forall b :: b != v.tx && Recorded(node.candidates, b, v.outpoint, v.mn) ==>
         && node.candidates[b].locks[v.outpoint].attacked
         && (v.outpoint in node.candidates[v.tx].locks ==> node.candidates[v.tx].locks[v.outpoint].attacked)
  }

  lemma PutVoteKeeps(net: Network, node: Node, v: Vote)
    requires NodeInv(net, node) && Countable(net, node, v)
    ensures NodeInv(net, PutVote(node, v))
  {
    var r := PutVote(node, v).candidates;
    PutVoteRecords(node, v);
    PutVoteOk(net, node, v);
    PutVoteLocked(node, v);
    hide CandidatesOk; hide LockedOk; hide PutVote;
    assert DoubleVotesMarked(r) by {
      PutVoteMarked(net, node, v);
    }
  }

  lemma PutVoteRecords(node: Node, v: Vote)
    requires v.tx in node.candidates
    ensures var r := PutVote(node, v).candidates;
            forall t, o, mn :: Recorded(r, t, o, mn) <==>
              Recorded(node.candidates, t, o, mn) ||
              (Vote(t, o, mn) == v && v.outpoint in node.candidates[v.tx].locks)
    ensures var r := PutVote(node, v).candidates;
            forall t, o :: t in r && o in r[t].locks ==>
              t in node.candidates && o in node.candidates[t].locks &&
              r[t].locks[o].attacked == node.candidates[t].locks[o].attacked
  {
  }

  lemma PutVoteOk(net: Network, node: Node, v: Vote)
    requires CandidatesOk(net, node.candidates) && v.tx in node.candidates && v.mn in Quorum(net, v.outpoint)
    ensures CandidatesOk(net, PutVote(node, v).candidates)
  {
    var c := node.candidates[v.tx];
    assert CandidateOk(net, v.tx, c);
    assert AddVote(c, v).locks.Keys == c.locks.Keys;
  }

  lemma PutVoteLocked(node: Node, v: Vote)
    requires LockedOk(node.candidates, node.locked) && v.tx in node.candidates
    ensures LockedOk(PutVote(node, v).candidates, node.locked)
  {
    var r := PutVote(node, v).candidates;
    forall o | o in node.locked
      ensures var tx := node.locked[o];
              && tx in r && o in r[tx].locks && |r[tx].locks[o].votes| >= SIGNATURES_REQUIRED
              && forall p :: p in r[tx].locks ==> p in node.locked && node.locked[p] == tx
    {
      var tx := node.locked[o];
      var votes := node.candidates[tx].locks[o].votes;
      if v.mn !in votes {
        assert |votes + {v.mn}| == |votes| + 1;
      }
    }
  }

  lemma PutVoteMarked(net: Network, node: Node, v: Vote)
    requires DoubleVotesMarked(node.candidates) && Countable(net, node, v)
    ensures DoubleVotesMarked(PutVote(node, v).candidates)
  {
    PutVoteRecords(node, v);
    hide PutVote;
    var r := PutVote(node, v).candidates;
    forall a, b, o, mn | a != b && Recorded(r, a, o, mn) && Recorded(r, b, o, mn)
      ensures r[a].locks[o].attacked
    {
      if !Recorded(node.candidates, a, o, mn) {
        assert Recorded(node.candidates, b, o, mn);
      } else if !Recorded(node.candidates, b, o, mn) {
        assert Recorded(node.candidates, a, o, mn);
      }
    }
  }

  lemma NotedCountable(net: Network, node: Node, v: Vote)
    requires NodeInv(net, node) && v.tx in node.candidates && v.mn in Quorum(net, v.outpoint)
    ensures Countable(net, NoteVote(node, v), v)
  {
    var rivals := Rivals(node, v);
    var txs := if rivals == {} then {} else rivals + {v.tx};
    MarkAllVotes(node.candidates, txs, v.outpoint);
    var w := NoteVote(node, v);
    forall b | b != v.tx && Recorded(w.candidates, b, v.outpoint, v.mn)
      ensures w.candidates[b].locks[v.outpoint].attacked
      ensures v.outpoint in w.candidates[v.tx].locks ==> w.candidates[v.tx].locks[v.outpoint].attacked
    {
      assert Recorded(node.candidates, b, v.outpoint, v.mn);
      assert b in rivals;
    }
  }

  lemma ProcessOrphanKeeps(net: Network, node: Node, v: Vote, env: Env)
    requires NodeInv(net, node)
    ensures NodeInv(net, ProcessOrphan(net, node, v, env).0)
  {
    hide ProcessRequest;
    var w := CreateEmpty(node, v.tx).(orphans := node.orphans + {v});
    EmptyKeeps(net, node, v.tx);
    assert NodeInv(net, w);
    ProcessRequestKeeps(net, w, v.tx, env);
  }

  lemma EmptyKeeps(net: Network, node: Node, tx: TxHash)
    requires NodeInv(net, node)
    ensures NodeInv(net, CreateEmpty(node, tx))
  {
    if tx !in node.candidates {
      SameVotesKeep(net, node, CreateEmpty(node, tx).candidates, tx);
    }
  }

  lemma ProcessVoteKeeps(net: Network, node: Node, v: Vote, env: Env)
    requires NodeInv(net, node)
    ensures NodeInv(net, ProcessVote(net, node, v, env).0)
  {
    hide NodeInv; hide ProcessOrphan; hide NoteVote; hide PutVote; hide TryToFinalize; hide Countable; hide Quorum;
    if !ValidVote(net, v, env) {
    } else if v.tx !in node.candidates || !node.candidates[v.tx].request {
      ProcessOrphanKeeps(net, node, v, env);
    } else if !env.timedOut(v.tx) {
      NoteVoteKeeps(net, node, v);
      NotedCountable(net, node, v);
      var w := NoteVote(node, v);
      NotedKnown(node, v);
      PutVoteKeeps(net, w, v);
      PutKnown(w, v);
      TryToFinalizeKeeps(net, PutVote(w, v), v.tx, env);
    }
  }

  lemma NotedKnown(node: Node, v: Vote)
    requires v.tx in node.candidates
    ensures v.tx in NoteVote(node, v).candidates
  {
  }

  lemma PutKnown(node: Node, v: Vote)
    requires v.tx in node.candidates
    ensures forall tx :: tx in PutVote(node, v).candidates <==> tx in node.candidates
  {
  }

  lemma VoteOnKeeps(net: Network, node: Node, tx: TxHash, o: OutPoint, mn: Masternode, env: Env)
    requires NodeInv(net, node) && tx in node.candidates
    ensures NodeInv(net, VoteOn(net, node, tx, o, mn, env).0) && tx in VoteOn(net, node, tx, o, mn, env).0.candidates
  {
    hide NodeInv; hide Quorum; hide PutVote; hide Countable;
    var v := Vote(tx, o, mn);
    if env.haveCoin(o) && mn in Quorum(net, o) && !AlreadyVoted(node, o, mn) && CanAdd(node.candidates[tx], v) {
      NotedKeeps(net, node, v);
      var w := node.(voted := node.voted[o := VotedFor(node.voted, o) + {tx}], seen := node.seen + {v});
      SeenKeeps(net, node.(voted := w.voted), w.seen);
      UnvotedCountable(net, node, v);
      PutVoteKeeps(net, w, v);
      PutKnown(w, v);
      PutCommutes(node.(seen := w.seen), w, v);
    } else {
      SeenKeeps(net, node, node.seen + {v});
    }
  }

  lemma SeenKeeps(net: Network, node: Node, seen: set<Vote>)
    requires NodeInv(net, node)
    ensures NodeInv(net, node.(seen := seen))
  {
  }

  lemma UnvotedCountable(net: Network, node: Node, v: Vote)
    requires NodeInv(net, node) && v.tx in node.candidates && v.mn in Quorum(net, v.outpoint)
    requires !AlreadyVoted(node, v.outpoint, v.mn)
    ensures Countable(net, node.(voted := node.voted[v.outpoint := VotedFor(node.voted, v.outpoint) + {v.tx}],
                                 seen := node.seen + {v}), v)
  {
    forall b ensures !Recorded(node.candidates, b, v.outpoint, v.mn) {
      assert Recorded(node.candidates, b, v.outpoint, v.mn) ==> b in VotedFor(node.voted, v.outpoint);
    }
  }

  lemma PutCommutes(a: Node, b: Node, v: Vote)
    requires b == a.(voted := b.voted) && v.tx in a.candidates
    ensures PutVote(a, v).(voted := b.voted) == PutVote(b, v)
  {
  }

  lemma {:induction false} VoteAllKeeps(net: Network, node: Node, tx: TxHash, order: seq<OutPoint>, mn: Masternode, env: Env)
    requires NodeInv(net, node) && tx in node.candidates
    ensures NodeInv(net, VoteAll(net, node, tx, order, mn, env).0)
    decreases order
  {
    hide NodeInv; hide VoteOn;
    if order != [] {
      VoteOnKeeps(net, node, tx, order[0], mn, env);
      var (w, _, goOn) := VoteOn(net, node, tx, order[0], mn, env);
      if goOn {
        VoteAllKeeps(net, w, tx, order[1..], mn, env);
      }
    }
  }

  lemma CastVotesKeeps(net: Network, node: Node, tx: TxHash, order: seq<OutPoint>, env: Env)
    requires NodeInv(net, node)
    ensures NodeInv(net, CastVotes(net, node, tx, order, env).0)
  {
    hide NodeInv; hide VoteAll; hide TryToFinalize;
    if tx in node.candidates {
      if env.self.Some? && env.enabled && tx in node.accepted {
        VoteAllKeeps(net, node, tx, order, env.self.value, env);
        var w := VoteAll(net, node, tx, order, env.self.value, env).0;
        if tx in w.candidates {
          TryToFinalizeKeeps(net, w, tx, env);
        }
      } else {
        TryToFinalizeKeeps(net, node, tx, env);
      }
    }
  }
}
