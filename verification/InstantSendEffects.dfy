/**
 What an InstantSend step does, said of votes, marks, locks, mempool and coins: when a lock is made,
 what a vote changes, what a node votes for, and that enough votes lock a transaction.
 */
module InstantSendEffects {
  import opened Common
  import opened InstantSendModel
  import opened InstantSendOps
  import opened InstantSendNetwork

  // ----- When a lock is made -----

  /** Six votes on every outpoint, no double vote seen on any. */
  ghost predicate EnoughVotes(c: Candidate) {
    c.locks != map[] && forall o :: o in c.locks ==> !c.locks[o].attacked && |c.locks[o].votes| >= 6
  }

  /** The surroundings allow a lock: no rival in the mempool, and mined or with all coins still there. */
  ghost predicate Allows(net: Network, tx: TxHash, env: Env) {
    && env.enabled
    && (forall o :: o in Inputs(net, tx) ==> env.mempool(o) == None || env.mempool(o) == Some(tx))
    && (env.mined(tx) || forall o :: o in Inputs(net, tx) ==> env.haveCoin(o))
  }

  ghost predicate AllLocked(net: Network, node: Node, tx: TxHash) {
    forall o :: o in Inputs(net, tx) ==> o in node.locked && node.locked[o] == tx
  }

  /** A candidate is locked exactly if it has enough votes and the surroundings allow it; nothing else changes. */
  lemma FinalizeLocks(net: Network, node: Node, tx: TxHash, env: Env)
    requires NodeInv(net, node) && tx in node.candidates
    ensures var r := TryToFinalize(net, node, tx, env);
            && r == node.(locked := r.locked)
            && (forall o :: o in node.locked ==> o in r.locked && r.locked[o] == node.locked[o])
            && (forall o :: o in r.locked && o !in node.locked ==> o in Inputs(net, tx) && r.locked[o] == tx)
            && (EnoughVotes(node.candidates[tx]) && Allows(net, tx, env) ==> AllLocked(net, r, tx))
            && (r != node ==> EnoughVotes(node.candidates[tx]) && Allows(net, tx, env))
  {
    hide VotedOk; hide DoubleVotesMarked; hide LockedOk;
    var c := node.candidates[tx];
    assert CandidateOk(net, tx, c);
    assert |c.locks| > 0 <==> c.locks != map[];
    if EnoughVotes(c) {
      assert c.IsAllOutPointsReady();
      NoRivalLocks(net, node, tx);
    }
    assert forall o :: o in net.vin(tx) <==> o in Inputs(net, tx);
  }

  lemma NoRivalLocks(net: Network, node: Node, tx: TxHash)
    requires NodeInv(net, node) && tx in node.candidates && node.candidates[tx].IsAllOutPointsReady()
    ensures forall o :: o in node.candidates[tx].locks && o in node.locked ==> node.locked[o] == tx
  {
    forall o | o in node.candidates[tx].locks && o in node.locked ensures node.locked[o] == tx {
      if node.locked[o] != tx {
        LockExcludes(net, node, o, tx);
      }
    }
  }

  // ----- What a vote changes -----

  /** A vote that counts: of a known masternode among the first ten for the outpoint, on an unspent coin, well signed. */
  ghost predicate Counts(net: Network, v: Vote, env: Env) {
    && env.known(v.mn) && env.haveCoin(v.outpoint) && env.signed(v)
    && exists rank :: 0 <= rank < 10 && rank < |net.ranking(v.outpoint)| && net.ranking(v.outpoint)[rank] == v.mn
  }

  lemma CountsValid(net: Network, v: Vote, env: Env)
    ensures Counts(net, v, env) <==> ValidVote(net, v, env)
  {
  }

  /** The request has arrived and its time is not over. */
  predicate Open(node: Node, tx: TxHash, env: Env) {
    tx in node.candidates && node.candidates[tx].request && !env.timedOut(tx)
  }

  lemma VoteRefused(net: Network, node: Node, v: Vote, env: Env)
    requires !Counts(net, v, env) || (v.tx in node.candidates && node.candidates[v.tx].request && env.timedOut(v.tx))
    ensures ProcessVote(net, node, v, env) == (node, false)
  {
    CountsValid(net, v, env);
  }

  /** The masternode voted for another transaction on the same outpoint. */
  ghost predicate DoubleVote(node: Node, v: Vote) {
    exists b :: b != v.tx && Recorded(node.candidates, b, v.outpoint, v.mn)
  }

  /** Same candidates with the same outpoints. */
  ghost predicate SameOutline(a: Candidates, r: Candidates) {
    && (forall tx :: tx in r <==> tx in a)
    && (forall tx :: tx in r ==> r[tx].request == a[tx].request)
    && (forall tx, o :: tx in r ==> (o in r[tx].locks <==> o in a[tx].locks))
  }

  /** Same votes but for `v`. */
  ghost predicate VoteJoins(a: Candidates, r: Candidates, v: Vote)
    requires SameOutline(a, r)
  {
    forall tx, o :: tx in r && o in r[tx].locks ==>
      r[tx].locks[o].votes == a[tx].locks[o].votes + if tx == v.tx && o == v.outpoint then {v.mn} else {}
  }

  /** A double vote marks both sides on the outpoint, and no mark is made otherwise. */
  ghost predicate MarksJoin(node: Node, r: Candidates, v: Vote)
    requires SameOutline(node.candidates, r)
  {
    forall tx, o :: tx in r && o in r[tx].locks ==>
      (r[tx].locks[o].attacked <==>
        || node.candidates[tx].locks[o].attacked
        || (o == v.outpoint && DoubleVote(node, v) && (tx == v.tx || Recorded(node.candidates, tx, o, v.mn))))
  }

  /** The candidates that a double vote of `v` marks. */
  ghost predicate Marked(node: Node, v: Vote, tx: TxHash) {
    DoubleVote(node, v) && (tx == v.tx || Recorded(node.candidates, tx, v.outpoint, v.mn))
  }

  lemma NoteCandidates(net: Network, node: Node, v: Vote)
    requires NodeInv(net, node) && v.tx in node.candidates
    ensures var w := NoteVote(node, v).candidates;
            && (forall tx :: tx in w <==> tx in node.candidates)
            && (forall tx :: tx in w ==>
                  w[tx] == if Marked(node, v, tx) then node.candidates[tx].MarkAttacked(v.outpoint) else node.candidates[tx])
  {
    RivalsExactly(net, node, v);
    hide NodeInv; hide MarkAll; hide Rivals; hide Recorded;
    var rivals := Rivals(node, v);
    if DoubleVote(node, v) {
      var b :| b != v.tx && Recorded(node.candidates, b, v.outpoint, v.mn);
      assert b in rivals;
    } else {
      assert forall b :: b !in rivals;
      assert rivals == {};
    }
  }

  lemma MarkedOutline(node: Node, w: Candidates, v: Vote)
    requires forall tx :: tx in w <==> tx in node.candidates
    requires forall tx :: tx in w ==>
               w[tx] == if Marked(node, v, tx) then node.candidates[tx].MarkAttacked(v.outpoint) else node.candidates[tx]
    ensures SameOutline(node.candidates, w) && MarksJoin(node, w, v)
    ensures forall tx, o :: tx in w && o in w[tx].locks ==> w[tx].locks[o].votes == node.candidates[tx].locks[o].votes
  {
    hide DoubleVote; hide Recorded;
  }

  lemma NoteEffect(net: Network, node: Node, v: Vote)
    requires NodeInv(net, node) && v.tx in node.candidates
    ensures var w := NoteVote(node, v);
            && SameOutline(node.candidates, w.candidates) && MarksJoin(node, w.candidates, v)
            && (forall tx, o :: tx in w.candidates && o in w.candidates[tx].locks ==>
                  w.candidates[tx].locks[o].votes == node.candidates[tx].locks[o].votes)
            && w == node.(candidates := w.candidates, voted := node.voted[v.outpoint := VotedFor(node.voted, v.outpoint) + {v.tx}])
  {
    NoteCandidates(net, node, v);
    hide NodeInv; hide MarkAll; hide Rivals; hide Marked; hide SameOutline; hide MarksJoin;
    MarkedOutline(node, NoteVote(node, v).candidates, v);
  }

  lemma RivalsExactly(net: Network, node: Node, v: Vote)
    requires NodeInv(net, node)
    ensures forall tx :: tx in Rivals(node, v) <==> tx != v.tx && Recorded(node.candidates, tx, v.outpoint, v.mn)
  {
  }

  lemma PutEffect(node: Node, v: Vote)
    requires v.tx in node.candidates
    ensures var w := PutVote(node, v);
            && SameOutline(node.candidates, w.candidates) && VoteJoins(node.candidates, w.candidates, v)
            && (forall tx, o :: tx in w.candidates && o in w.candidates[tx].locks ==>
                  w.candidates[tx].locks[o].attacked == node.candidates[tx].locks[o].attacked)
            && w == node.(candidates := w.candidates)
  {
  }

  lemma VoteProcessed(net: Network, node: Node, v: Vote, env: Env)
    requires NodeInv(net, node) && Counts(net, v, env) && Open(node, v.tx, env)
    ensures var (r, ok) := ProcessVote(net, node, v, env); var c := node.candidates[v.tx];
            && SameOutline(node.candidates, r.candidates) && VoteJoins(node.candidates, r.candidates, v)
            && MarksJoin(node, r.candidates, v)
            && (ok <==> v.outpoint in c.locks && v.mn !in c.locks[v.outpoint].votes)
            && r == node.(candidates := r.candidates, locked := r.locked,
                          voted := node.voted[v.outpoint := VotedFor(node.voted, v.outpoint) + {v.tx}])
            && (!ok ==> r.locked == node.locked)
            && (ok ==> NodeInv(net, r.(locked := node.locked)) && r == TryToFinalize(net, r.(locked := node.locked), v.tx, env))
  {
    hide NodeInv; hide NoteVote; hide PutVote; hide TryToFinalize; hide Counts; hide Quorum; hide Countable;
    hide SameOutline; hide VoteJoins; hide MarksJoin;
    CountsValid(net, v, env);
    NoteEffect(net, node, v);
    NoteVoteKeeps(net, node, v);
    NotedCountable(net, node, v);
    NotedKnown(node, v);
    var w := NoteVote(node, v);
    PutEffect(w, v);
    PutVoteKeeps(net, w, v);
    PutKnown(w, v);
    var p := PutVote(w, v);
    VoteComposed(node, w.candidates, p.candidates, v);
    FinalizeFrame(net, p, v.tx, env);
  }

  lemma FinalizeFrame(net: Network, node: Node, tx: TxHash, env: Env)
    requires tx in node.candidates
    ensures var r := TryToFinalize(net, node, tx, env); r == node.(locked := r.locked)
  {
  }

  lemma VoteComposed(node: Node, w: Candidates, p: Candidates, v: Vote)
    requires SameOutline(node.candidates, w) && MarksJoin(node, w, v)
    requires forall tx, o :: tx in w && o in w[tx].locks ==> w[tx].locks[o].votes == node.candidates[tx].locks[o].votes
    requires SameOutline(w, p) && VoteJoins(w, p, v)
    requires forall tx, o :: tx in p && o in p[tx].locks ==> p[tx].locks[o].attacked == w[tx].locks[o].attacked
    ensures SameOutline(node.candidates, p) && VoteJoins(node.candidates, p, v) && MarksJoin(node, p, v)
    ensures v.tx in node.candidates ==> v.tx in w && (CanAdd(w[v.tx], v) <==> CanAdd(node.candidates[v.tx], v))
    ensures v.tx in node.candidates && !CanAdd(w[v.tx], v) ==> VoteJoins(node.candidates, w, v)
  {
    hide DoubleVote; hide Recorded;
  }

  /** `r` has the locks of `a`, and new ones only on inputs of `tx`, for `tx`. */
  ghost predicate LocksJoin(net: Network, a: Node, r: Node, tx: TxHash) {
    && (forall o :: o in a.locked ==> o in r.locked && r.locked[o] == a.locked[o])
    && (forall o :: o in r.locked && o !in a.locked ==> o in Inputs(net, tx) && r.locked[o] == tx)
  }

  /**
   A vote on an open candidate joins the votes, marks double votes, and is taken exactly if it is new.
   Taken, it locks the transaction exactly if it makes the votes complete and the surroundings allow it.
   */
  lemma VoteRecorded(net: Network, node: Node, v: Vote, env: Env)
    requires NodeInv(net, node) && Counts(net, v, env) && Open(node, v.tx, env)
    ensures var (r, ok) := ProcessVote(net, node, v, env); var c := node.candidates[v.tx];
            && SameOutline(node.candidates, r.candidates) && VoteJoins(node.candidates, r.candidates, v)
            && MarksJoin(node, r.candidates, v) && LocksJoin(net, node, r, v.tx)
            && (ok <==> v.outpoint in c.locks && v.mn !in c.locks[v.outpoint].votes)
            && r == node.(candidates := r.candidates, locked := r.locked,
                          voted := node.voted[v.outpoint := VotedFor(node.voted, v.outpoint) + {v.tx}])
            && v.tx in r.candidates
            && (ok && EnoughVotes(r.candidates[v.tx]) && Allows(net, v.tx, env) ==> AllLocked(net, r, v.tx))
            && (r.locked != node.locked ==> ok && EnoughVotes(r.candidates[v.tx]) && Allows(net, v.tx, env))
  {
    hide NodeInv; hide ProcessVote; hide TryToFinalize; hide Counts; hide VoteJoins; hide MarksJoin; hide EnoughVotes;
    hide Allows; hide AllLocked;
    VoteProcessed(net, node, v, env);
    var (r, ok) := ProcessVote(net, node, v, env);
    if ok {
      FinalizeLocks(net, r.(locked := node.locked), v.tx, env);
    }
  }

  /** The vote that completes the last outpoint locks the transaction. */
  lemma LastVoteLocks(net: Network, node: Node, v: Vote, env: Env)
    requires NodeInv(net, node) && Counts(net, v, env) && Open(node, v.tx, env) && Allows(net, v.tx, env)
    requires !DoubleVote(node, v)
    requires var locks := node.candidates[v.tx].locks;
             && v.outpoint in locks && v.mn !in locks[v.outpoint].votes && |locks[v.outpoint].votes| >= 5
             && (forall o :: o in locks ==> !locks[o].attacked && (o != v.outpoint ==> |locks[o].votes| >= 6))
    ensures var (r, ok) := ProcessVote(net, node, v, env); ok && AllLocked(net, r, v.tx)
  {
    hide NodeInv; hide ProcessVote; hide Counts; hide Allows; hide AllLocked; hide DoubleVote; hide VoteJoins; hide MarksJoin;
    hide EnoughVotes; hide LocksJoin;
    VoteRecorded(net, node, v, env);
    LastVoteCounts(node, ProcessVote(net, node, v, env).0.candidates, v);
  }

  lemma LastVoteCounts(node: Node, r: Candidates, v: Vote)
    requires v.tx in node.candidates && !DoubleVote(node, v)
    requires SameOutline(node.candidates, r) && VoteJoins(node.candidates, r, v) && MarksJoin(node, r, v)
    requires var locks := node.candidates[v.tx].locks;
             && v.outpoint in locks && v.mn !in locks[v.outpoint].votes && |locks[v.outpoint].votes| >= 5
             && (forall o :: o in locks ==> !locks[o].attacked && (o != v.outpoint ==> |locks[o].votes| >= 6))
    ensures EnoughVotes(r[v.tx])
  {
    hide DoubleVote; hide Recorded;
    var locks := node.candidates[v.tx].locks;
    var votes := locks[v.outpoint].votes;
    assert |votes + {v.mn}| == |votes| + 1;
    forall o | o in r[v.tx].locks ensures !r[v.tx].locks[o].attacked && |r[v.tx].locks[o].votes| >= 6 {
      assert locks[o].votes + {} == locks[o].votes;
    }
    assert v.outpoint in r[v.tx].locks;
  }

  // ----- Enough votes lock a transaction -----

  /** The votes arrive one after the other. */
  ghost function ReceiveAll(net: Network, node: Node, votes: seq<Vote>, env: Env): Node
    decreases votes
  {
    if votes == [] then node else ReceiveAll(net, ReceiveVote(net, node, votes[0], env), votes[1..], env)
  }

  /** A candidate with a lock per input, no double vote seen and no vote for a rival. */
  ghost predicate Unopposed(net: Network, node: Node, tx: TxHash) {
    && tx in node.candidates && node.candidates[tx].locks != map[]
    && (forall o :: o in node.candidates[tx].locks ==> !node.candidates[tx].locks[o].attacked)
    && (forall b, o, mn :: b != tx && o in node.candidates[tx].locks ==> !Recorded(node.candidates, b, o, mn))
  }

  function VotersOn(votes: seq<Vote>, o: OutPoint): set<Masternode> {
    set i | 0 <= i < |votes| && votes[i].outpoint == o :: votes[i].mn
  }

  /** Votes for `tx` that count, each new to the node. */
  ghost predicate Arriving(net: Network, node: Node, tx: TxHash, votes: seq<Vote>, env: Env)
    requires tx in node.candidates
  {
    && (forall i :: 0 <= i < |votes| ==>
          && votes[i].tx == tx && Counts(net, votes[i], env) && votes[i].outpoint in node.candidates[tx].locks
          && votes[i] !in node.seen)
    && (forall i, j :: 0 <= i < j < |votes| ==> votes[i] != votes[j])
  }

  /** Together with those already there the votes suffice. */
  ghost predicate Suffice(node: Node, tx: TxHash, votes: seq<Vote>)
    requires tx in node.candidates
  {
    forall o :: o in node.candidates[tx].locks ==> |node.candidates[tx].locks[o].votes + VotersOn(votes, o)| >= 6
  }

  /** The transaction is locked, or still waits for votes. */
  ghost predicate Settled(net: Network, node: Node, tx: TxHash) {
    tx in node.candidates && (AllLocked(net, node, tx) || !EnoughVotes(node.candidates[tx]))
  }

  lemma OneProcessed(net: Network, node: Node, v: Vote, env: Env)
    requires NodeInv(net, node) && Unopposed(net, node, v.tx) && Open(node, v.tx, env) && Allows(net, v.tx, env)
    requires Counts(net, v, env) && v.outpoint in node.candidates[v.tx].locks && Settled(net, node, v.tx)
    ensures var (w, ok) := ProcessVote(net, node, v, env);
            && NodeInv(net, w) && Unopposed(net, w, v.tx) && Open(w, v.tx, env) && Settled(net, w, v.tx)
            && w.seen == node.seen && w.orphans == node.orphans
            && SameOutline(node.candidates, w.candidates) && VoteJoins(node.candidates, w.candidates, v)
            && (ok <==> v.mn !in node.candidates[v.tx].locks[v.outpoint].votes)
  {
    hide NodeInv; hide ProcessVote; hide Counts; hide Allows; hide VoteJoins; hide MarksJoin; hide EnoughVotes; hide Unopposed;
    VoteRecorded(net, node, v, env);
    ProcessVoteKeeps(net, node, v, env);
    var (w, ok) := ProcessVote(net, node, v, env);
    StillUnopposed(net, node, w.candidates, v);
    UnopposedSame(net, node.(candidates := w.candidates), w, v.tx);
    if !ok {
      SameVotesSameCount(node.candidates, w, node, v);
    }
  }

  lemma OneArrives(net: Network, node: Node, v: Vote, env: Env)
    requires NodeInv(net, node) && Unopposed(net, node, v.tx) && Open(node, v.tx, env) && Allows(net, v.tx, env)
    requires Counts(net, v, env) && v.outpoint in node.candidates[v.tx].locks && v !in node.seen && Settled(net, node, v.tx)
    ensures var w := ReceiveVote(net, node, v, env);
            && NodeInv(net, w) && Unopposed(net, w, v.tx) && Open(w, v.tx, env) && Settled(net, w, v.tx)
            && w.seen == node.seen + {v}
            && SameOutline(node.candidates, w.candidates) && VoteJoins(node.candidates, w.candidates, v)
  {
    hide NodeInv; hide ProcessVote; hide Counts; hide Allows; hide VoteJoins; hide EnoughVotes; hide Unopposed;
    var s := node.(seen := node.seen + {v});
    SeenKeeps(net, node, s.seen);
    UnopposedSame(net, node, s, v.tx);
    OneProcessed(net, s, v, env);
  }

  lemma UnopposedSame(net: Network, a: Node, b: Node, tx: TxHash)
    requires Unopposed(net, a, tx) && b.candidates == a.candidates
    ensures Unopposed(net, b, tx)
  {
  }

  lemma StillUnopposed(net: Network, node: Node, r: Candidates, v: Vote)
    requires Unopposed(net, node, v.tx) && v.outpoint in node.candidates[v.tx].locks
    requires SameOutline(node.candidates, r) && VoteJoins(node.candidates, r, v) && MarksJoin(node, r, v)
    ensures Unopposed(net, node.(candidates := r), v.tx)
  {
    assert !DoubleVote(node, v);
    assert v.outpoint in r[v.tx].locks;
    forall b, o, mn | b != v.tx && o in r[v.tx].locks ensures !Recorded(r, b, o, mn) {
      assert !Recorded(node.candidates, b, o, mn);
      if b in r && o in r[b].locks {
        assert r[b].locks[o].votes == node.candidates[b].locks[o].votes + {};
      }
    }
  }

  /** A vote that was there already adds nothing. */
  lemma SameVotesSameCount(a: Candidates, w: Node, node: Node, v: Vote)
    requires a == node.candidates && v.tx in a && v.outpoint in a[v.tx].locks && v.mn in a[v.tx].locks[v.outpoint].votes
    requires SameOutline(a, w.candidates) && VoteJoins(a, w.candidates, v) && MarksJoin(node, w.candidates, v)
    ensures EnoughVotes(w.candidates[v.tx]) ==> EnoughVotes(a[v.tx])
  {
    hide DoubleVote; hide Recorded;
    var r := w.candidates[v.tx].locks;
    forall o | o in a[v.tx].locks ensures o in r && r[o].votes == a[v.tx].locks[o].votes {
      assert r[o].votes == a[v.tx].locks[o].votes + if o == v.outpoint then {v.mn} else {};
    }
    assert v.outpoint in r;
  }

  lemma VotersRest(votes: seq<Vote>, o: OutPoint)
    requires votes != []
    ensures VotersOn(votes, o) == (if votes[0].outpoint == o then {votes[0].mn} else {}) + VotersOn(votes[1..], o)
  {
    forall mn | mn in VotersOn(votes, o)
      ensures mn in (if votes[0].outpoint == o then {votes[0].mn} else {}) + VotersOn(votes[1..], o)
    {
      var i :| 0 <= i < |votes| && votes[i].outpoint == o && votes[i].mn == mn;
      if i > 0 {
        assert votes[1..][i - 1] == votes[i];
      }
    }
    forall mn | mn in VotersOn(votes[1..], o) ensures mn in VotersOn(votes, o) {
      var i :| 0 <= i < |votes[1..]| && votes[1..][i].outpoint == o && votes[1..][i].mn == mn;
      assert votes[i + 1].outpoint == o && votes[i + 1].mn == mn;
    }
  }

  lemma RestSuffices(node: Node, w: Node, tx: TxHash, votes: seq<Vote>)
    requires votes != [] && votes[0].tx == tx && tx in node.candidates && Suffice(node, tx, votes)
    requires SameOutline(node.candidates, w.candidates) && VoteJoins(node.candidates, w.candidates, votes[0])
    ensures Suffice(w, tx, votes[1..])
  {
    hide VotersOn;
    forall o | o in w.candidates[tx].locks ensures |w.candidates[tx].locks[o].votes + VotersOn(votes[1..], o)| >= 6 {
      VotersRest(votes, o);
      assert w.candidates[tx].locks[o].votes + VotersOn(votes[1..], o)
          == node.candidates[tx].locks[o].votes + VotersOn(votes, o);
    }
  }

  /**
   Six votes for every input lock the transaction, in whatever order they arrive and whichever were
   there before, if nobody voted for a rival and the surroundings stay favourable.
   */
  lemma {:induction false} EnoughVotesLock(net: Network, node: Node, tx: TxHash, votes: seq<Vote>, env: Env)
    requires NodeInv(net, node) && Unopposed(net, node, tx) && Open(node, tx, env) && Allows(net, tx, env)
    requires Arriving(net, node, tx, votes, env) && Suffice(node, tx, votes) && Settled(net, node, tx)
    ensures AllLocked(net, ReceiveAll(net, node, votes, env), tx)
    decreases votes
  {
    hide NodeInv; hide ReceiveVote; hide Counts; hide Allows; hide AllLocked; hide VoteJoins; hide VotersOn;
    if votes == [] {
      NothingMissing(net, node, tx);
    } else {
      hide EnoughVotes; hide Unopposed; hide Suffice; hide Settled;
      OneArrives(net, node, votes[0], env);
      var w := ReceiveVote(net, node, votes[0], env);
      RestSuffices(node, w, tx, votes);
      EnoughVotesLock(net, w, tx, votes[1..], env);
    }
  }

  lemma NothingMissing(net: Network, node: Node, tx: TxHash)
    requires Unopposed(net, node, tx) && Suffice(node, tx, [])
    ensures EnoughVotes(node.candidates[tx])
  {
    hide Recorded; hide VotersOn;
    forall o | o in node.candidates[tx].locks ensures |node.candidates[tx].locks[o].votes| >= 6 {
      NoVoters(node.candidates[tx].locks[o].votes, o);
    }
  }

  lemma NoVoters(votes: set<Masternode>, o: OutPoint)
    ensures votes + VotersOn([], o) == votes
  {
  }

  /** Votes for `tx` that count and wait among the orphans. */
  ghost predicate Waiting(net: Network, node: Node, tx: TxHash, votes: seq<Vote>, env: Env)
    requires tx in node.candidates
  {
    forall i :: 0 <= i < |votes| ==>
      votes[i].tx == tx && Counts(net, votes[i], env) && votes[i].outpoint in node.candidates[tx].locks
  }

  lemma ReprocessOne(net: Network, node: Node, v: Vote, env: Env) returns (w: Node)
    requires NodeInv(net, node) && Unopposed(net, node, v.tx) && Open(node, v.tx, env) && Allows(net, v.tx, env)
    requires Counts(net, v, env) && v.outpoint in node.candidates[v.tx].locks && Settled(net, node, v.tx)
    ensures forall more: seq<Vote> :: Reprocess(net, node, [v] + more, env) == Reprocess(net, w, more, env)
    ensures NodeInv(net, w) && Unopposed(net, w, v.tx) && Open(w, v.tx, env) && Settled(net, w, v.tx)
    ensures SameOutline(node.candidates, w.candidates) && VoteJoins(node.candidates, w.candidates, v)
    ensures w.orphans ==
            if v.mn in node.candidates[v.tx].locks[v.outpoint].votes then node.orphans else node.orphans - {v}
  {
    hide NodeInv; hide ProcessVote; hide Counts; hide Allows; hide VoteJoins; hide EnoughVotes; hide Unopposed;
    OneProcessed(net, node, v, env);
    var (p, ok) := ProcessVote(net, node, v, env);
    w := if ok then p.(orphans := p.orphans - {v}) else p;
    OrphansKeep(net, p, w.orphans);
    UnopposedSame(net, p, w, v.tx);
    forall more: seq<Vote> ensures Reprocess(net, node, [v] + more, env) == Reprocess(net, w, more, env) {
      assert ([v] + more)[0] == v && ([v] + more)[1..] == more;
    }
  }

  /** Votes that came before the request lock the transaction just as well, once they are looked at again. */
  lemma {:induction false} EarlyVotesLock(net: Network, node: Node, tx: TxHash, votes: seq<Vote>, env: Env)
    requires NodeInv(net, node) && Unopposed(net, node, tx) && Open(node, tx, env) && Allows(net, tx, env)
    requires Waiting(net, node, tx, votes, env) && Suffice(node, tx, votes) && Settled(net, node, tx)
    ensures AllLocked(net, Reprocess(net, node, votes, env), tx)
    decreases votes
  {
    hide NodeInv; hide Counts; hide Allows; hide AllLocked; hide VoteJoins; hide VotersOn; hide ProcessVote;
    if votes == [] {
      NothingMissing(net, node, tx);
    } else {
      hide EnoughVotes; hide Unopposed; hide Suffice; hide Settled; hide Reprocess;
      var w := ReprocessOne(net, node, votes[0], env);
      RestSuffices(node, w, tx, votes);
      assert votes == [votes[0]] + votes[1..];
      EarlyVotesLock(net, w, tx, votes[1..], env);
    }
  }

  // ----- Requests and early votes -----

  /** One lock per input, without votes. */
  ghost predicate Untouched(net: Network, tx: TxHash, c: Candidate) {
    c.request && c.locks.Keys == Inputs(net, tx) && forall o :: o in c.locks ==> c.locks[o] == Lock({}, false)
  }

  /** The first valid request opens a candidate with a lock per input; one that comes too late opens none. */
  lemma RequestOpens(net: Network, node: Node, tx: TxHash, env: Env)
    requires NodeInv(net, node)
    ensures var (r, ok) := ProcessRequest(net, node, tx, env);
            var first := tx !in node.candidates || !node.candidates[tx].request;
            && r == node.(candidates := r.candidates, locked := r.locked) && LocksJoin(net, node, r, tx)
            && (forall b :: b != tx ==> (b in r.candidates <==> b in node.candidates))
            && (forall b :: b != tx && b in r.candidates ==> r.candidates[b] == node.candidates[b])
            && (!env.validRequest(tx) ==> r == node && !ok)
            && (env.validRequest(tx) ==> tx in r.candidates && r.candidates[tx].request)
            && (env.validRequest(tx) && tx in node.candidates && first && env.timedOut(tx) ==>
                  !ok && r.candidates[tx].locks == map[] && r.locked == node.locked)
            && (env.validRequest(tx) && (tx in node.candidates && first ==> !env.timedOut(tx)) ==> ok)
            && (ok && first ==> Untouched(net, tx, r.candidates[tx]) && r.locked == node.locked)
            && (ok && !first ==> r.candidates == node.candidates)
            && (ok && EnoughVotes(r.candidates[tx]) && Allows(net, tx, env) ==> AllLocked(net, r, tx))
            && (r.locked != node.locked ==> ok && EnoughVotes(r.candidates[tx]) && Allows(net, tx, env))
  {
    hide VotedOk; hide DoubleVotesMarked; hide LockedOk; hide TryToFinalize; hide Allows; hide AllLocked;
    assert tx in node.candidates ==> CandidateOk(net, tx, node.candidates[tx]);
    CreateCandidateKeeps(net, node, tx, env);
    var (w, ok) := CreateCandidate(net, node, tx, env);
    assert env.validRequest(tx) && tx !in node.candidates ==> w.candidates[tx].locks.Keys == Inputs(net, tx);
    if ok {
      FinalizeLocks(net, w, tx, env);
    }
  }

  /** Six orphan votes on every input of a transaction whose request the mempool has judged. */
  ghost predicate OrphansSuffice(net: Network, node: Node, tx: TxHash, orphans: set<Vote>) {
    && (tx in node.accepted || tx in node.rejected)
    && forall o :: o in Inputs(net, tx) ==> |set u | u in orphans && u.tx == tx && u.outpoint == o| >= 6
  }

  /** A vote that comes before its request waits, until there are enough to ask for the request again. */
  lemma EarlyVoteWaits(net: Network, node: Node, v: Vote, env: Env)
    requires NodeInv(net, node) && Counts(net, v, env)
    requires v.tx in node.candidates ==> !node.candidates[v.tx].request
    ensures var (r, ok) := ProcessVote(net, node, v, env); var orphans := node.orphans + {v};
            && (v in node.orphans ==> r == node && ok == !env.spamming)
            && (v !in node.orphans ==>
                  && r.orphans == orphans && v.tx in r.candidates && r.locked == node.locked
                  && (forall b :: b != v.tx && b in node.candidates ==> b in r.candidates && r.candidates[b] == node.candidates[b])
                  && if OrphansSuffice(net, node, v.tx, orphans) && env.validRequest(v.tx)
                     then ok && r.candidates[v.tx].request && (!env.timedOut(v.tx) ==> Untouched(net, v.tx, r.candidates[v.tx]))
                     else r.candidates[v.tx] == Candidate(false, map[]))
            && (!OrphansSuffice(net, node, v.tx, orphans) ==> ok == !env.spamming)
  {
    hide VotedOk; hide DoubleVotesMarked; hide LockedOk; hide ProcessRequest; hide Counts; hide EnoughOrphans; hide OrphansSuffice;
    CountsValid(net, v, env);
    if v !in node.orphans {
      assert v.tx in node.candidates ==> CandidateOk(net, v.tx, node.candidates[v.tx]);
      var w := CreateEmpty(node, v.tx).(orphans := node.orphans + {v});
      EmptyKeeps(net, node, v.tx);
      OrphansKeep(net, CreateEmpty(node, v.tx), w.orphans);
      OrphansCounted(net, node, w, v.tx);
      EarlyRequest(net, w, v.tx, env);
    } else {
      assert node.orphans + {v} == node.orphans;
      EnoughAlready(net, node, v, env);
    }
  }

  lemma EnoughAlready(net: Network, node: Node, v: Vote, env: Env)
    requires v in node.orphans
    ensures ProcessOrphan(net, node, v, env) == (node, !env.spamming)
  {
  }

  lemma OrphansCounted(net: Network, node: Node, w: Node, tx: TxHash)
    requires w.accepted == node.accepted && w.rejected == node.rejected
    ensures OrphansSuffice(net, node, tx, w.orphans) <==>
            (tx in w.accepted || tx in w.rejected) && EnoughOrphans(net, w, tx)
  {
    assert forall o :: o in net.vin(tx) <==> o in Inputs(net, tx);
    forall o ensures OrphanVoters(w, tx, o) == set u | u in w.orphans && u.tx == tx && u.outpoint == o {
    }
  }

  lemma EarlyRequest(net: Network, w: Node, tx: TxHash, env: Env)
    requires NodeInv(net, w) && tx in w.candidates && !w.candidates[tx].request
    ensures var r := ProcessRequest(net, w, tx, env).0;
            && r == w.(candidates := r.candidates) && tx in r.candidates
            && (forall b :: b != tx && b in w.candidates ==> b in r.candidates && r.candidates[b] == w.candidates[b])
            && (if env.validRequest(tx) then r.candidates[tx].request && (!env.timedOut(tx) ==> Untouched(net, tx, r.candidates[tx]))
                else r.candidates[tx] == w.candidates[tx])
            && w.candidates[tx] == Candidate(false, map[])
  {
    hide VotedOk; hide DoubleVotesMarked; hide LockedOk; hide ProcessRequest; hide Allows; hide AllLocked; hide LocksJoin;
    assert CandidateOk(net, tx, w.candidates[tx]);
    RequestOpens(net, w, tx, env);
  }

  // ----- Casting votes -----

  /** `mn` votes on `o`: it ranks among the first ten and has not voted there for any transaction. */
  ghost predicate Due(net: Network, node: Node, o: OutPoint, mn: Masternode) {
    mn in Quorum(net, o) && forall b :: !Recorded(node.candidates, b, o, mn)
  }

  /** The votes of `out` joined, all of them by `mn`; marks stay. */
  ghost predicate CastJoins(a: Candidates, r: Candidates, out: set<Vote>, mn: Masternode) {
    && SameOutline(a, r)
    && forall tx, o :: tx in r && o in r[tx].locks ==>
         && r[tx].locks[o].attacked == a[tx].locks[o].attacked
         && r[tx].locks[o].votes == a[tx].locks[o].votes + if Vote(tx, o, mn) in out then {mn} else {}
  }

  lemma VoteOnEffect(net: Network, node: Node, tx: TxHash, o: OutPoint, mn: Masternode, env: Env)
    requires NodeInv(net, node) && tx in node.candidates && o in node.candidates[tx].locks
    ensures var (w, out, goOn) := VoteOn(net, node, tx, o, mn, env);
            && out == (if env.haveCoin(o) && Due(net, node, o, mn) && env.canSign then {Vote(tx, o, mn)} else {})
            && (goOn <==> env.haveCoin(o) && (Due(net, node, o, mn) ==> env.canSign))
            && CastJoins(node.candidates, w.candidates, out, mn)
            && w.locked == node.locked && w.orphans == node.orphans && w.accepted == node.accepted && w.rejected == node.rejected
  {
    hide CandidatesOk; hide DoubleVotesMarked; hide LockedOk; hide Quorum; hide PutVote;
    var v := Vote(tx, o, mn);
    assert AlreadyVoted(node, o, mn) <==> exists b :: Recorded(node.candidates, b, o, mn);
    assert !Recorded(node.candidates, tx, o, mn) ==> CanAdd(node.candidates[tx], v);
    PutEffect(node.(seen := node.seen + {v}), v);
  }

  lemma {:induction false} VoteAllEffect(net: Network, node: Node, tx: TxHash, order: seq<OutPoint>, mn: Masternode, env: Env)
    requires NodeInv(net, node) && tx in node.candidates && env.canSign
    requires forall i :: 0 <= i < |order| ==> order[i] in node.candidates[tx].locks && env.haveCoin(order[i])
    requires forall i, j :: 0 <= i < j < |order| ==> order[i] != order[j]
    ensures var (w, out) := VoteAll(net, node, tx, order, mn, env);
            && CastJoins(node.candidates, w.candidates, out, mn) && w.locked == node.locked
            && (forall v :: v in out <==> v.tx == tx && v.mn == mn && v.outpoint in order && Due(net, node, v.outpoint, mn))
    decreases order
  {
    hide NodeInv; hide VoteOn; hide Quorum; hide Recorded; hide CastJoins;
    if order == [] {
      CastNothing(node.candidates, mn);
    } else {
      VoteOnEffect(net, node, tx, order[0], mn, env);
      VoteOnKeeps(net, node, tx, order[0], mn, env);
      var (w, out, goOn) := VoteOn(net, node, tx, order[0], mn, env);
      CastOutline(node.candidates, w.candidates, out, mn);
      VoteAllEffect(net, w, tx, order[1..], mn, env);
      var (w', out') := VoteAll(net, w, tx, order[1..], mn, env);
      CastTwice(node.candidates, w.candidates, w'.candidates, out, out', mn);
      forall o | o in order[1..] ensures Due(net, w, o, mn) <==> Due(net, node, o, mn) {
        DueKept(net, node, w, out, o, mn);
      }
      assert forall o :: o in order <==> o == order[0] || o in order[1..];
    }
  }

  lemma CastNothing(a: Candidates, mn: Masternode)
    ensures CastJoins(a, a, {}, mn)
  {
  }

  lemma CastOutline(a: Candidates, r: Candidates, out: set<Vote>, mn: Masternode)
    requires CastJoins(a, r, out, mn)
    ensures SameOutline(a, r)
  {
  }

  lemma CastTwice(a: Candidates, b: Candidates, c: Candidates, out: set<Vote>, out': set<Vote>, mn: Masternode)
    requires CastJoins(a, b, out, mn) && CastJoins(b, c, out', mn)
    ensures CastJoins(a, c, out + out', mn)
  {
  }

  lemma DueKept(net: Network, node: Node, w: Node, out: set<Vote>, o: OutPoint, mn: Masternode)
    requires CastJoins(node.candidates, w.candidates, out, mn) && forall v :: v in out ==> v.outpoint != o
    ensures Due(net, w, o, mn) <==> Due(net, node, o, mn)
  {
    hide Quorum;
    forall b ensures Recorded(w.candidates, b, o, mn) <==> Recorded(node.candidates, b, o, mn) {
      if b in w.candidates && o in w.candidates[b].locks {
        assert Vote(b, o, mn) !in out;
        assert w.candidates[b].locks[o].votes == node.candidates[b].locks[o].votes + {};
      }
    }
  }

  /**
   A masternode with all coins at hand casts exactly the votes that are due on the candidate's
   outpoints; they are recorded, and lock the transaction if they complete it.
   */
  lemma CastExactly(net: Network, node: Node, tx: TxHash, order: seq<OutPoint>, mn: Masternode, env: Env)
    requires NodeInv(net, node) && tx in node.candidates && tx in node.accepted
    requires env.self == Some(mn) && env.enabled && env.canSign && Enumerates(order, node.candidates[tx].locks.Keys)
    requires forall o :: o in node.candidates[tx].locks ==> env.haveCoin(o)
    ensures var (r, out) := CastVotes(net, node, tx, order, env);
            && (forall v :: v in out <==>
                  v.tx == tx && v.mn == mn && v.outpoint in node.candidates[tx].locks && Due(net, node, v.outpoint, mn))
            && CastJoins(node.candidates, r.candidates, out, mn) && LocksJoin(net, node, r, tx) && tx in r.candidates
            && (EnoughVotes(r.candidates[tx]) && Allows(net, tx, env) ==> AllLocked(net, r, tx))
            && (r.locked != node.locked ==> EnoughVotes(r.candidates[tx]) && Allows(net, tx, env))
  {
    hide NodeInv; hide VoteAll; hide TryToFinalize; hide Due; hide CastJoins; hide Allows; hide AllLocked; hide EnoughVotes;
    VoteAllEffect(net, node, tx, order, mn, env);
    VoteAllKeeps(net, node, tx, order, mn, env);
    var (w, out) := VoteAll(net, node, tx, order, mn, env);
    CastOutline(node.candidates, w.candidates, out, mn);
    FinalizeLocks(net, w, tx, env);
  }

  /** Without a masternode, the spork or an accepted request nothing is cast. */
  lemma CastNone(net: Network, node: Node, tx: TxHash, order: seq<OutPoint>, env: Env)
    requires env.self == None || !env.enabled || tx !in node.accepted
    ensures var (r, out) := CastVotes(net, node, tx, order, env); out == {} && r.candidates == node.candidates
  {
  }
}
