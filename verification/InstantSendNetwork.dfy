/** A network of InstantSend nodes: every run without expiry keeps the locks of all nodes compatible. */
module InstantSendNetwork {
  import opened Common
  import opened InstantSendModel
  import opened InstantSendOps

  // ----- Steps of one node -----

  datatype Op =
    | Receive(v: Vote)
    | Request(tx: TxHash)
    | Cast(tx: TxHash, order: seq<OutPoint>)
    | Accept(tx: TxHash)
    | Reject(tx: TxHash)
    | ReprocessOrphans(votes: seq<Vote>)

  /** CInstantSend::ProcessMessage for a vote: each vote is looked at once. */
  ghost function ReceiveVote(net: Network, node: Node, v: Vote, env: Env): (r: Node) {
    if v in node.seen then node
    else ProcessVote(net, node.(seen := node.seen + {v}), v, env).0
  }

  /** ProcessOrphanTxLockVotes: a vote that was processed leaves the orphans. */
  ghost function Reprocess(net: Network, node: Node, votes: seq<Vote>, env: Env): (r: Node)
    decreases votes
  {
    if votes == [] then node
    else
      var (w, done) := ProcessVote(net, node, votes[0], env);
      Reprocess(net, if done then w.(orphans := w.orphans - {votes[0]}) else w, votes[1..], env)
  }

  ghost function NodeStep(net: Network, node: Node, op: Op, env: Env): (r: (Node, set<Vote>)) {
    match op
    case Receive(v) => (ReceiveVote(net, node, v, env), {})
    case Request(tx) => (ProcessRequest(net, node, tx, env).0, {})
    case Cast(tx, order) => CastVotes(net, node, tx, order, env)
    case Accept(tx) => (node.(accepted := node.accepted + {tx}), {})
    case Reject(tx) => (node.(rejected := node.rejected + {tx}), {})
    case ReprocessOrphans(votes) => (Reprocess(net, node, votes, env), {})
  }

  lemma {:induction false} ReprocessKeeps(net: Network, node: Node, votes: seq<Vote>, env: Env)
    requires NodeInv(net, node)
    ensures NodeInv(net, Reprocess(net, node, votes, env))
    decreases votes
  {
    hide ProcessVote;
    if votes != [] {
      ProcessVoteKeeps(net, node, votes[0], env);
      var (w, done) := ProcessVote(net, node, votes[0], env);
      ReprocessKeeps(net, if done then w.(orphans := w.orphans - {votes[0]}) else w, votes[1..], env);
    }
  }

  lemma NodeStepKeeps(net: Network, node: Node, op: Op, env: Env)
    requires NodeInv(net, node)
    ensures NodeInv(net, NodeStep(net, node, op, env).0)
  {
    hide ProcessVote; hide ProcessRequest; hide CastVotes; hide Reprocess;
    hide CandidatesOk; hide VotedOk; hide DoubleVotesMarked; hide LockedOk;
    match op
    case Receive(v) => ProcessVoteKeeps(net, node.(seen := node.seen + {v}), v, env);
    case Request(tx) => ProcessRequestKeeps(net, node, tx, env);
    case Cast(tx, order) => CastVotesKeeps(net, node, tx, order, env);
    case ReprocessOrphans(votes) => ReprocessKeeps(net, node, votes, env);
    case _ =>
  }

  // ----- Where recorded votes come from -----

  ghost predicate Keeps(a: Node, b: Node) {
    && (forall tx, o, mn :: Recorded(a.candidates, tx, o, mn) ==> Recorded(b.candidates, tx, o, mn))
    && (forall o :: o in a.locked ==> o in b.locked && b.locked[o] == a.locked[o])
  }

  ghost predicate Origins(a: Node, b: Node, env: Env, out: set<Vote>) {
    forall tx, o, mn :: Recorded(b.candidates, tx, o, mn) ==>
      Recorded(a.candidates, tx, o, mn) || env.signed(Vote(tx, o, mn)) || Vote(tx, o, mn) in out
  }

  /** The votes a step casts are its own masternode's, recorded, and its first on their outpoints. */
  ghost predicate FirstVotes(a: Node, b: Node, env: Env, out: set<Vote>) {
    && (forall v :: v in out ==> env.self == Some(v.mn) && Recorded(b.candidates, v.tx, v.outpoint, v.mn))
    && (forall v, tx :: v in out ==> !Recorded(a.candidates, tx, v.outpoint, v.mn))
    && (forall v, u :: v in out && u in out && v.outpoint == u.outpoint ==> v == u)
  }

  ghost predicate Grew(a: Node, b: Node, env: Env, out: set<Vote>) {
    Keeps(a, b) && Origins(a, b, env, out) && FirstVotes(a, b, env, out)
  }

  lemma GrewTrans(a: Node, b: Node, c: Node, env: Env, out: set<Vote>, out': set<Vote>)
    requires Grew(a, b, env, out) && Grew(b, c, env, out')
    ensures Grew(a, c, env, out + out')
  {
  }

  lemma GrewQuietly(a: Node, b: Node, c: Node, env: Env)
    requires Grew(a, b, env, {}) && Grew(b, c, env, {})
    ensures Grew(a, c, env, {})
  {
  }

  lemma GrewSame(a: Node, b: Node, env: Env)
    requires b.candidates == a.candidates && b.locked == a.locked
    ensures Grew(a, b, env, {})
  {
  }

  lemma TryToFinalizeGrew(net: Network, node: Node, tx: TxHash, env: Env)
    requires tx in node.candidates
    ensures Grew(node, TryToFinalize(net, node, tx, env), env, {})
  {
  }

  lemma CreateGrew(net: Network, node: Node, tx: TxHash, env: Env)
    requires CandidatesOk(net, node.candidates)
    ensures Grew(node, CreateCandidate(net, node, tx, env).0, env, {})
    ensures CreateCandidate(net, node, tx, env).1 ==> tx in CreateCandidate(net, node, tx, env).0.candidates
  {
    RequestedOk(net, node, tx, env);
    hide Requested;
  }

  lemma RequestGrew(net: Network, node: Node, tx: TxHash, env: Env)
    requires CandidatesOk(net, node.candidates)
    ensures Grew(node, ProcessRequest(net, node, tx, env).0, env, {})
  {
    hide CreateCandidate; hide TryToFinalize; hide Grew; hide CandidatesOk;
    CreateGrew(net, node, tx, env);
    var (w, ok) := CreateCandidate(net, node, tx, env);
    if ok {
      TryToFinalizeGrew(net, w, tx, env);
      GrewQuietly(node, w, TryToFinalize(net, w, tx, env), env);
    }
  }

  lemma OrphanGrew(net: Network, node: Node, v: Vote, env: Env)
    requires NodeInv(net, node)
    ensures Grew(node, ProcessOrphan(net, node, v, env).0, env, {})
  {
    hide ProcessRequest; hide Grew; hide NodeInv; hide EnoughOrphans;
    var w := CreateEmpty(node, v.tx).(orphans := node.orphans + {v});
    EmptyGrew(node, v.tx, w.orphans, env);
    GrewSame(node, node, env);
    EmptyKeeps(net, node, v.tx);
    OrphansCandidates(net, CreateEmpty(node, v.tx), w.orphans);
    RequestGrew(net, w, v.tx, env);
    GrewQuietly(node, w, ProcessRequest(net, w, v.tx, env).0, env);
  }

  lemma EmptyGrew(node: Node, tx: TxHash, orphans: set<Vote>, env: Env)
    ensures Grew(node, CreateEmpty(node, tx).(orphans := orphans), env, {})
  {
  }

  lemma OrphansCandidates(net: Network, node: Node, orphans: set<Vote>)
    requires NodeInv(net, node)
    ensures CandidatesOk(net, node.(orphans := orphans).candidates)
  {
  }

  lemma NoteGrew(node: Node, v: Vote, env: Env)
    requires v.tx in node.candidates
    ensures Grew(node, NoteVote(node, v), env, {})
  {
    var rivals := Rivals(node, v);
    MarkAllVotes(node.candidates, if rivals == {} then {} else rivals + {v.tx}, v.outpoint);
    hide MarkAll; hide Rivals; hide Recorded;
  }

  lemma PutGrew(node: Node, v: Vote, env: Env)
    requires v.tx in node.candidates && env.signed(v)
    ensures Grew(node, PutVote(node, v), env, {})
  {
    PutVoteRecords(node, v);
    hide AddVote;
  }

  lemma ProcessVoteGrew(net: Network, node: Node, v: Vote, env: Env)
    requires NodeInv(net, node)
    ensures Grew(node, ProcessVote(net, node, v, env).0, env, {})
  {
    hide NodeInv; hide ProcessOrphan; hide NoteVote; hide PutVote; hide TryToFinalize; hide Grew;
    GrewSame(node, node, env);
    if ValidVote(net, v, env) {
      if v.tx !in node.candidates || !node.candidates[v.tx].request {
        OrphanGrew(net, node, v, env);
      } else if !env.timedOut(v.tx) {
        NoteGrew(node, v, env);
        NotedKnown(node, v);
        var w := NoteVote(node, v);
        PutGrew(w, v, env);
        PutKnown(w, v);
        var x := PutVote(w, v);
        TryToFinalizeGrew(net, x, v.tx, env);
        GrewQuietly(node, w, x, env);
        GrewQuietly(node, x, TryToFinalize(net, x, v.tx, env), env);
      }
    }
  }

  /** Casting a vote: it is the masternode's first on the outpoint. */
  lemma VoteOnGrew(net: Network, node: Node, tx: TxHash, o: OutPoint, env: Env)
    requires NodeInv(net, node) && tx in node.candidates && env.self.Some?
    ensures var (w, out, _) := VoteOn(net, node, tx, o, env.self.value, env); Grew(node, w, env, out)
  {
    hide Quorum; hide CandidatesOk; hide DoubleVotesMarked; hide LockedOk;
    var mn := env.self.value;
    var v := Vote(tx, o, mn);
    if env.haveCoin(o) && mn in Quorum(net, o) && !AlreadyVoted(node, o, mn) {
      forall t ensures !Recorded(node.candidates, t, o, mn) {
        assert Recorded(node.candidates, t, o, mn) ==> t in VotedFor(node.voted, o);
      }
      var w := node.(seen := node.seen + {v});
      PutVoteRecords(w, v);
    }
  }

  lemma {:induction false} VoteAllGrew(net: Network, node: Node, tx: TxHash, order: seq<OutPoint>, env: Env)
    requires NodeInv(net, node) && tx in node.candidates && env.self.Some?
    ensures var (w, out) := VoteAll(net, node, tx, order, env.self.value, env); Grew(node, w, env, out)
    decreases order
  {
    hide NodeInv; hide VoteOn; hide Grew;
    if order == [] {
      GrewSame(node, node, env);
    } else {
      VoteOnGrew(net, node, tx, order[0], env);
      VoteOnKeeps(net, node, tx, order[0], env.self.value, env);
      var (w, out, goOn) := VoteOn(net, node, tx, order[0], env.self.value, env);
      if goOn {
        VoteAllGrew(net, w, tx, order[1..], env);
        var (w', out') := VoteAll(net, w, tx, order[1..], env.self.value, env);
        GrewTrans(node, w, w', env, out, out');
      }
    }
  }

  lemma CastGrew(net: Network, node: Node, tx: TxHash, order: seq<OutPoint>, env: Env)
    requires NodeInv(net, node)
    ensures var (w, out) := CastVotes(net, node, tx, order, env); Grew(node, w, env, out)
  {
    hide NodeInv; hide VoteAll; hide TryToFinalize; hide Grew;
    GrewSame(node, node, env);
    if tx in node.candidates {
      var w, out: set<Vote> := node, {};
      if env.self.Some? && env.enabled && tx in node.accepted {
        VoteAllGrew(net, node, tx, order, env);
        w := VoteAll(net, node, tx, order, env.self.value, env).0;
        out := VoteAll(net, node, tx, order, env.self.value, env).1;
      }
      if tx in w.candidates {
        TryToFinalizeGrew(net, w, tx, env);
        GrewTrans(node, w, TryToFinalize(net, w, tx, env), env, out, {});
        assert out + {} == out;
      }
    }
  }

  lemma {:induction false} ReprocessGrew(net: Network, node: Node, votes: seq<Vote>, env: Env)
    requires NodeInv(net, node)
    ensures Grew(node, Reprocess(net, node, votes, env), env, {})
    decreases votes
  {
    hide NodeInv; hide ProcessVote; hide Grew;
    if votes == [] {
      GrewSame(node, node, env);
    } else {
      ProcessVoteGrew(net, node, votes[0], env);
      ProcessVoteKeeps(net, node, votes[0], env);
      var (w, done) := ProcessVote(net, node, votes[0], env);
      var x := if done then w.(orphans := w.orphans - {votes[0]}) else w;
      OrphansKeep(net, w, w.orphans - {votes[0]});
      GrewSame(w, x, env);
      GrewQuietly(node, w, x, env);
      ReprocessGrew(net, x, votes[1..], env);
      GrewQuietly(node, x, Reprocess(net, x, votes[1..], env), env);
    }
  }

  lemma OrphansKeep(net: Network, node: Node, orphans: set<Vote>)
    requires NodeInv(net, node)
    ensures NodeInv(net, node.(orphans := orphans))
  {
  }

  lemma NodeStepGrew(net: Network, node: Node, op: Op, env: Env)
    requires NodeInv(net, node)
    ensures var (w, out) := NodeStep(net, node, op, env); Grew(node, w, env, out)
  {
    hide ProcessVote; hide ProcessRequest; hide CastVotes; hide Reprocess; hide Grew; hide VotedOk; hide DoubleVotesMarked; hide LockedOk;
    GrewSame(node, node, env);
    match op
    case Receive(v) =>
      var w := node.(seen := node.seen + {v});
      GrewSame(node, w, env);
      ProcessVoteGrew(net, w, v, env);
      GrewQuietly(node, w, ProcessVote(net, w, v, env).0, env);
    case Request(tx) => RequestGrew(net, node, tx, env);
    case Cast(tx, order) => CastGrew(net, node, tx, order, env);
    case Accept(tx) => GrewSame(node, node.(accepted := node.accepted + {tx}), env);
    case Reject(tx) => GrewSame(node, node.(rejected := node.rejected + {tx}), env);
    case ReprocessOrphans(votes) => ReprocessGrew(net, node, votes, env);
  }

  // ----- Runs of one node -----

  /** The state of a node after any steps in any surroundings, with any number of double-voting masternodes. */
  ghost function RunNode(net: Network, steps: seq<(Op, Env)>): (node: Node)
    ensures NodeInv(net, node)
  {
    hide NodeStep;
    if steps == [] then EMPTY_NODE
    else
      var before := RunNode(net, steps[..|steps| - 1]);
      var (op, env) := steps[|steps| - 1];
      NodeStepKeeps(net, before, op, env);
      NodeStep(net, before, op, env).0
  }

  /** The "conflicting completed lock" branch of ResolveConflicts: no ready transaction meets a rival's lock. */
  lemma NoConflict(net: Network, node: Node, tx: TxHash, o: OutPoint)
    requires NodeInv(net, node) && tx in node.candidates && node.candidates[tx].IsAllOutPointsReady()
    requires o in net.vin(tx)
    ensures o in node.locked ==> node.locked[o] == tx
  {
    assert CandidateOk(net, tx, node.candidates[tx]);
    assert o in Inputs(net, tx);
    assert node.candidates[tx].locks.Keys == Inputs(net, tx);
    if o in node.locked && node.locked[o] != tx {
      LockExcludes(net, node, o, tx);
    }
  }

  /**
   In every state a single node can reach: the outpoints of a transaction are locked together, and
   while one is locked, no other transaction that spends it is ready.
   */
  lemma NodeSafety(net: Network, steps: seq<(Op, Env)>, o: OutPoint, rival: TxHash)
    requires o in RunNode(net, steps).locked && rival != RunNode(net, steps).locked[o] && o in net.vin(rival)
    ensures var node := RunNode(net, steps); var tx := node.locked[o];
            && tx in node.candidates && node.candidates[tx].locks.Keys == Inputs(net, tx)
            && (forall p :: p in Inputs(net, tx) ==> p in node.locked && node.locked[p] == tx)
            && (rival in node.candidates ==> !node.candidates[rival].IsAllOutPointsReady())
  {
    hide RunNode;
    var node := RunNode(net, steps);
    var tx := node.locked[o];
    assert CandidateOk(net, tx, node.candidates[tx]);
    if rival in node.candidates {
      assert CandidateOk(net, rival, node.candidates[rival]);
      assert o in Inputs(net, rival);
      if o in node.candidates[rival].locks {
        LockExcludes(net, node, o, rival);
      }
    }
  }

  // ----- The network -----

  datatype Peer = Peer(id: nat)

  /** Who runs which masternode, and which masternodes may sign anything they like. */
  datatype Setting = Setting(net: Network, self: Peer -> Option<Masternode>, liars: set<Masternode>)

  /** The nodes, and the votes whose signatures exist. */
  datatype World = World(nodes: map<Peer, Node>, signed: set<Vote>)

  datatype Action =
    | Act(p: Peer, op: Op, env: Env)
    | Lie(v: Vote)

  /** An honest masternode's key is on one peer, and at most one member of each quorum lies. */
  ghost predicate SettingOk(s: Setting) {
    && (forall p, q :: s.self(p).Some? && s.self(p) == s.self(q) && s.self(p).value !in s.liars ==> p == q)
    && (forall o :: |s.liars * Quorum(s.net, o)| <= 1)
  }

  ghost predicate WorldStep(s: Setting, w: World, w': World, a: Action) {
    match a
    case Act(p, op, env) =>
      && p in w.nodes && env.self == s.self(p) && (forall v :: env.signed(v) ==> v in w.signed)
      && var (node, out) := NodeStep(s.net, w.nodes[p], op, env);
      w' == World(w.nodes[p := node], w.signed + out)
    case Lie(v) =>
      v.mn in s.liars && w' == w.(signed := w.signed + {v})
  }

  ghost predicate Initial(w: World) {
    w.signed == {} && forall p :: p in w.nodes ==> w.nodes[p] == EMPTY_NODE
  }

  ghost predicate VotesSigned(w: World) {
    forall p, tx, o, mn :: p in w.nodes && Recorded(w.nodes[p].candidates, tx, o, mn) ==> Vote(tx, o, mn) in w.signed
  }

  /** An honest masternode's vote is recorded on the node that runs it. */
  ghost predicate HonestRecorded(s: Setting, w: World) {
    forall v :: v in w.signed && v.mn !in s.liars ==>
      exists p :: p in w.nodes && s.self(p) == Some(v.mn) && Recorded(w.nodes[p].candidates, v.tx, v.outpoint, v.mn)
  }

  /** An honest masternode never votes for two transactions on one outpoint. */
  ghost predicate HonestOnce(s: Setting, w: World) {
    forall v, u :: v in w.signed && u in w.signed && v.mn == u.mn && v.mn !in s.liars && v.outpoint == u.outpoint ==> v == u
  }

  ghost predicate NodesOk(s: Setting, w: World) {
    forall p :: p in w.nodes ==> NodeInv(s.net, w.nodes[p])
  }

  ghost predicate WorldInv(s: Setting, w: World) {
    NodesOk(s, w) && VotesSigned(w) && HonestRecorded(s, w) && HonestOnce(s, w)
  }

  lemma ActRecorded(s: Setting, w: World, w': World, p: Peer, node: Node, out: set<Vote>, env: Env)
    requires HonestRecorded(s, w) && p in w.nodes && env.self == s.self(p) && Grew(w.nodes[p], node, env, out)
    requires w' == World(w.nodes[p := node], w.signed + out)
    ensures HonestRecorded(s, w')
  {
    forall v | v in w'.signed && v.mn !in s.liars
      ensures exists q :: q in w'.nodes && s.self(q) == Some(v.mn) && Recorded(w'.nodes[q].candidates, v.tx, v.outpoint, v.mn)
    {
      if v in out {
        assert p in w'.nodes && Recorded(w'.nodes[p].candidates, v.tx, v.outpoint, v.mn);
      } else {
        var q :| q in w.nodes && s.self(q) == Some(v.mn) && Recorded(w.nodes[q].candidates, v.tx, v.outpoint, v.mn);
        assert q in w'.nodes && Recorded(w'.nodes[q].candidates, v.tx, v.outpoint, v.mn);
      }
    }
  }

  lemma ActOnce(s: Setting, w: World, p: Peer, node: Node, out: set<Vote>, env: Env)
    requires SettingOk(s) && HonestRecorded(s, w) && HonestOnce(s, w)
    requires p in w.nodes && env.self == s.self(p) && Grew(w.nodes[p], node, env, out)
    ensures HonestOnce(s, World(w.nodes[p := node], w.signed + out))
  {
    forall v, u | v in out && u in w.signed && v.mn == u.mn && v.mn !in s.liars
      ensures v.outpoint != u.outpoint
    {
      var q :| q in w.nodes && s.self(q) == Some(u.mn) && Recorded(w.nodes[q].candidates, u.tx, u.outpoint, u.mn);
      assert s.self(p) == Some(v.mn);
      assert q == p;
      assert !Recorded(w.nodes[p].candidates, u.tx, v.outpoint, v.mn);
    }
  }

  lemma ActSigned(w: World, p: Peer, node: Node, out: set<Vote>, env: Env)
    requires VotesSigned(w) && p in w.nodes && (forall v :: env.signed(v) ==> v in w.signed)
    requires Origins(w.nodes[p], node, env, out)
    ensures VotesSigned(World(w.nodes[p := node], w.signed + out))
  {
    hide Recorded;
  }

  lemma ActKeeps(s: Setting, w: World, w': World, p: Peer, op: Op, env: Env)
    requires SettingOk(s) && WorldInv(s, w) && WorldStep(s, w, w', Act(p, op, env))
    ensures WorldInv(s, w')
    ensures forall q :: q in w.nodes ==> q in w'.nodes && Keeps(w.nodes[q], w'.nodes[q])
  {
    hide NodeInv; hide NodeStep; hide Recorded; hide HonestRecorded; hide HonestOnce; hide SettingOk; hide VotesSigned;
    NodeStepKeeps(s.net, w.nodes[p], op, env);
    NodeStepGrew(s.net, w.nodes[p], op, env);
    var (node, out) := NodeStep(s.net, w.nodes[p], op, env);
    ActRecorded(s, w, w', p, node, out, env);
    ActOnce(s, w, p, node, out, env);
    ActSigned(w, p, node, out, env);
  }

  lemma LieKeeps(s: Setting, w: World, v: Vote)
    requires WorldInv(s, w) && v.mn in s.liars
    ensures WorldInv(s, w.(signed := w.signed + {v}))
  {
    hide NodeInv; hide Recorded;
    var w' := w.(signed := w.signed + {v});
    forall u | u in w'.signed && u.mn !in s.liars
      ensures exists p :: p in w'.nodes && s.self(p) == Some(u.mn) && Recorded(w'.nodes[p].candidates, u.tx, u.outpoint, u.mn)
    {
      assert u in w.signed;
    }
  }

  lemma WorldStepKeeps(s: Setting, w: World, w': World, a: Action)
    requires SettingOk(s) && WorldInv(s, w) && WorldStep(s, w, w', a)
    ensures WorldInv(s, w')
    ensures forall p :: p in w.nodes ==> p in w'.nodes && Keeps(w.nodes[p], w'.nodes[p])
  {
    hide WorldInv; hide SettingOk; hide NodeStep;
    match a
    case Act(p, op, env) => ActKeeps(s, w, w', p, op, env);
    case Lie(v) => LieKeeps(s, w, v);
  }

  lemma InitialOk(s: Setting, w: World)
    requires Initial(w)
    ensures WorldInv(s, w)
  {
  }

  /** Within a world: two nodes that lock an outpoint lock it for the same transaction. */
  lemma LocksAgree(s: Setting, w: World, p: Peer, q: Peer, o: OutPoint)
    requires SettingOk(s) && WorldInv(s, w) && p in w.nodes && q in w.nodes
    requires o in w.nodes[p].locked && o in w.nodes[q].locked
    ensures w.nodes[p].locked[o] == w.nodes[q].locked[o]
  {
    hide NodeInv; hide SettingOk; hide Quorum; hide HonestRecorded;
    LockedVotes(s.net, w.nodes[p], o);
    LockedVotes(s.net, w.nodes[q], o);
    var a, b := w.nodes[p].locked[o], w.nodes[q].locked[o];
    var va, vb := w.nodes[p].candidates[a].locks[o].votes, w.nodes[q].candidates[b].locks[o].votes;
    MajoritiesMeet(s.net, o, va, vb);
    HonestShared(s, o, va * vb);
    var mn :| mn in va * vb && mn !in s.liars;
    assert Recorded(w.nodes[p].candidates, a, o, mn) && Recorded(w.nodes[q].candidates, b, o, mn);
    assert Vote(a, o, mn) in w.signed && Vote(b, o, mn) in w.signed;
  }

  lemma LockedVotes(net: Network, node: Node, o: OutPoint)
    requires NodeInv(net, node) && o in node.locked
    ensures var tx := node.locked[o];
            && tx in node.candidates && o in node.candidates[tx].locks
            && node.candidates[tx].locks[o].votes <= Quorum(net, o)
            && |node.candidates[tx].locks[o].votes| >= SIGNATURES_REQUIRED
  {
    assert CandidateOk(net, node.locked[o], node.candidates[node.locked[o]]);
  }

  lemma HonestShared(s: Setting, o: OutPoint, shared: set<Masternode>)
    requires SettingOk(s) && shared <= Quorum(s.net, o) && |shared| >= 2
    ensures exists mn :: mn in shared && mn !in s.liars
  {
    hide SettingOk; hide Quorum;
    FewLiars(s, o);
    SharedBeyond(shared, s.liars, s.liars * Quorum(s.net, o));
  }

  lemma FewLiars(s: Setting, o: OutPoint)
    requires SettingOk(s)
    ensures |s.liars * Quorum(s.net, o)| <= 1
  {
  }

  /** Of two or more members at most one of whom lies, one does not. */
  lemma SharedBeyond(shared: set<Masternode>, liars: set<Masternode>, lying: set<Masternode>)
    requires |shared| >= 2 && shared * liars <= lying && |lying| <= 1
    ensures exists mn :: mn in shared && mn !in liars
  {
    assert lying == shared * liars + (lying - shared * liars);
    assert shared == shared * liars + (shared - liars);
    var mn :| mn in shared - liars;
  }

  ghost predicate IsRun(s: Setting, worlds: seq<World>, actions: seq<Action>) {
    && |worlds| == |actions| + 1 && Initial(worlds[0])
    && forall i :: 0 <= i < |actions| ==> WorldStep(s, worlds[i], worlds[i + 1], actions[i])
  }

  lemma {:induction false} RunInvariant(s: Setting, worlds: seq<World>, actions: seq<Action>, i: nat)
    requires SettingOk(s) && IsRun(s, worlds, actions) && i < |worlds|
    ensures WorldInv(s, worlds[i])
  {
    hide SettingOk; hide WorldInv; hide WorldStep;
    if i == 0 {
      InitialOk(s, worlds[0]);
    } else {
      RunInvariant(s, worlds, actions, i - 1);
      assert WorldStep(s, worlds[i - 1], worlds[i - 1 + 1], actions[i - 1]);
      WorldStepKeeps(s, worlds[i - 1], worlds[i], actions[i - 1]);
    }
  }

  /** A lock, once made, stays. */
  lemma {:induction false} LocksStay(s: Setting, worlds: seq<World>, actions: seq<Action>, i: nat, j: nat, p: Peer, o: OutPoint)
    requires SettingOk(s) && IsRun(s, worlds, actions) && i <= j < |worlds|
    requires p in worlds[i].nodes && o in worlds[i].nodes[p].locked
    ensures p in worlds[j].nodes && o in worlds[j].nodes[p].locked
    ensures worlds[j].nodes[p].locked[o] == worlds[i].nodes[p].locked[o]
    decreases j
  {
    hide SettingOk; hide WorldInv; hide WorldStep; hide Recorded;
    if i < j {
      LocksStay(s, worlds, actions, i, j - 1, p, o);
      RunInvariant(s, worlds, actions, j - 1);
      assert WorldStep(s, worlds[j - 1], worlds[j - 1 + 1], actions[j - 1]);
      WorldStepKeeps(s, worlds[j - 1], worlds[j], actions[j - 1]);
    }
  }

  /**
   In every run, if one node locks an outpoint at some time and another (or the same) node locks it
   at some other time, both lock it for the same transaction.
   */
  lemma NetworkSafety(s: Setting, worlds: seq<World>, actions: seq<Action>, i: nat, j: nat, p: Peer, q: Peer, o: OutPoint)
    requires SettingOk(s) && IsRun(s, worlds, actions) && i <= j < |worlds|
    requires p in worlds[i].nodes && o in worlds[i].nodes[p].locked
    requires q in worlds[j].nodes && o in worlds[j].nodes[q].locked
    ensures worlds[i].nodes[p].locked[o] == worlds[j].nodes[q].locked[o]
  {
    hide SettingOk; hide WorldInv; hide WorldStep;
    LocksStay(s, worlds, actions, i, j, p, o);
    RunInvariant(s, worlds, actions, j);
    LocksAgree(s, worlds[j], p, q, o);
  }
}
