/** An InstantSend node as an object: its maps, and the loops over them, against the step functions. */
module InstantSend {
  import opened Common
  import opened InstantSendModel
  import Ops = InstantSendOps
  import Net = InstantSendNetwork

  class InstantSendNode {
    const net: Network
    var accepted: set<TxHash>
    var rejected: set<TxHash>
    var seen: set<Vote>
    var orphans: set<Vote>
    var candidates: Candidates
    var voted: Voted
    var locked: map<OutPoint, TxHash>

    ghost function View(): Node
      reads this
    {
      Node(accepted, rejected, seen, orphans, candidates, voted, locked)
    }

    ghost predicate Valid()
      reads this
    {
      NodeInv(net, View())
    }

    constructor (net: Network)
      ensures Valid() && View() == EMPTY_NODE && this.net == net
    {
      this.net := net;
      accepted, rejected, seen, orphans, candidates, voted, locked := {}, {}, {}, {}, map[], map[], map[];
    }

    static method AllReady(c: Candidate) returns (ready: bool)
      ensures ready == c.IsAllOutPointsReady()
    {
      if |c.locks| == 0 {
        return false;
      }
      var todo := c.locks.Keys;
      while todo != {}
        invariant todo <= c.locks.Keys
        invariant forall o :: o in c.locks && o !in todo ==> c.locks[o].IsReady()
      {
        var o :| o in todo;
        if !c.locks[o].IsReady() {
          return false;
        }
        todo := todo - {o};
      }
      return true;
    }

    method IsLockedTx(tx: TxHash, env: Env) returns (r: bool)
      ensures r == Ops.IsLockedTx(View(), tx, env)
    {
      if !env.filtering || tx !in candidates || |candidates[tx].locks| == 0 {
        return false;
      }
      var todo := candidates[tx].locks.Keys;
      while todo != {}
        invariant todo <= candidates[tx].locks.Keys
        invariant forall o :: o in candidates[tx].locks && o !in todo ==> o in locked && locked[o] == tx
      {
        var o :| o in todo;
        if o !in locked || locked[o] != tx {
          return false;
        }
        todo := todo - {o};
      }
      return true;
    }

    method CreateTxLockCandidate(tx: TxHash, env: Env) returns (ok: bool)
      modifies this`candidates
      ensures (View(), ok) == Ops.CreateCandidate(net, old(View()), tx, env)
    {
      if !env.validRequest(tx) {
        return false;
      }
      if tx !in candidates {
        var locks := AddOutPointLocks(map[], net.vin(tx));
        candidates := candidates[tx := Candidate(true, locks)];
      } else if !candidates[tx].request {
        candidates := candidates[tx := candidates[tx].(request := true)];
        if env.timedOut(tx) {
          return false;
        }
        var locks := AddOutPointLocks(candidates[tx].locks, net.vin(tx));
        candidates := candidates[tx := candidates[tx].(locks := locks)];
      }
      assert candidates == old(candidates)[tx := candidates[tx]];
      return true;
    }

    static method AddOutPointLocks(locks: map<OutPoint, Lock>, vin: seq<OutPoint>) returns (r: map<OutPoint, Lock>)
      ensures r == Ops.AddLocks(locks, vin)
    {
      r := locks;
      for i := |vin| downto 0
        invariant Ops.AddLocks(locks, vin) == Ops.AddLocks(r, vin[..i])
      {
        assert vin[..i + 1][..i] == vin[..i];
        if vin[i] !in r {
          r := r[vin[i] := Lock({}, false)];
        }
      }
    }

    /** ResolveConflicts. Its first branch, a completed lock of a rival, cannot be reached. */
    method ResolveConflicts(tx: TxHash, env: Env) returns (ok: bool)
      requires Valid() && tx in candidates && candidates[tx].IsAllOutPointsReady()
      ensures ok == Ops.Resolves(net, View(), tx, env)
    {
      hide NodeInv;
      var vin := net.vin(tx);
      for i := 0 to |vin|
        invariant forall k :: 0 <= k < i ==>
          (vin[k] in locked ==> locked[vin[k]] == tx) && (env.mempool(vin[k]).Some? ==> env.mempool(vin[k]).value == tx)
      {
        Net.NoConflict(net, View(), tx, vin[i]);
        assert !(vin[i] in locked && locked[vin[i]] != tx);
        var rival := env.mempool(vin[i]);
        if rival.Some? && rival.value != tx {
          assert vin[i] in net.vin(tx);
          return false;
        }
      }
      assert Ops.Uncontested(net, View(), tx, env);
      if env.mined(tx) {
        return true;
      }
      for i := 0 to |vin|
        invariant forall k :: 0 <= k < i ==> env.haveCoin(vin[k])
      {
        if !env.haveCoin(vin[i]) {
          assert vin[i] in net.vin(tx);
          return false;
        }
      }
      return true;
    }

    method LockTransactionInputs(tx: TxHash)
      requires tx in candidates
      modifies this`locked
      ensures locked == Ops.LockAll(old(locked), candidates[tx].locks.Keys, tx)
    {
      var keys := candidates[tx].locks.Keys;
      var todo := keys;
      while todo != {}
        invariant todo <= keys
        invariant forall o :: o in locked <==> o in old(locked) || o in keys - todo
        invariant forall o :: o in locked ==> locked[o] == if o in old(locked) then old(locked)[o] else tx
      {
        var o :| o in todo;
        if o !in locked {
          locked := locked[o := tx];
        }
        todo := todo - {o};
      }
    }

    method TryToFinalizeLockCandidate(tx: TxHash, env: Env)
      requires Valid() && tx in candidates
      modifies this`locked
      ensures Valid() && View() == Ops.TryToFinalize(net, old(View()), tx, env)
    {
      hide NodeInv; hide Ops.Resolves; hide Ops.IsLockedTx; hide Ops.LockAll;
      Ops.TryToFinalizeKeeps(net, View(), tx, env);
      if !env.enabled {
        return;
      }
      var ready := AllReady(candidates[tx]);
      if !ready {
        return;
      }
      var done := IsLockedTx(tx, env);
      if done {
        return;
      }
      var ok := ResolveConflicts(tx, env);
      if ok {
        LockTransactionInputs(tx);
      }
    }

    method ProcessTxLockRequest(tx: TxHash, env: Env) returns (ok: bool)
      requires Valid()
      modifies this`candidates, this`locked
      ensures Valid() && (View(), ok) == Ops.ProcessRequest(net, old(View()), tx, env)
    {
      hide NodeInv; hide Ops.CreateCandidate; hide Ops.TryToFinalize;
      Ops.CreateCandidateKeeps(net, View(), tx, env);
      ok := CreateTxLockCandidate(tx, env);
      if ok {
        TryToFinalizeLockCandidate(tx, env);
      }
    }

    method EnoughOrphansFor(tx: TxHash, o: OutPoint) returns (r: bool)
      ensures r == (|Ops.OrphanVoters(View(), tx, o)| >= SIGNATURES_REQUIRED)
    {
      var nCountVotes := 0;
      var todo := orphans;
      ghost var counted: set<Vote> := {};
      while todo != {}
        invariant todo <= orphans && nCountVotes == |counted| < SIGNATURES_REQUIRED
        invariant counted == set v | v in orphans && v !in todo && v.tx == tx && v.outpoint == o
      {
        var v :| v in todo;
        todo := todo - {v};
        if v.tx == tx && v.outpoint == o {
          counted := counted + {v};
          nCountVotes := nCountVotes + 1;
          if nCountVotes >= SIGNATURES_REQUIRED {
            SubsetSize(counted, Ops.OrphanVoters(View(), tx, o));
            return true;
          }
        }
      }
      assert counted == Ops.OrphanVoters(View(), tx, o);
      return false;
    }

    method IsEnoughOrphanVotesForTx(tx: TxHash) returns (r: bool)
      ensures r == Ops.EnoughOrphans(net, View(), tx)
    {
      var vin := net.vin(tx);
      for i := 0 to |vin|
        invariant forall k :: 0 <= k < i ==> |Ops.OrphanVoters(View(), tx, vin[k])| >= SIGNATURES_REQUIRED
      {
        var enough := EnoughOrphansFor(tx, vin[i]);
        if !enough {
          assert vin[i] in net.vin(tx);
          return false;
        }
      }
      return true;
    }

    /** The first part of ProcessTxLockVote: a vote for a transaction whose request is not here yet. */
    method ProcessOrphanVote(v: Vote, env: Env) returns (ok: bool)
      requires Valid()
      modifies this`candidates, this`locked, this`orphans
      ensures Valid() && (View(), ok) == Ops.ProcessOrphan(net, old(View()), v, env)
    {
      hide NodeInv; hide Ops.ProcessRequest; hide Ops.EnoughOrphans;
      Ops.ProcessOrphanKeeps(net, View(), v, env);
      if v !in orphans {
        Ops.EmptyKeeps(net, View(), v.tx);
        if v.tx !in candidates {
          candidates := candidates[v.tx := Candidate(false, map[])];
        }
        Net.OrphansKeep(net, View(), orphans + {v});
        orphans := orphans + {v};
        var fReprocess := v.tx in accepted || v.tx in rejected;
        if fReprocess {
          var enough := IsEnoughOrphanVotesForTx(v.tx);
          if enough {
            var _ := ProcessTxLockRequest(v.tx, env);
            return true;
          }
        }
      }
      return !env.spamming;
    }

    /** The loop of ProcessTxLockVote over the transactions already voted for on the outpoint. */
    method MarkDoubleVotes(v: Vote)
      requires v.tx in candidates && v.outpoint in voted
      modifies this`candidates
      ensures var rivals := Ops.Rivals(old(View()), v);
              candidates == Ops.MarkAll(old(candidates), if rivals == {} then {} else rivals + {v.tx}, v.outpoint)
    {
      hide Ops.MarkAll; hide Marked;
      ghost var node := View();
      MarkedNone(candidates, v.outpoint);
      var todo := voted[v.outpoint];
      ghost var marked: set<TxHash> := {};
      while todo != {}
        invariant todo <= voted[v.outpoint]
        invariant marked == set tx | tx in Ops.Rivals(node, v) && tx !in todo
        invariant Marked(node.candidates, candidates, if marked == {} then {} else marked + {v.tx}, v.outpoint)
      {
        var tx :| tx in todo;
        MarkedVotes(node.candidates, candidates, if marked == {} then {} else marked + {v.tx}, v.outpoint);
        if tx != v.tx && tx in candidates && candidates[tx].HasVoted(v.outpoint, v.mn) {
          assert Recorded(candidates, tx, v.outpoint, v.mn);
          assert tx in Ops.Rivals(node, v);
          MarkedStep(node.candidates, candidates, marked, v.tx, tx, v.outpoint);
          candidates := candidates[v.tx := candidates[v.tx].MarkAttacked(v.outpoint)];
          candidates := candidates[tx := candidates[tx].MarkAttacked(v.outpoint)];
          marked := marked + {tx};
        }
        todo := todo - {tx};
      }
      assert marked == Ops.Rivals(node, v);
      MarkedUnique(node.candidates, candidates, if marked == {} then {} else marked + {v.tx}, v.outpoint);
    }

    /** The middle part of ProcessTxLockVote: mark double votes, note the transaction as voted for. */
    method NoteVote(v: Vote)
      requires Valid() && v.tx in candidates
      modifies this`candidates, this`voted
      ensures Valid() && View() == Ops.NoteVote(old(View()), v)
    {
      hide NodeInv;
      Ops.NoteVoteKeeps(net, View(), v);
      if v.outpoint in voted {
        MarkDoubleVotes(v);
        voted := voted[v.outpoint := voted[v.outpoint] + {v.tx}];
      } else {
        assert Ops.Rivals(View(), v) == {};
        assert candidates == Ops.MarkAll(candidates, {}, v.outpoint);
        assert VotedFor(voted, v.outpoint) + {v.tx} == {v.tx};
        voted := voted[v.outpoint := {v.tx}];
      }
    }

    method ProcessTxLockVote(v: Vote, env: Env) returns (ok: bool)
      requires Valid()
      modifies this`candidates, this`voted, this`locked, this`orphans
      ensures Valid() && (View(), ok) == Ops.ProcessVote(net, old(View()), v, env)
    {
      hide NodeInv; hide Ops.ProcessOrphan; hide Ops.NoteVote; hide Ops.TryToFinalize; hide Ops.Countable; hide Quorum;
      if !(env.known(v.mn) && env.haveCoin(v.outpoint) && v.mn in Quorum(net, v.outpoint) && env.signed(v)) {
        return false;
      }
      if v.tx !in candidates || !candidates[v.tx].request {
        ok := ProcessOrphanVote(v, env);
        return;
      }
      if env.timedOut(v.tx) {
        return false;
      }
      Ops.NotedCountable(net, View(), v);
      Ops.NotedKnown(View(), v);
      NoteVote(v);
      if !Ops.CanAdd(candidates[v.tx], v) {
        return false;
      }
      Ops.PutVoteKeeps(net, View(), v);
      candidates := candidates[v.tx := Ops.AddVote(candidates[v.tx], v)];
      TryToFinalizeLockCandidate(v.tx, env);
      return true;
    }

    method ReceiveVote(v: Vote, env: Env)
      requires Valid()
      modifies this`seen, this`candidates, this`voted, this`locked, this`orphans
      ensures Valid() && View() == Net.ReceiveVote(net, old(View()), v, env)
    {
      hide NodeInv; hide Ops.ProcessVote;
      if v in seen {
        return;
      }
      Ops.SeenKeeps(net, View(), seen + {v});
      seen := seen + {v};
      var _ := ProcessTxLockVote(v, env);
    }

    /** The inner loop of Vote: did this masternode vote on the outpoint, for whichever transaction? */
    method HasVotedOn(o: OutPoint, mn: Masternode) returns (r: bool)
      requires Valid()
      ensures r == Ops.AlreadyVoted(View(), o, mn)
    {
      hide NodeInv;
      if o !in voted {
        return false;
      }
      var todo := voted[o];
      while todo != {}
        invariant todo <= voted[o]
        invariant forall t :: t in voted[o] && t !in todo ==> !Recorded(candidates, t, o, mn)
      {
        var t :| t in todo;
        VotedKnown(net, View(), o, t);
        if candidates[t].HasVoted(o, mn) {
          assert t in VotedFor(voted, o) && Recorded(candidates, t, o, mn);
          return true;
        }
        todo := todo - {t};
      }
      return false;
    }

    /** One turn of the loop in Vote. */
    method VoteOn(tx: TxHash, o: OutPoint, mn: Masternode, env: Env) returns (relayed: set<Vote>, goOn: bool)
      requires Valid() && tx in candidates
      modifies this`seen, this`candidates, this`voted
      ensures Valid() && tx in candidates && (View(), relayed, goOn) == Ops.VoteOn(net, old(View()), tx, o, mn, env)
    {
      hide NodeInv; hide Quorum;
      Ops.VoteOnKeeps(net, View(), tx, o, mn, env);
      if !env.haveCoin(o) {
        return {}, false;
      }
      if mn !in Quorum(net, o) {
        return {}, true;
      }
      var fAlreadyVoted := HasVotedOn(o, mn);
      if fAlreadyVoted {
        return {}, true;
      }
      if !env.canSign {
        return {}, false;
      }
      var vote := Vote.Vote(tx, o, mn);
      seen := seen + {vote};
      if Ops.CanAdd(candidates[tx], vote) {
        candidates := candidates[tx := Ops.AddVote(candidates[tx], vote)];
        assert {} + {tx} == {tx};
        if o !in voted {
          voted := voted[o := {tx}];
        } else {
          voted := voted[o := voted[o] + {tx}];
        }
        return {vote}, true;
      }
      return {}, true;
    }

    /** A set as the sequence in which a loop visits it. */
    static method Visit<T(==, !new)>(s: set<T>) returns (order: seq<T>)
      ensures Ops.Enumerates(order, s)
    {
      order := [];
      var todo := s;
      while todo != {}
        invariant todo <= s && Ops.Enumerates(order, s - todo)
      {
        var x :| x in todo;
        order := order + [x];
        todo := todo - {x};
      }
      assert s - {} == s;
    }

    /** Vote on all outpoints of a candidate, in some order. */
    method CastVotes(tx: TxHash, env: Env) returns (relayed: set<Vote>, order: seq<OutPoint>)
      requires Valid()
      modifies this`seen, this`candidates, this`voted, this`locked
      ensures tx in old(candidates) ==> Ops.Enumerates(order, old(candidates)[tx].locks.Keys)
      ensures Valid() && (View(), relayed) == Ops.CastVotes(net, old(View()), tx, order, env)
    {
      hide NodeInv; hide Ops.VoteOn; hide Ops.TryToFinalize; hide Ops.Enumerates;
      relayed, order := {}, [];
      if tx !in candidates {
        return;
      }
      order := Visit(candidates[tx].locks.Keys);
      if env.self.Some? && env.enabled && tx in accepted {
        var i := 0;
        ghost var node := View();
        assert order[0..] == order;
        ghost var rest := Ops.VoteAll(net, node, tx, order, env.self.value, env).1;
        assert {} + rest == rest;
        while i < |order|
          invariant 0 <= i <= |order| && Valid() && tx in candidates && locked == node.locked
          invariant var (w, out) := Ops.VoteAll(net, View(), tx, order[i..], env.self.value, env);
                    Ops.VoteAll(net, node, tx, order, env.self.value, env) == (w, relayed + out)
        {
          assert order[i..][0] == order[i] && order[i..][1..] == order[i + 1..];
          ghost var before := relayed;
          var out, goOn := VoteOn(tx, order[i], env.self.value, env);
          relayed := relayed + out;
          i := if goOn then i + 1 else |order|;
          rest := Ops.VoteAll(net, View(), tx, order[i..], env.self.value, env).1;
          assert before + (out + rest) == relayed + rest && out + {} == out;
        }
        assert relayed + {} == relayed;
      }
      TryToFinalizeLockCandidate(tx, env);
    }

    /** Process all orphan votes again, in some order. */
    method ProcessOrphanTxLockVotes(env: Env) returns (votes: seq<Vote>)
      requires Valid()
      modifies this`candidates, this`voted, this`locked, this`orphans
      ensures Ops.Enumerates(votes, old(orphans))
      ensures Valid() && View() == Net.Reprocess(net, old(View()), votes, env)
    {
      hide NodeInv; hide Ops.ProcessVote; hide Ops.Enumerates;
      votes := Visit(orphans);
      var i := 0;
      while i < |votes|
        invariant 0 <= i <= |votes| && Valid() && seen == old(seen)
        invariant Net.Reprocess(net, old(View()), votes, env) == Net.Reprocess(net, View(), votes[i..], env)
      {
        var done := ProcessTxLockVote(votes[i], env);
        if done {
          Net.OrphansKeep(net, View(), orphans - {votes[i]});
          orphans := orphans - {votes[i]};
        }
        i := i + 1;
      }
    }

    method AcceptLockRequest(tx: TxHash)
      requires Valid()
      modifies this`accepted
      ensures Valid() && View() == old(View()).(accepted := old(accepted) + {tx})
    {
      accepted := accepted + {tx};
    }

    method RejectLockRequest(tx: TxHash)
      requires Valid()
      modifies this`rejected
      ensures Valid() && View() == old(View()).(rejected := old(rejected) + {tx})
    {
      rejected := rejected + {tx};
    }
  }

  /** `r` is `candidates` with the transactions `txs` marked attacked on `o`. */
  ghost predicate Marked(candidates: Candidates, r: Candidates, txs: set<TxHash>, o: OutPoint) {
    && (forall tx :: tx in r <==> tx in candidates)
    && (forall tx :: tx in r ==> r[tx] == if tx in txs then candidates[tx].MarkAttacked(o) else candidates[tx])
  }

  lemma MarkedNone(candidates: Candidates, o: OutPoint)
    ensures Marked(candidates, candidates, {}, o)
  {
  }

  lemma MarkedStep(candidates: Candidates, r: Candidates, marked: set<TxHash>, current: TxHash, tx: TxHash, o: OutPoint)
    requires Marked(candidates, r, if marked == {} then {} else marked + {current}, o)
    requires tx in r && current in r && tx != current
    ensures var x := r[current := r[current].MarkAttacked(o)];
            Marked(candidates, x[tx := x[tx].MarkAttacked(o)], marked + {tx} + {current}, o)
  {
    forall c: Candidate ensures c.MarkAttacked(o).MarkAttacked(o) == c.MarkAttacked(o) {
      if o in c.locks {
        assert c.MarkAttacked(o).MarkAttacked(o).locks == c.MarkAttacked(o).locks;
      }
    }
  }

  lemma MarkedUnique(candidates: Candidates, r: Candidates, txs: set<TxHash>, o: OutPoint)
    requires Marked(candidates, r, txs, o) && forall tx :: tx in txs ==> tx in candidates
    ensures r == Ops.MarkAll(candidates, txs, o)
  {
  }

  lemma MarkedVotes(candidates: Candidates, r: Candidates, txs: set<TxHash>, o: OutPoint)
    requires Marked(candidates, r, txs, o)
    ensures forall tx, p, mn :: Recorded(r, tx, p, mn) <==> Recorded(candidates, tx, p, mn)
    ensures forall tx :: tx in r <==> tx in candidates
  {
  }

  lemma VotedKnown(net: Network, node: Node, o: OutPoint, tx: TxHash)
    requires NodeInv(net, node) && o in node.voted && tx in node.voted[o]
    ensures tx in node.candidates
  {
    assert tx in VotedFor(node.voted, o);
  }

}
