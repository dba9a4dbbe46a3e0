/**
 The InstantSend lock protocol on one node: lock candidates, the votes they collect per spent
 outpoint, the detection of double votes, and the completion of locks.

 A transaction is named by its hash; `vin` gives the outpoints it spends and `ranking` the
 masternodes in order of their score for an outpoint, both fixed. Everything a node asks of its
 surroundings (clock, mempool, UTXO set, signatures) is an arbitrary answer in `Env`.
 */
module InstantSendModel {
  import opened Common

  const SIGNATURES_REQUIRED := 6
  const SIGNATURES_TOTAL := 10

  datatype TxHash = TxHash(hash: nat)
  datatype Masternode = Masternode(collateral: OutPoint)
  datatype Vote = Vote(tx: TxHash, outpoint: OutPoint, mn: Masternode)

  /** COutPointLock: who voted for the transaction on this outpoint, and whether a double vote was seen. */
  datatype Lock = Lock(votes: set<Masternode>, attacked: bool) {
    function CountVotes(): nat { if attacked then 0 else |votes| }
    predicate IsReady() { !attacked && CountVotes() >= SIGNATURES_REQUIRED }
  }

  /** CTxLockCandidate; `request` tells whether the lock request itself has arrived. */
  datatype Candidate = Candidate(request: bool, locks: map<OutPoint, Lock>) {
    predicate HasVoted(o: OutPoint, mn: Masternode) { o in locks && mn in locks[o].votes }
    predicate IsAllOutPointsReady() { |locks| > 0 && forall o :: o in locks ==> locks[o].IsReady() }
    function MarkAttacked(o: OutPoint): Candidate {
      if o in locks then this.(locks := locks[o := locks[o].(attacked := true)]) else this
    }
  }

  datatype Network = Network(vin: TxHash -> seq<OutPoint>, ranking: OutPoint -> seq<Masternode>)

  datatype Env = Env(
    enabled: bool,                              // SPORK_2_INSTANTSEND_ENABLED
    filtering: bool,                            // the guards of IsLockedInstantSendTransaction
    self: Option<Masternode>,                   // fMasternodeMode and activeMasternode
    timedOut: TxHash -> bool,
    validRequest: TxHash -> bool,
    known: Masternode -> bool,
    signed: Vote -> bool,                       // CTxLockVote::CheckSignature
    haveCoin: OutPoint -> bool,
    canSign: bool,
    mempool: OutPoint -> Option<TxHash>,
    mined: TxHash -> bool,
    spamming: bool)

  datatype Node = Node(
    accepted: set<TxHash>, rejected: set<TxHash>,
    seen: set<Vote>, orphans: set<Vote>,
    candidates: map<TxHash, Candidate>,
    voted: map<OutPoint, set<TxHash>>,
    locked: map<OutPoint, TxHash>)

  const EMPTY_NODE := Node({}, {}, {}, {}, map[], map[], map[])

  function Quorum(net: Network, o: OutPoint): (q: set<Masternode>) {
    set i | 0 <= i < |net.ranking(o)| && i < SIGNATURES_TOTAL :: net.ranking(o)[i]
  }

  function Inputs(net: Network, tx: TxHash): set<OutPoint> {
    set i | 0 <= i < |net.vin(tx)| :: net.vin(tx)[i]
  }

  type Candidates = map<TxHash, Candidate>
  type Voted = map<OutPoint, set<TxHash>>

  function VotedFor(voted: Voted, o: OutPoint): set<TxHash> {
    if o in voted then voted[o] else {}
  }

  /** Did `mn` vote for `tx` on `o`, as far as this node knows? */
  predicate Recorded(candidates: Candidates, tx: TxHash, o: OutPoint, mn: Masternode) {
    tx in candidates && candidates[tx].HasVoted(o, mn)
  }

  // ----- The invariant of one node -----

  /** A candidate has no locks yet, or one per input; every voter ranks in the outpoint's quorum. */
  ghost predicate CandidateOk(net: Network, tx: TxHash, c: Candidate) {
    && (!c.request ==> c.locks == map[])
    && (c.locks == map[] || c.locks.Keys == Inputs(net, tx))
    && (forall o :: o in c.locks ==> c.locks[o].votes <= Quorum(net, o))
  }

  ghost predicate CandidatesOk(net: Network, candidates: Candidates) {
    forall tx :: tx in candidates ==> CandidateOk(net, tx, candidates[tx])
  }

  /** mapVotedOutpoints names known candidates only, and every one that has a vote on the outpoint. */
  ghost predicate VotedOk(candidates: Candidates, voted: Voted) {
    && (forall o, tx :: tx in VotedFor(voted, o) ==> tx in candidates)
    && (forall tx, o, mn :: Recorded(candidates, tx, o, mn) ==> tx in VotedFor(voted, o))
  }

  /** A masternode that voted for two transactions on one outpoint has both marked attacked. */
  ghost predicate DoubleVotesMarked(candidates: Candidates) {
    forall a, b, o, mn :: a != b && Recorded(candidates, a, o, mn) && Recorded(candidates, b, o, mn) ==>
      candidates[a].locks[o].attacked
  }

  /** A locked outpoint belongs to a candidate with enough votes on it, all of whose outpoints are locked with it. */
  ghost predicate LockedOk(candidates: Candidates, locked: map<OutPoint, TxHash>) {
    forall o :: o in locked ==>
      var tx := locked[o];
      && tx in candidates && o in candidates[tx].locks
      && |candidates[tx].locks[o].votes| >= SIGNATURES_REQUIRED
      && forall p :: p in candidates[tx].locks ==> p in locked && locked[p] == tx
  }

  ghost predicate NodeInv(net: Network, node: Node) {
    && CandidatesOk(net, node.candidates) && VotedOk(node.candidates, node.voted)
    && DoubleVotesMarked(node.candidates) && LockedOk(node.candidates, node.locked)
  }

  // ----- Two majorities of a quorum share voters -----

  lemma QuorumSize(net: Network, o: OutPoint)
    ensures |Quorum(net, o)| <= SIGNATURES_TOTAL
  {
    PrefixSize(net.ranking(o), SIGNATURES_TOTAL);
  }

  lemma {:induction false} PrefixSize(s: seq<Masternode>, n: nat)
    ensures |set i | 0 <= i < |s| && i < n :: s[i]| <= n
  {
    var all := set i | 0 <= i < |s| && i < n :: s[i];
    if n == 0 || s == [] {
      assert all == {};
    } else if |s| < n {
      PrefixSize(s, n - 1);
      assert all == set i | 0 <= i < |s| && i < n - 1 :: s[i];
    } else {
      PrefixSize(s, n - 1);
      var rest := set i | 0 <= i < |s| && i < n - 1 :: s[i];
      assert all == rest + {s[n - 1]};
    }
  }

  /** Six votes and six votes out of ten have two voters in common. */
  lemma MajoritiesMeet(net: Network, o: OutPoint, a: set<Masternode>, b: set<Masternode>)
    requires a <= Quorum(net, o) && b <= Quorum(net, o)
    requires |a| >= SIGNATURES_REQUIRED && |b| >= SIGNATURES_REQUIRED
    ensures |a * b| >= 2
  {
    QuorumSize(net, o);
    var q := Quorum(net, o);
    assert q == (a + b) + (q - (a + b));
    assert |a + b| == |a| + |b| - |a * b|;
  }

  /**
   On one node, whatever any number of double-voting masternodes do: when an outpoint is locked,
   no other transaction is ready on it.
   */
  lemma LockExcludes(net: Network, node: Node, o: OutPoint, b: TxHash)
    requires NodeInv(net, node) && o in node.locked && b != node.locked[o]
    requires b in node.candidates && o in node.candidates[b].locks
    ensures !node.candidates[b].locks[o].IsReady()
    ensures !node.candidates[b].IsAllOutPointsReady()
  {
    var a := node.locked[o];
    var va, vb := node.candidates[a].locks[o].votes, node.candidates[b].locks[o].votes;
    if |vb| >= SIGNATURES_REQUIRED {
      assert CandidateOk(net, a, node.candidates[a]) && CandidateOk(net, b, node.candidates[b]);
      MajoritiesMeet(net, o, va, vb);
      var mn :| mn in va * vb;
      assert Recorded(node.candidates, a, o, mn) && Recorded(node.candidates, b, o, mn);
    }
  }
}
