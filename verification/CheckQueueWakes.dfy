/**
 Wake-ups of the check queue: which threads Add notifies, and that the workers finish what was added
 before anyone calls Wait, although a waiting worker that nobody notified stays where it is.
 */
module CheckQueueWakes {
  import opened Common
  import opened Powers
  import opened CheckQueueModel
  import opened CheckQueueRuns

  // ----- What Add notifies -----

  /** A worker that waits and was not notified. */
  predicate Sleeps<T>(s: State<T>, i: nat) {
    0 < i < |s.threads| && s.threads[i] == Blocked(false)
  }

  /** The notified threads were waiting workers; everything else about the threads stays. */
  ghost predicate OnlyWakes<T>(s: State<T>, r: State<T>) {
    && |r.threads| == |s.threads|
    && forall i :: 0 <= i < |s.threads| && r.threads[i] != s.threads[i] ==> Sleeps(s, i) && r.threads[i] == Blocked(true)
  }

  /** Add queues the checks behind the others and wakes all sleeping workers, or the chosen one for a single check. */
  lemma AddWakes<T>(s: State<T>, checks: seq<T>, who: nat)
    ensures var r := Add(s, checks, who);
            && r == s.(queue := s.queue + checks, nTodo := s.nTodo + |checks|, threads := r.threads) && OnlyWakes(s, r)
            && (|checks| >= 2 ==> forall i :: !Sleeps(r, i))
            && (|checks| == 1 && Sleeps(s, who) ==> r.threads == s.threads[who := Blocked(true)])
            && (checks == [] ==> r == s)
  {
    if checks == [] {
      assert s.queue + checks == s.queue;
    }
  }

  /** notify_one wakes a sleeping worker if there is one. */
  ghost predicate Chooses<T>(s: State<T>, who: nat) {
    (exists i: nat :: Sleeps(s, i)) ==> Sleeps(s, who)
  }

  // ----- Runs in which nobody wakes without a notification -----

  ghost predicate Strict<T>(s: State<T>, e: Event<T>) {
    && Legal(s, e)
    && (e.Enter? ==> s.threads[e.thread] != Blocked(false))
    && (e.AddChecks? ==> Chooses(s, e.who))
  }

  /** While there are checks to take, some worker is on its way. */
  ghost predicate Awake<T>(s: State<T>) {
    s.queue != [] ==> exists i: nat :: 0 < i < |s.threads| && !Sleeps(s, i)
  }

  lemma AddAwake<T>(s: State<T>, checks: seq<T>, who: nat)
    requires Awake(s) && |s.threads| > 1 && Chooses(s, who)
    ensures Awake(Add(s, checks, who))
  {
    hide Add;
    AddWakes(s, checks, who);
    var r := Add(s, checks, who);
    if |checks| >= 2 {
      assert !Sleeps(r, 1);
    } else if |checks| == 1 {
      if Sleeps(s, who) {
        assert !Sleeps(r, who);
      } else {
        assert !Sleeps(s, 1);
        assert !Sleeps(r, 1);
      }
    }
  }

  lemma SectionAwake<T>(s: State<T>, i: nat)
    requires Awake(s) && Counted(s) && CanEnter(s, i)
    ensures Awake(Section(s, i).0)
  {
    hide Tally; hide Counted; hide Popped; hide BatchCount;
    CleanUpCounted(s, i);
    SectionCounts(CleanUp(s, i), i);
    var r := Section(s, i).0;
    if r.queue != [] {
      assert r.threads[i].Busy?;
      if i > 0 {
        assert !Sleeps(r, i);
      } else {
        var j: nat :| 0 < j < |s.threads| && !Sleeps(s, j);
        assert r.threads[j] == s.threads[j];
        assert !Sleeps(r, j);
      }
    }
  }

  lemma StepAwake<T>(w: World<T>, e: Event<T>, eval: T -> bool)
    requires WorldInv(w, eval) && Strict(w.q, e) && Awake(w.q) && |w.q.threads| > 1
    ensures var v := Step(w, e, eval); Awake(v.q) && |v.q.threads| == |w.q.threads|
  {
    hide Tally; hide Counted; hide Tracked; hide Awake;
    match e
    case AddChecks(checks, who) =>
      AddAwake(w.q, checks, who);
      AddWakes(w.q, checks, who);
    case Enter(i) => SectionAwake(w.q, i);
    case Execute(i) => EvaluateAwake(w.q, i, eval);
  }

  lemma EvaluateAwake<T>(s: State<T>, i: nat, eval: T -> bool)
    requires Awake(s) && i < |s.threads| && s.threads[i].Busy? && s.threads[i].todo != []
    ensures Awake(Evaluate(s, i, eval))
  {
    var r := Evaluate(s, i, eval);
    if r.queue != [] {
      var j: nat :| 0 < j < |s.threads| && !Sleeps(s, j);
      assert !Sleeps(r, j);
    }
  }

  ghost predicate StrictlyReaches<T>(w: World<T>, run: seq<Event<T>>, end: World<T>, eval: T -> bool)
    decreases |run|
  {
    if run == [] then w == end
    else Strict(w.q, run[0]) && Counted(w.q) && StrictlyReaches(Step(w, run[0], eval), run[1..], end, eval)
  }

  /** Whatever happens, queued checks never lie beside workers that all sleep. */
  lemma {:induction false} RunAwake<T>(w: World<T>, run: seq<Event<T>>, end: World<T>, eval: T -> bool)
    requires WorldInv(w, eval) && Awake(w.q) && |w.q.threads| > 1 && StrictlyReaches(w, run, end, eval)
    ensures WorldInv(end, eval) && Awake(end.q) && |end.q.threads| == |w.q.threads|
    decreases |run|
  {
    hide WorldInv; hide Awake; hide Step;
    if run != [] {
      StepKeeps(w, run[0], eval);
      StepAwake(w, run[0], eval);
      RunAwake(Step(w, run[0], eval), run[1..], end, eval);
    }
  }

  // ----- The workers finish -----

  predicate OfWorker<T>(e: Event<T>) {
    !e.AddChecks? && e.thread > 0
  }

  /** A worker that is not asleep can take a step, which brings the end of the work closer. */
  lemma WorkerStep<T>(w: World<T>, i: nat, eval: T -> bool) returns (e: Event<T>)
    requires WorldInv(w, eval) && 0 < i < |w.q.threads| && !Sleeps(w.q, i)
    ensures Strict(w.q, e) && OfWorker(e)
    ensures var v := Step(w, e, eval);
            && 0 <= Measure(v.q) < Measure(w.q) && v.answers == w.answers && v.since == w.since
            && (w.q.threads[0].Away? ==> v.q.threads[0].Away?)
  {
    hide Tally; hide Counted; hide Tracked;
    if w.q.threads[i].Busy? && w.q.threads[i].todo != [] {
      e := Execute(i);
      TallyUpdate(w.q.threads, Weight, i, Step(w, e, eval).q.threads[i]);
    } else {
      e := Enter(i);
      SectionNoAnswer(w.q, i);
      SectionMeasure(w.q, i, w.since, eval);
    }
    MeasureIsNat(Step(w, e, eval).q);
  }

  lemma SectionNoAnswer<T>(s: State<T>, i: nat)
    requires Counted(s) && CanEnter(s, i) && i > 0
    ensures Section(s, i).1 == None
    ensures s.threads[0].Away? ==> Section(s, i).0.threads[0].Away?
  {
    hide Tally; hide Counted; hide Popped; hide BatchCount;
    CleanUpCounted(s, i);
    SectionCounts(CleanUp(s, i), i);
  }

  /** With every worker asleep and the master away nothing is left to do. */
  lemma AllAsleep<T>(w: World<T>, eval: T -> bool)
    requires WorldInv(w, eval) && Awake(w.q) && w.q.threads[0].Away?
    requires forall i :: 0 < i < |w.q.threads| ==> w.q.threads[i] == Blocked(false)
    ensures w.q.queue == [] && w.q.nTodo == 0
  {
    assert forall i: nat :: 0 < i < |w.q.threads| ==> Sleeps(w.q, i);
    NobodyBusy(w.q.threads);
  }

  lemma {:induction false} NobodyBusy<T>(threads: seq<Phase<T>>)
    requires forall i :: 0 <= i < |threads| ==> !threads[i].Busy?
    ensures Tally(threads, InFlight) == 0
  {
    if threads != [] {
      NobodyBusy(threads[1..]);
    }
  }

  /**
   From any point of any run some schedule of the workers alone evaluates everything that was added,
   before Wait is called and without a single wake-up that no notification caused.
   */
  lemma {:induction false} WorkersFinish<T>(w: World<T>, eval: T -> bool) returns (run: seq<Event<T>>, end: World<T>)
    requires WorldInv(w, eval) && Awake(w.q) && |w.q.threads| > 1 && w.q.threads[0].Away?
    ensures StrictlyReaches(w, run, end, eval) && forall k :: 0 <= k < |run| ==> OfWorker(run[k])
    ensures end.q.threads != [] && end.q.threads[0].Away? && end.q.queue == [] && end.q.nTodo == 0
    ensures end.since == w.since && end.answers == w.answers
    decreases Measure(w.q)
  {
    hide Tally; hide Counted; hide Tracked; hide AllPass; hide Measure; hide Step; hide Awake;
    MeasureIsNat(w.q);
    if i: nat :| 0 < i < |w.q.threads| && w.q.threads[i] != Blocked(false) {
      var e := WorkerStep(w, i, eval);
      StepKeeps(w, e, eval);
      StepAwake(w, e, eval);
      var rest;
      rest, end := WorkersFinish(Step(w, e, eval), eval);
      run := [e] + rest;
      assert run[1..] == rest;
    } else {
      AllAsleep(w, eval);
      run, end := [], w;
    }
  }

  // ----- The share of a batch -----

  /** A batch is the largest that neither exceeds the batch size nor the fair share of the queue, but at least one. */
  lemma BatchShare(size: nat, nBatchSize: nat, divisor: int)
    requires 1 <= size && 1 <= divisor
    ensures var n := BatchCount(size, nBatchSize, divisor);
            && (n > 1 ==> n <= nBatchSize && n * divisor <= size)
            && (n < nBatchSize ==> size < (n + 1) * divisor)
  {
    var q := size / divisor;
    var n := BatchCount(size, nBatchSize, divisor);
    assert size == q * divisor + size % divisor;
    Distribute(q, 1, divisor);
    if n <= q {
      MulMono(n, q, divisor);
    }
    if n < nBatchSize {
      MulMono(q + 1, n + 1, divisor);
    }
  }
}
