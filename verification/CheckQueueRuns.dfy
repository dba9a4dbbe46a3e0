/** What every step of the check queue keeps, and what every answer of Wait means. */
module CheckQueueRuns {
  import opened Common
  import opened CheckQueueModel

  // ----- Each step keeps the invariant -----

  /** The state with thread `i` taken out of Loop. */
  function Detached<T>(s: State<T>, i: nat): State<T>
    requires i < |s.threads|
  {
    s.(nTotal := s.nTotal - 1, threads := s.threads[i := Away])
  }

  lemma CleanUpCounted<T>(s: State<T>, i: nat)
    requires Counted(s) && CanEnter(s, i)
    ensures Counted(Detached(CleanUp(s, i), i))
  {
    hide Tally;
    var r := CleanUp(s, i);
    assert forall j :: 0 <= j < |r.threads| ==> r.threads[j] == s.threads[j] || (s.threads[j].Blocked? && r.threads[j].Blocked?);
    TallySame(s.threads, r.threads, InFlight);
    TallySame(s.threads, r.threads, Inside);
    TallySame(s.threads, r.threads, Waiting);
    TallyUpdate(r.threads, InFlight, i, Away);
    TallyUpdate(r.threads, Inside, i, Away);
    TallyUpdate(r.threads, Waiting, i, Away);
  }

  lemma CleanUpTracked<T>(s: State<T>, i: nat, since: seq<T>, eval: T -> bool)
    requires Counted(s) && Tracked(s, since, eval) && CanEnter(s, i)
    ensures Tracked(Detached(CleanUp(s, i), i), since, eval)
  {
    hide Tally; hide AllPass;
    var r := Detached(CleanUp(s, i), i);
    assert forall j :: 0 <= j < |r.threads| && j != i ==> r.threads[j] == s.threads[j] || (s.threads[j].Blocked? && r.threads[j].Blocked?);
    assert s.threads[i].Busy? ==> AllPass(s.threads[i].todo, eval) by { AllPassEmpty<T>(eval); }
    if forall j :: 0 <= j < |r.threads| ==> MayPass(r.threads[j], eval) {
      forall j | 0 <= j < |s.threads| && j != i ensures MayPass(s.threads[j], eval) {
        assert MayPass(r.threads[j], eval);
      }
    }
    if forall j :: 0 <= j < |s.threads| ==> MayPass(s.threads[j], eval) {
      assert MayPass(s.threads[i], eval);
      forall j | 0 <= j < |r.threads| ensures MayPass(r.threads[j], eval) {
        assert MayPass(s.threads[j], eval);
      }
    }
  }

  lemma AllPassEmpty<T>(eval: T -> bool)
    ensures AllPass([], eval)
  {
  }

  lemma CleanUpKeeps<T>(s: State<T>, i: nat, since: seq<T>, eval: T -> bool)
    requires Inv(s, since, eval) && CanEnter(s, i)
    ensures Inv(Detached(CleanUp(s, i), i), since, eval)
  {
    hide Tally; hide Counted; hide Tracked;
    CleanUpCounted(s, i);
    CleanUpTracked(s, i, since, eval);
  }

  /** Counts of threads are never negative. */
  lemma {:induction false} CountsNat<T>(threads: seq<Phase<T>>)
    ensures 0 <= Tally(threads, Waiting) <= Tally(threads, Inside)
    ensures (forall i :: 0 <= i < |threads| ==> !threads[i].Busy?) ==> Tally(threads, Waiting) == Tally(threads, Inside)
  {
    if threads != [] {
      CountsNat(threads[1..]);
    }
  }

  /** One whole critical section of thread `i`, and the value it returns from Loop, if it does. */
  function Section<T>(s: State<T>, i: nat): (r: (State<T>, Option<bool>))
    requires CanEnter(s, i) && Counted(s)
  {
    CleanUpCounted(s, i);
    CountsNat(Detached(CleanUp(s, i), i).threads);
    Proceed(CleanUp(s, i), i)
  }

  lemma {:induction false} PoppedPass<T>(queue: seq<T>, n: nat, eval: T -> bool)
    requires n <= |queue|
    ensures AllPass(queue, eval) <==> AllPass(queue[..|queue| - n], eval) && AllPass(Popped(queue, n), eval)
  {
    if n == 0 {
      assert queue[..|queue|] == queue;
    } else {
      var front, last := queue[..|queue| - 1], queue[|queue| - 1];
      PoppedPass(front, n - 1, eval);
      assert front[..|front| - (n - 1)] == queue[..|queue| - n];
      assert AllPass(queue, eval) <==> AllPass(front, eval) && eval(last) by {
        if AllPass(front, eval) && eval(last) {
          forall k | 0 <= k < |queue| ensures eval(queue[k]) {
            if k < |front| { assert eval(front[k]); }
          }
        }
      }
      var rest := Popped(front, n - 1);
      assert Popped(queue, n) == [last] + rest;
      assert AllPass([last] + rest, eval) <==> eval(last) && AllPass(rest, eval) by {
        if AllPass([last] + rest, eval) {
          assert eval(([last] + rest)[0]);
          forall k | 0 <= k < |rest| ensures eval(rest[k]) { assert eval(([last] + rest)[k + 1]); }
        }
      }
    }
  }

  lemma ProceedCounted<T>(s: State<T>, i: nat)
    requires i < |s.threads| && Counted(Detached(s, i)) && 0 <= s.nTotal + s.nIdle
    ensures Counted(Proceed(s, i).0)
  {
    hide Tally;
    var r := Proceed(s, i).0;
    var d := Detached(s, i);
    assert r.threads == d.threads[i := r.threads[i]];
    TallyUpdate(d.threads, InFlight, i, r.threads[i]);
    TallyUpdate(d.threads, Inside, i, r.threads[i]);
    TallyUpdate(d.threads, Waiting, i, r.threads[i]);
  }

  /** Nothing queued and nothing in flight: no thread has a batch. */
  lemma NoneBusy<T>(s: State<T>)
    requires Counted(s) && s.nTodo == 0
    ensures s.queue == [] && forall i :: 0 <= i < |s.threads| ==> !s.threads[i].Busy?
  {
    TallyNat(s.threads);
    forall i | 0 <= i < |s.threads| ensures !s.threads[i].Busy? {
      TallyBounds(s.threads, InFlight, i);
    }
  }

  lemma {:induction false} TallyNat<T>(threads: seq<Phase<T>>)
    ensures 0 <= Tally(threads, InFlight)
  {
    if threads != [] {
      TallyNat(threads[1..]);
    }
  }

  /** What a thread takes is judged as it would have been in the queue. */
  lemma ProceedTracked<T>(s: State<T>, i: nat, since: seq<T>, eval: T -> bool)
    requires i < |s.threads| && Tracked(Detached(s, i), since, eval) && 0 <= s.nTotal + s.nIdle
    requires Proceed(s, i).1.None?
    ensures Tracked(Proceed(s, i).0, since, eval)
  {
    hide AllPass;
    var r := Proceed(s, i).0;
    var d := Detached(s, i);
    assert forall j :: 0 <= j < |r.threads| && j != i ==> r.threads[j] == d.threads[j];
    if s.queue != [] {
      PoppedPass(s.queue, r.threads[i].took, eval);
    }
    if forall j :: 0 <= j < |r.threads| ==> MayPass(r.threads[j], eval) {
      forall j | 0 <= j < |d.threads| ensures MayPass(d.threads[j], eval) {
        assert MayPass(r.threads[j], eval);
      }
      assert MayPass(r.threads[i], eval);
    }
    if s.fAllOk && AllPass(s.queue, eval) && forall j :: 0 <= j < |d.threads| ==> MayPass(d.threads[j], eval) {
      forall j | 0 <= j < |r.threads| ensures MayPass(r.threads[j], eval) {
        assert MayPass(d.threads[j], eval);
      }
    }
  }

  /** The answer of Wait is the conjunction of everything added since the previous answer. */
  lemma AnswerRight<T>(s: State<T>, i: nat, since: seq<T>, eval: T -> bool)
    requires i < |s.threads| && Inv(Detached(s, i), since, eval) && 0 <= s.nTotal + s.nIdle
    requires Proceed(s, i).1.Some?
    ensures i == 0 && Proceed(s, i).1.value == AllPass(since, eval)
    ensures Inv(Proceed(s, i).0, [], eval)
  {
    var d := Detached(s, i);
    NoneBusy(d);
    ProceedCounted(s, i);
    assert forall j :: 0 <= j < |d.threads| ==> MayPass(d.threads[j], eval);
  }

  lemma SectionKeeps<T>(s: State<T>, i: nat, since: seq<T>, eval: T -> bool)
    requires Inv(s, since, eval) && CanEnter(s, i)
    ensures var (r, ret) := Section(s, i);
            match ret
            case None => Inv(r, since, eval)
            case Some(answer) => i == 0 && answer == AllPass(since, eval) && Inv(r, [], eval)
  {
    hide Tally; hide Counted; hide Tracked; hide CleanUp; hide AllPass;
    CleanUpKeeps(s, i, since, eval);
    CleanUpCounted(s, i);
    var c := CleanUp(s, i);
    CountsNat(Detached(c, i).threads);
    assert 0 <= c.nTotal + c.nIdle by { SectionCounts(c, i); }
    if Proceed(c, i).1.None? {
      ProceedCounted(c, i);
      ProceedTracked(c, i, since, eval);
    } else {
      AnswerRight(c, i, since, eval);
    }
  }

  lemma SectionCounts<T>(c: State<T>, i: nat)
    requires i < |c.threads| && Counted(Detached(c, i))
    ensures 0 <= c.nTotal + c.nIdle
  {
    CountsNat(Detached(c, i).threads);
  }

  lemma EvaluateKeeps<T>(s: State<T>, i: nat, since: seq<T>, eval: T -> bool)
    requires Inv(s, since, eval) && i < |s.threads| && s.threads[i].Busy? && s.threads[i].todo != []
    ensures Inv(Evaluate(s, i, eval), since, eval)
  {
    hide Tally;
    var r := Evaluate(s, i, eval);
    TallyUpdate(s.threads, InFlight, i, r.threads[i]);
    TallyUpdate(s.threads, Inside, i, r.threads[i]);
    TallyUpdate(s.threads, Waiting, i, r.threads[i]);
    var todo := s.threads[i].todo;
    assert AllPass(todo, eval) <==> eval(todo[0]) && AllPass(todo[1..], eval) by {
      if eval(todo[0]) && AllPass(todo[1..], eval) {
        forall k | 0 <= k < |todo| ensures eval(todo[k]) {
          if k > 0 { assert eval(todo[1..][k - 1]); }
        }
      }
    }
    assert forall j :: 0 <= j < |r.threads| ==> MayPass(r.threads[j], eval) == MayPass(s.threads[j], eval);
  }

  lemma AddKeeps<T>(s: State<T>, checks: seq<T>, who: nat, since: seq<T>, eval: T -> bool)
    requires Inv(s, since, eval) && s.threads[0].Away?
    ensures Inv(Add(s, checks, who), since + checks, eval)
  {
    hide Tally;
    var r := Add(s, checks, who);
    assert forall j :: 0 <= j < |r.threads| ==> r.threads[j] == s.threads[j] || (s.threads[j].Blocked? && r.threads[j].Blocked?);
    TallySame(s.threads, r.threads, InFlight);
    TallySame(s.threads, r.threads, Inside);
    TallySame(s.threads, r.threads, Waiting);
    AllPassJoin(since, checks, eval);
    AllPassJoin(s.queue, checks, eval);
    assert forall j :: 0 <= j < |r.threads| ==> MayPass(r.threads[j], eval) == MayPass(s.threads[j], eval);
  }

  lemma AllPassJoin<T>(a: seq<T>, b: seq<T>, eval: T -> bool)
    ensures AllPass(a + b, eval) <==> AllPass(a, eval) && AllPass(b, eval)
  {
    if AllPass(a + b, eval) {
      forall k | 0 <= k < |a| ensures eval(a[k]) { assert eval((a + b)[k]); }
      forall k | 0 <= k < |b| ensures eval(b[k]) { assert eval((a + b)[|a| + k]); }
    }
  }

  // ----- Runs: every interleaving -----

  datatype Event<T> = AddChecks(checks: seq<T>, who: nat) | Enter(thread: nat) | Execute(thread: nat)

  /** Only the master adds, and not while it is in Wait; a blocked thread may wake at any time. */
  predicate Legal<T>(s: State<T>, e: Event<T>) {
    match e
    case AddChecks(_, _) => |s.threads| > 0 && s.threads[0].Away?
    case Enter(i) => CanEnter(s, i)
    case Execute(i) => i < |s.threads| && s.threads[i].Busy? && s.threads[i].todo != []
  }

  /** The queue, the checks added since Wait last returned, and all earlier answers with their checks. */
  datatype World<T> = World(q: State<T>, since: seq<T>, answers: seq<(seq<T>, bool)>)

  function Step<T>(w: World<T>, e: Event<T>, eval: T -> bool): World<T>
    requires Legal(w.q, e) && Counted(w.q)
  {
    match e
    case AddChecks(checks, who) => World(Add(w.q, checks, who), w.since + checks, w.answers)
    case Enter(i) => (
      var (q, ret) := Section(w.q, i);
      if ret.None? then World(q, w.since, w.answers) else World(q, [], w.answers + [(w.since, ret.value)]))
    case Execute(i) => w.(q := Evaluate(w.q, i, eval))
  }

  ghost predicate AnswersRight<T>(answers: seq<(seq<T>, bool)>, eval: T -> bool) {
    forall k :: 0 <= k < |answers| ==> answers[k].1 == AllPass(answers[k].0, eval)
  }

  ghost predicate WorldInv<T>(w: World<T>, eval: T -> bool) {
    Inv(w.q, w.since, eval) && AnswersRight(w.answers, eval)
  }

  lemma StepKeeps<T>(w: World<T>, e: Event<T>, eval: T -> bool)
    requires WorldInv(w, eval) && Legal(w.q, e)
    ensures WorldInv(Step(w, e, eval), eval)
  {
    hide Counted; hide Tracked; hide MasterServed; hide AllPass; hide Add; hide Section; hide Evaluate;
    match e
    case AddChecks(checks, who) => AddKeeps(w.q, checks, who, w.since, eval);
    case Enter(i) => SectionKeeps(w.q, i, w.since, eval);
    case Execute(i) => EvaluateKeeps(w.q, i, w.since, eval);
  }

  lemma {:induction false} InitTally<T>(threads: seq<Phase<T>>, f: Phase<T> -> int)
    requires f(Away) == 0 && forall i :: 0 <= i < |threads| ==> threads[i] == Away
    ensures Tally(threads, f) == 0
  {
    if threads != [] {
      InitTally(threads[1..], f);
    }
  }

  lemma InitInv<T>(nBatchSize: nat, nThreads: nat, eval: T -> bool)
    requires nThreads > 0
    ensures WorldInv(World(Init(nBatchSize, nThreads), [], []), eval)
  {
    var s := Init<T>(nBatchSize, nThreads);
    InitTally(s.threads, InFlight);
    InitTally(s.threads, Inside);
    InitTally(s.threads, Waiting);
  }

  ghost predicate Reaches<T>(w: World<T>, run: seq<Event<T>>, end: World<T>, eval: T -> bool)
    decreases |run|
  {
    if run == [] then w == end
    else Legal(w.q, run[0]) && Counted(w.q) && Reaches(Step(w, run[0], eval), run[1..], end, eval)
  }

  lemma {:induction false} RunKeeps<T>(w: World<T>, run: seq<Event<T>>, end: World<T>, eval: T -> bool)
    requires WorldInv(w, eval) && Reaches(w, run, end, eval)
    ensures WorldInv(end, eval)
    decreases |run|
  {
    if run != [] {
      StepKeeps(w, run[0], eval);
      RunKeeps(Step(w, run[0], eval), run[1..], end, eval);
    }
  }

  /** In every interleaving, every answer of Wait is true exactly when all checks it stands for pass. */
  lemma WaitAnswers<T>(nBatchSize: nat, nThreads: nat, run: seq<Event<T>>, end: World<T>, eval: T -> bool, k: nat)
    requires nThreads > 0 && Reaches(World(Init(nBatchSize, nThreads), [], []), run, end, eval)
    requires k < |end.answers|
    ensures end.answers[k].1 <==> forall j :: 0 <= j < |end.answers[k].0| ==> eval(end.answers[k].0[j])
  {
    InitInv(nBatchSize, nThreads, eval);
    RunKeeps(World(Init(nBatchSize, nThreads), [], []), run, end, eval);
  }

  /** Idle means: nothing queued, nobody at work, and everything added since the last answer passed. */
  lemma IdleMeaning<T>(s: State<T>, since: seq<T>, eval: T -> bool)
    requires Inv(s, since, eval)
    ensures IsIdle(s) <==>
            s.queue == [] && (forall i :: 0 <= i < |s.threads| ==> !s.threads[i].Busy?) && AllPass(since, eval)
  {
    CountsNat(s.threads);
    TallyNat(s.threads);
    if s.nTodo == 0 {
      NoneBusy(s);
    }
    if s.queue == [] && forall i :: 0 <= i < |s.threads| ==> !s.threads[i].Busy? {
      NothingInFlight(s.threads);
    }
  }

  lemma {:induction false} NothingInFlight<T>(threads: seq<Phase<T>>)
    requires forall i :: 0 <= i < |threads| ==> !threads[i].Busy?
    ensures Tally(threads, InFlight) == 0
  {
    if threads != [] {
      NothingInFlight(threads[1..]);
    }
  }

  /** With nothing added since Wait last returned and the master outside, the queue is idle. */
  lemma IdleBetweenWaits<T>(w: World<T>, eval: T -> bool)
    requires WorldInv(w, eval) && w.since == [] && w.q.threads[0].Away?
    ensures IsIdle(w.q)
  {
    TallyNat(w.q.threads);
    NoneBusy(w.q);
    CountsNat(w.q.threads);
  }

  /** And nothing but an Add of some checks or a new Wait changes that. */
  lemma IdleStays<T>(w: World<T>, e: Event<T>, eval: T -> bool)
    requires WorldInv(w, eval) && Legal(w.q, e) && w.since == [] && w.q.threads[0].Away?
    requires e != Enter(0) && (e.AddChecks? ==> e.checks == [])
    ensures IsIdle(Step(w, e, eval).q) && Step(w, e, eval).answers == w.answers
  {
    StepKeeps(w, e, eval);
    IdleBetweenWaits(w, eval);
    NoneBusy(w.q);
    IdleBetweenWaits(Step(w, e, eval), eval);
  }

  // ----- Wait returns -----

  /** A waiting master that nobody notified can rely on a worker that still has a batch. */
  lemma SomeoneWorks<T>(s: State<T>, since: seq<T>, eval: T -> bool) returns (i: nat)
    requires Inv(s, since, eval) && s.threads[0] == Blocked(false)
    ensures 0 < i < |s.threads| && s.threads[i].Busy?
  {
    TallyNat(s.threads);
    i := TallyWitness(s.threads, InFlight);
  }

  function Weight<T>(p: Phase<T>): int {
    match p
    case Away => 3
    case Blocked(notified) => if notified then 1 else 0
    case Busy(todo, _, _) => |todo| + 2
  }

  /** Work left while the master is in Wait. */
  function Measure<T>(s: State<T>): int {
    4 * |s.queue| + Tally(s.threads, Weight)
  }

  lemma {:induction false} MeasureNat<T>(threads: seq<Phase<T>>)
    ensures 0 <= Tally(threads, Weight)
  {
    if threads != [] {
      MeasureNat(threads[1..]);
    }
  }

  lemma SectionMeasure<T>(s: State<T>, i: nat, since: seq<T>, eval: T -> bool)
    requires Inv(s, since, eval) && CanEnter(s, i) && Section(s, i).1.None?
    ensures Measure(Section(s, i).0) < Measure(s) || Section(s, i).0 == s
    ensures s.threads[i] != Blocked(false) ==> Measure(Section(s, i).0) < Measure(s)
  {
    hide Tally; hide Counted; hide Tracked;
    CleanUpCounted(s, i);
    var c := CleanUp(s, i);
    SectionCounts(c, i);
    var r := Section(s, i).0;
    if c.threads != s.threads {
      TallyUpdate(s.threads, Weight, 0, c.threads[0]);
    }
    TallyUpdate(c.threads, Weight, i, r.threads[i]);
    assert c.threads[i] == s.threads[i];
    if s.queue == [] && s.threads[i] == Blocked(false) {
      assert r.threads == s.threads;
    }
  }

  /**
   While the master is in Wait, every step that changes anything brings Wait closer to its return;
   only a wake-up without reason, which blocks again at once, leaves all as it was.
   */
  lemma StepProgress<T>(w: World<T>, e: Event<T>, eval: T -> bool)
    requires WorldInv(w, eval) && Legal(w.q, e) && !w.q.threads[0].Away?
    ensures var v := Step(w, e, eval);
            || (v.q.threads[0].Away? && v.answers == w.answers + [(w.since, AllPass(w.since, eval))])
            || (0 <= Measure(v.q) < Measure(w.q) && !v.q.threads[0].Away? && v.answers == w.answers && v.since == w.since)
            || (v == w && e.Enter? && w.q.threads[e.thread] == Blocked(false))
  {
    hide Tally; hide Counted; hide Tracked;
    var v := Step(w, e, eval);
    match e
    case Enter(i) =>
      if Section(w.q, i).1.None? {
        SectionMeasure(w.q, i, w.since, eval);
        MeasureNat(v.q.threads);
      } else {
        SectionKeeps(w.q, i, w.since, eval);
      }
    case Execute(i) =>
      TallyUpdate(w.q.threads, Weight, i, v.q.threads[i]);
      MeasureNat(v.q.threads);
  }

  /** And until Wait returns, a step that changes something is always possible. */
  lemma WaitProgress<T>(w: World<T>, eval: T -> bool) returns (e: Event<T>)
    requires WorldInv(w, eval) && !w.q.threads[0].Away?
    ensures Legal(w.q, e) && !e.AddChecks? && !(e.Enter? && w.q.threads[e.thread] == Blocked(false))
  {
    hide Tally; hide Counted; hide Tracked;
    var i: nat := 0;
    if w.q.threads[0] == Blocked(false) {
      i := SomeoneWorks(w.q, w.since, eval);
    }
    if w.q.threads[i].Busy? && w.q.threads[i].todo != [] {
      e := Execute(i);
    } else {
      e := Enter(i);
    }
  }

  /** So from anywhere inside Wait some schedule ends it, with the right answer. */
  lemma WaitReturns<T>(w: World<T>, eval: T -> bool) returns (run: seq<Event<T>>, end: World<T>)
    requires WorldInv(w, eval) && !w.q.threads[0].Away?
    ensures Reaches(w, run, end, eval) && |run| <= Measure(w.q) + 1
    ensures end.q.threads != [] && end.q.threads[0].Away?
    ensures end.answers == w.answers + [(w.since, AllPass(w.since, eval))]
    decreases Measure(w.q)
  {
    hide Tally; hide Counted; hide Tracked; hide AllPass; hide Measure; hide Step;
    MeasureIsNat(w.q);
    var e := WaitProgress(w, eval);
    StepProgress(w, e, eval);
    StepKeeps(w, e, eval);
    var v := Step(w, e, eval);
    if v.q.threads[0].Away? {
      run, end := [e], v;
      assert [e][1..] == [] && Reaches(v, [], v, eval);
    } else {
      var rest;
      rest, end := WaitReturns(v, eval);
      run := [e] + rest;
      assert run[1..] == rest;
    }
  }

  lemma MeasureIsNat<T>(s: State<T>)
    ensures 0 <= Measure(s)
  {
    MeasureNat(s.threads);
  }
}
