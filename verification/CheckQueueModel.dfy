/**
 The parallel check queue: one master and any number of workers around one mutex. Every critical
 section is one atomic step; the evaluation of the checks of a batch happens in steps between them.
 */
module CheckQueueModel {
  import opened Common


  /**
   Where a thread is: outside Loop, blocked on its condition variable, or evaluating a batch of
   `took` checks of which `todo` are left, with `ok` its local result.
   */
  datatype Phase<T> = Away | Blocked(notified: bool) | Busy(todo: seq<T>, took: nat, ok: bool)

  /** The shared fields and the threads; thread 0 is the master. */
  datatype State<T> = State(
    queue: seq<T>, nIdle: int, nTotal: int, fAllOk: bool, nTodo: int, nBatchSize: nat, threads: seq<Phase<T>>)

  function Init<T>(nBatchSize: nat, nThreads: nat): State<T> {
    State([], 0, 0, true, 0, nBatchSize, seq(nThreads, _ => Away))
  }

  // ----- The steps -----

  function Min(a: int, b: int): int { if a < b then a else b }
  function Max(a: int, b: int): int { if a < b then b else a }

  /** How many checks a thread takes; never more than there are. */
  function BatchCount(size: nat, nBatchSize: nat, divisor: int): (n: nat)
    requires 1 <= size && 1 <= divisor
    ensures 1 <= n <= size && n <= Max(1, nBatchSize)
  {
    assert size / divisor <= size by { DivideDown(size, divisor); }
    Max(1, Min(nBatchSize, size / divisor))
  }

  lemma DivideDown(size: nat, divisor: int)
    requires 1 <= divisor
    ensures 0 <= size / divisor <= size
  {
    MultiplyUp(size / divisor, divisor);
  }

  lemma MultiplyUp(q: int, divisor: int)
    requires 1 <= divisor
    ensures 0 <= q ==> q <= q * divisor
  {
  }

  /** The last `n` checks, popped from the back. */
  function Popped<T>(queue: seq<T>, n: nat): (r: seq<T>)
    requires n <= |queue|
    ensures |r| == n
  {
    if n == 0 then [] else [queue[|queue| - 1]] + Popped(queue[..|queue| - 1], n - 1)
  }

  function Notified<T>(p: Phase<T>): Phase<T> {
    if p.Blocked? then Blocked(true) else p
  }

  /** What a thread does on taking the mutex, before it looks at the queue. */
  function CleanUp<T>(s: State<T>, i: nat): (r: State<T>)
    requires i < |s.threads|
    ensures r.queue == s.queue && |r.threads| == |s.threads|
  {
    match s.threads[i]
    case Away => s.(nTotal := s.nTotal + 1)
    case Blocked(_) => s.(nIdle := s.nIdle - 1)
    case Busy(_, took, ok) =>
      var left := s.nTodo - took;
      s.(fAllOk := s.fAllOk && ok, nTodo := left,
         threads := if left == 0 && i != 0 then s.threads[0 := Notified(s.threads[0])] else s.threads)
  }

  /** The rest of the critical section: return, wait, or take a batch. */
  function Proceed<T>(s: State<T>, i: nat): (r: (State<T>, Option<bool>))
    requires i < |s.threads| && (s.queue != [] ==> 0 <= s.nTotal + s.nIdle)
  {
    if s.queue == [] then
      if i == 0 && s.nTodo == 0 then
        (s.(nTotal := s.nTotal - 1, fAllOk := true, threads := s.threads[i := Away]), Some(s.fAllOk))
      else
        (s.(nIdle := s.nIdle + 1, threads := s.threads[i := Blocked(false)]), None)
    else
      var n := BatchCount(|s.queue|, s.nBatchSize, s.nTotal + s.nIdle + 1);
      (s.(queue := s.queue[..|s.queue| - n],
          threads := s.threads[i := Busy(Popped(s.queue, n), n, s.fAllOk)]), None)
  }

  /** A thread may enter its critical section unless it still has checks to evaluate. */
  predicate CanEnter<T>(s: State<T>, i: nat) {
    i < |s.threads| && (s.threads[i].Busy? ==> s.threads[i].todo == [])
  }

  function Evaluate<T>(s: State<T>, i: nat, eval: T -> bool): (r: State<T>)
    requires i < |s.threads| && s.threads[i].Busy? && s.threads[i].todo != []
  {
    var p := s.threads[i];
    s.(threads := s.threads[i := Busy(p.todo[1..], p.took, p.ok && eval(p.todo[0]))])
  }

  function NotifyWorkers<T>(threads: seq<Phase<T>>): (r: seq<Phase<T>>)
    ensures |r| == |threads|
    ensures forall i :: 0 <= i < |r| ==> r[i] == if i == 0 then threads[i] else Notified(threads[i])
  {
    seq(|threads|, i requires 0 <= i < |threads| => if i == 0 then threads[i] else Notified(threads[i]))
  }

  /** Add; a single check wakes worker `who`, chosen by the scheduler among those that wait. */
  function Add<T>(s: State<T>, checks: seq<T>, who: nat): (r: State<T>) {
    var threads :=
      if |checks| == 1 then
        if 0 < who < |s.threads| then s.threads[who := Notified(s.threads[who])] else s.threads
      else if |checks| > 1 then NotifyWorkers(s.threads)
      else s.threads;
    s.(queue := s.queue + checks, nTodo := s.nTodo + |checks|, threads := threads)
  }

  predicate IsIdle<T>(s: State<T>) {
    s.nTotal == s.nIdle && s.nTodo == 0 && s.fAllOk
  }

  // ----- Sums over the threads -----

  function Tally<T>(threads: seq<Phase<T>>, f: Phase<T> -> int): int {
    if threads == [] then 0 else Tally(threads[1..], f) + f(threads[0])
  }

  lemma {:induction false} TallyUpdate<T>(threads: seq<Phase<T>>, f: Phase<T> -> int, i: nat, p: Phase<T>)
    requires i < |threads|
    ensures Tally(threads[i := p], f) == Tally(threads, f) - f(threads[i]) + f(p)
  {
    if i > 0 {
      TallyUpdate(threads[1..], f, i - 1, p);
      assert threads[i := p][1..] == threads[1..][i - 1 := p];
    } else {
      assert threads[i := p][1..] == threads[1..];
    }
  }

  lemma {:induction false} TallySame<T>(a: seq<Phase<T>>, b: seq<Phase<T>>, f: Phase<T> -> int)
    requires |a| == |b| && forall i :: 0 <= i < |a| ==> f(a[i]) == f(b[i])
    ensures Tally(a, f) == Tally(b, f)
  {
    if a != [] {
      TallySame(a[1..], b[1..], f);
    }
  }

  /** A sum of terms none of which is negative bounds each of them. */
  lemma {:induction false} TallyBounds<T>(threads: seq<Phase<T>>, f: Phase<T> -> int, i: nat)
    requires (forall p :: 0 <= f(p)) && i < |threads|
    ensures f(threads[i]) <= Tally(threads, f)
  {
    if i > 0 {
      TallyBounds(threads[1..], f, i - 1);
    } else if |threads| > 1 {
      TallyBounds(threads[1..], f, 0);
    }
  }

  /** A positive sum has a positive term. */
  lemma {:induction false} TallyWitness<T>(threads: seq<Phase<T>>, f: Phase<T> -> int) returns (i: nat)
    requires Tally(threads, f) > 0
    ensures i < |threads| && f(threads[i]) > 0
  {
    if f(threads[0]) > 0 {
      i := 0;
    } else {
      i := TallyWitness(threads[1..], f);
      i := i + 1;
    }
  }

  function InFlight<T>(p: Phase<T>): int { if p.Busy? then p.took else 0 }
  function Inside<T>(p: Phase<T>): int { if p.Away? then 0 else 1 }
  function Waiting<T>(p: Phase<T>): int { if p.Blocked? then 1 else 0 }

  // ----- The invariant -----

  ghost predicate AllPass<T>(checks: seq<T>, eval: T -> bool) {
    forall k :: 0 <= k < |checks| ==> eval(checks[k])
  }

  ghost predicate MayPass<T>(p: Phase<T>, eval: T -> bool) {
    p.Busy? ==> p.ok && AllPass(p.todo, eval)
  }

  ghost predicate Counted<T>(s: State<T>) {
    && s.nTodo == |s.queue| + Tally(s.threads, InFlight)
    && s.nTotal == Tally(s.threads, Inside)
    && s.nIdle == Tally(s.threads, Waiting)
    && forall i :: 0 <= i < |s.threads| && s.threads[i].Busy? ==> 1 <= s.threads[i].took && |s.threads[i].todo| <= s.threads[i].took
  }

  /** All checks since the last answer pass exactly when nothing failed so far and nothing left fails. */
  ghost predicate Tracked<T>(s: State<T>, since: seq<T>, eval: T -> bool) {
    && (AllPass(since, eval) <==>
        s.fAllOk && AllPass(s.queue, eval) && forall i :: 0 <= i < |s.threads| ==> MayPass(s.threads[i], eval))
    && s.nTodo <= |since|
  }

  /** A blocked master left nothing in the queue, and is notified once nothing is left at all. */
  ghost predicate MasterServed<T>(s: State<T>) {
    |s.threads| > 0 && (s.threads[0].Blocked? ==> s.queue == [] && (s.nTodo == 0 ==> s.threads[0].notified))
  }

  ghost predicate Inv<T>(s: State<T>, since: seq<T>, eval: T -> bool) {
    Counted(s) && Tracked(s, since, eval) && MasterServed(s)
  }
}
