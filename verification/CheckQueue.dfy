/** The check queue as an object: its methods are the critical sections and the work between them. */
module CheckQueue {
  import opened Common
  import opened CheckQueueModel
  import opened CheckQueueRuns

  class Queue<T> {
    const nBatchSize: nat
    var queue: seq<T>
    var nIdle: int
    var nTotal: int
    var fAllOk: bool
    var nTodo: int
    /** Where each thread stands in Loop, with its local batch; the first is the master. */
    var threads: seq<Phase<T>>

    function View(): State<T>
      reads this
    {
      State(queue, nIdle, nTotal, fAllOk, nTodo, nBatchSize, threads)
    }

    constructor (nBatchSizeIn: nat, nThreads: nat)
      ensures View() == Init(nBatchSizeIn, nThreads)
    {
      nBatchSize := nBatchSizeIn;
      queue, nIdle, nTotal, fAllOk, nTodo := [], 0, 0, true, 0;
      threads := seq(nThreads, _ => Away);
    }

    method AddChecks(checks: seq<T>, who: nat)
      modifies this
      ensures View() == Add(old(View()), checks, who)
    {
      for k := 0 to |checks|
        invariant View() == old(View()).(queue := old(queue) + checks[..k])
      {
        queue := queue + [checks[k]];
      }
      assert checks[..|checks|] == checks;
      nTodo := nTodo + |checks|;
      if |checks| == 1 {
        if 0 < who < |threads| {
          threads := threads[who := Notified(threads[who])];
        }
      } else if |checks| > 1 {
        threads := NotifyWorkers(threads);
      }
    }

    /** From taking the mutex to giving it up: the clean-up, then return, wait or a new batch. */
    method CriticalSection(i: nat) returns (ret: Option<bool>)
      requires CanEnter(View(), i) && Counted(View())
      modifies this
      ensures (View(), ret) == Section(old(View()), i)
    {
      hide Tally; hide Counted; hide CleanUp; hide Proceed;
      CleanUpCounted(View(), i);
      SectionCounts(CleanUp(View(), i), i);
      FinishBatch(i);
      ret := TakeBatch(i);
    }

    method FinishBatch(i: nat)
      requires i < |threads|
      modifies this
      ensures View() == CleanUp(old(View()), i)
    {
      match threads[i] {
        case Busy(_, took, ok) =>
          fAllOk := fAllOk && ok;
          nTodo := nTodo - took;
          if nTodo == 0 && i != 0 {
            threads := threads[0 := Notified(threads[0])];
          }
        case Away =>
          nTotal := nTotal + 1;
        case Blocked(_) =>
          nIdle := nIdle - 1;
      }
    }

    method TakeBatch(i: nat) returns (ret: Option<bool>)
      requires i < |threads| && 0 <= nTotal + nIdle
      modifies this
      ensures (View(), ret) == Proceed(old(View()), i)
    {
      ret := None;
      if queue == [] {
        if i == 0 && nTodo == 0 {
          nTotal := nTotal - 1;
          ret := Some(fAllOk);
          fAllOk := true;
          threads := threads[i := Away];
        } else {
          nIdle := nIdle + 1;
          threads := threads[i := Blocked(false)];
        }
      } else {
        var nNow := BatchCount(|queue|, nBatchSize, nTotal + nIdle + 1);
        var vChecks := PopBatch(nNow);
        threads := threads[i := Busy(vChecks, nNow, fAllOk)];
      }
    }

    /** Move the last `nNow` checks to a local batch, one by one. */
    method PopBatch(nNow: nat) returns (vChecks: seq<T>)
      requires nNow <= |queue|
      modifies this`queue
      ensures queue == old(queue)[..|old(queue)| - nNow] && vChecks == Popped(old(queue), nNow)
    {
      vChecks := [];
      for k := 0 to nNow
        invariant |vChecks| == k && queue == old(queue)[..|old(queue)| - k]
        invariant vChecks + Popped(queue, nNow - k) == Popped(old(queue), nNow)
      {
        vChecks := vChecks + [queue[|queue| - 1]];
        queue := queue[..|queue| - 1];
      }
    }

    /** Evaluate the batch; once a check fails the rest are skipped. */
    method RunBatch(i: nat, eval: T -> bool)
      requires i < |threads| && threads[i].Busy?
      modifies this`threads
      ensures threads == old(threads)[i := Busy([], old(threads[i].took), old(MayPass(threads[i], eval)))]
    {
      while threads[i].todo != []
        invariant i < |threads| && threads == old(threads)[i := threads[i]]
        invariant threads[i].Busy? && threads[i].took == old(threads[i].took)
        invariant MayPass(threads[i], eval) == old(MayPass(threads[i], eval))
        decreases |threads[i].todo|
      {
        var p := threads[i];
        assert AllPass(p.todo, eval) == (eval(p.todo[0]) && AllPass(p.todo[1..], eval)) by {
          AllPassJoin([p.todo[0]], p.todo[1..], eval);
          assert [p.todo[0]] + p.todo[1..] == p.todo;
          assert AllPass([p.todo[0]], eval) == eval(p.todo[0]) by { assert [p.todo[0]][0] == p.todo[0]; }
        }
        var ok := p.ok;
        if ok {
          ok := eval(p.todo[0]);
        }
        threads := threads[i := Busy(p.todo[1..], p.took, ok)];
      }
    }

    /** `since` are the checks added since Wait last returned. */
    method Idle(ghost since: seq<T>, ghost eval: T -> bool) returns (r: bool)
      requires Inv(View(), since, eval)
      ensures r <==> queue == [] && (forall i :: 0 <= i < |threads| ==> !threads[i].Busy?) && AllPass(since, eval)
      ensures since == [] && threads[0].Away? ==> r
    {
      IdleMeaning(View(), since, eval);
      if since == [] && threads[0].Away? {
        IdleBetweenWaits(World(View(), since, []), eval);
      }
      return nTotal == nIdle && nTodo == 0 && fAllOk;
    }
  }
}
