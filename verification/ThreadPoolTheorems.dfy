/** The pool's guarantees over whole runs: accounting, task order and minimum size. */
module ThreadPoolTheorems {
  import opened Basics
  import opened Threads
  import opened TidList
  import opened ThreadPoolProtocol
  import opened ThreadPoolAccounting

  // ----- accounting

  /** `cur_thread_cnt` is the number of live workers and of used slots; no error branch was ever taken. */
  lemma CountersMatchThreads(trace: seq<Pool>, steps: seq<Step>, i: nat)
    requires IsRun(trace, steps) && i < |trace|
    ensures var s := trace[i];
      s.cur == |s.workers| == |Owners(s.tids)| <= s.maxCnt && s.act == Count(s.workers, IsBusy) <= s.cur &&
      s.errors == 0
  {
    RunInvariant(trace, steps, i);
    CountBound(trace[i].workers, IsBusy);
  }

  /** FindTidIdx finds the caller, and nowhere else in the list. */
  lemma WorkerOwnsOneSlot(trace: seq<Pool>, steps: seq<Step>, i: nat, t: Tid)
    requires IsRun(trace, steps) && i < |trace| && t in trace[i].workers
    ensures var idx := IndexOf(trace[i].tids, t);
      idx >= 0 && forall j | 0 <= j < |trace[i].tids| :: trace[i].tids[j] == t <==> j == idx
  {
    RunInvariant(trace, steps, i);
    assert t in Owners(trace[i].tids);
  }

  // ----- tasks

  /** Tasks start in the order in which they were accepted; what has not started is the queue. */
  lemma TasksConserved(trace: seq<Pool>, steps: seq<Step>, i: nat)
    requires IsRun(trace, steps) && i < |trace|
    ensures trace[i].accepted == trace[i].started + trace[i].queue
    ensures |trace[i].queue| <= 2 * trace[i].maxCnt
  {
    RunInvariant(trace, steps, i);
  }

  /** A started task is finished, or exactly one worker is running it. */
  lemma StartedOnceEach(trace: seq<Pool>, steps: seq<Step>, i: nat, job: nat)
    requires IsRun(trace, steps) && i < |trace| && job < |trace[i].started|
    ensures var s := trace[i];
      (job in s.finished <==> !(exists t | t in s.workers :: s.workers[t] == Busy(job))) &&
      forall t, u | t in s.workers && u in s.workers :: s.workers[t] == Busy(job) == s.workers[u] ==> t == u
  {
    RunInvariant(trace, steps, i);
    var s := trace[i];
    assert job in Below(|s.started|);
    assert forall t | t in s.workers && s.workers[t].Busy? :: s.workers[t].job in BusyJobs(s.workers);
    if job !in s.finished {
      assert job in BusyJobs(s.workers);
      var t :| t in s.workers && s.workers[t].Busy? && s.workers[t].job == job;
      assert s.workers[t] == Busy(job);
    }
  }

  ghost predicate HistoryGrows(s: Pool, s': Pool) {
    s.accepted <= s'.accepted && s.started <= s'.started && s.finished <= s'.finished
  }

  lemma {:induction false} GrowSameHistory(s: Pool, newTids: seq<Tid>)
    ensures var g := Grow(s, newTids);
      g == s.(tids := g.tids, cur := g.cur, workers := g.workers, errors := g.errors)
    decreases |newTids|
  {
    if newTids != [] {
      GrowSameHistory(CreateWorker(s, newTids[0]), newTids[1..]);
    }
  }

  lemma StepHistoryGrows(s: Pool, step: Step)
    requires CanStep(s, step)
    ensures HistoryGrows(s, Apply(s, step))
  {
    if step.CtrlTick? {
      GrowSameHistory(s, step.newTids);
    }
  }

  /** Nothing accepted, started or finished is ever forgotten. */
  lemma {:induction false} HistoryIsKept(trace: seq<Pool>, steps: seq<Step>, i: nat, j: nat)
    requires IsRun(trace, steps) && i <= j < |trace|
    ensures HistoryGrows(trace[i], trace[j])
    decreases j
  {
    if i < j {
      HistoryIsKept(trace, steps, i, j - 1);
      StepHistoryGrows(trace[j - 1], steps[j - 1]);
    }
  }

  // ----- minimum size

  /** Even if all requested exits happen, at least `min_thread_cnt` workers remain. */
  ghost predicate KeepsMinimum(s: Pool) {
    s.shutdown || s.cur >= s.waitExit + s.minCnt
  }

  /** A tick that decides to shrink although the exits still pending already use up the room. */
  ghost predicate OverShrinks(s: Pool, step: Step) {
    step.CtrlTick? && !s.shutdown && !step.loadHigh && step.loadLow &&
    s.cur > ShrinkTarget(s) && s.waitExit + s.minCnt > ShrinkTarget(s)
  }

  /** What a tick does to the counters while no shutdown is requested. */
  lemma TickCounters(s: Pool, high: bool, low: bool, newTids: seq<Tid>)
    requires Inv(s) && !s.shutdown && CanStep(s, CtrlTick(high, low, newTids))
    ensures var s' := Tick(s, high, low, newTids);
      !s'.shutdown && s'.minCnt == s.minCnt && s'.cur == s.cur + |newTids| &&
      s'.waitExit == if low && !high then Add32(s.waitExit, ShrinkStrategy(s)) else s.waitExit
  {
    if high {
      GrowKeeps(s, newTids);
    }
  }

  lemma TickMinimum(s: Pool, step: Step)
    requires Inv(s) && KeepsMinimum(s) && step.CtrlTick? && CanStep(s, step)
    ensures KeepsMinimum(Apply(s, step)) <==> !OverShrinks(s, step)
  {
    if !s.shutdown {
      TickCounters(s, step.loadHigh, step.loadLow, step.newTids);
    }
  }

  lemma MinimumKeptIff(s: Pool, step: Step)
    requires Inv(s) && KeepsMinimum(s) && CanStep(s, step)
    ensures KeepsMinimum(Apply(s, step)) <==> !OverShrinks(s, step)
  {
    if step.CtrlTick? {
      TickMinimum(s, step);
    } else if step.WorkerSection? {
      assert step.worker in Owners(s.tids);
    }
  }

  lemma {:induction false} MinimumKept(trace: seq<Pool>, steps: seq<Step>, i: nat)
    requires IsRun(trace, steps) && i < |trace|
    requires forall k | 0 <= k < i :: !OverShrinks(trace[k], steps[k])
    ensures KeepsMinimum(trace[i])
    decreases i
  {
    if i > 0 {
      MinimumKept(trace, steps, i - 1);
      RunInvariant(trace, steps, i - 1);
      MinimumKeptIff(trace[i - 1], steps[i - 1]);
    }
  }

  /**
   A shrink leaves twice as many threads as are busy, once all requested exits have
   happened, exactly when the exits pending before it are what the minimum adds to that.
   */
  lemma ShrinkAimsAtHalfIff(s: Pool, newTids: seq<Tid>)
    requires Inv(s) && !s.shutdown && CanStep(s, CtrlTick(false, true, newTids)) && ShrinkStrategy(s) > 0
    ensures var s' := Apply(s, CtrlTick(false, true, newTids));
      s'.cur - s'.waitExit == 2 * s.act <==> s.waitExit == Max(s.minCnt - 2 * s.act, 0)
  {
    TickCounters(s, false, true, newTids);
    ShrinkSum(s.cur, s.act, s.minCnt, s.waitExit);
  }

  /** The same on numbers; the sum may wrap around. */
  lemma ShrinkSum(cur: nat, act: nat, minCnt: nat, waitExit: nat)
    requires cur > Max(act * 2, minCnt) && cur < U32_RANGE && waitExit < U32_RANGE
    ensures cur - Add32(waitExit, cur - Max(act * 2, minCnt)) == 2 * act <==> waitExit == Max(minCnt - 2 * act, 0)
  {
  }

  /** If every shrink is decided with no exit pending, the pool never goes below its minimum. */
  lemma MinimumKeptWithoutPendingExits(trace: seq<Pool>, steps: seq<Step>, i: nat)
    requires IsRun(trace, steps) && i < |trace|
    requires forall k | 0 <= k < i && steps[k].CtrlTick? && steps[k].loadLow && !trace[k].shutdown ::
      trace[k].waitExit == 0
    ensures trace[i].shutdown || trace[i].cur >= trace[i].waitExit + trace[i].minCnt
  {
    MinimumKept(trace, steps, i);
  }
}
