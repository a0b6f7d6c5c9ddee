/** The pool's shutdown over whole runs: what the flag freezes, who is released, and how it comes to its end. */
module ThreadPoolShutdown {
  import opened Threads
  import opened TidList
  import opened ThreadPoolProtocol
  import opened ThreadPoolAccounting
  import opened ThreadPoolTheorems

  // ----- what the flag freezes

  /** What shutdown freezes. Workers only leave. */
  ghost predicate Frozen(s: Pool, s': Pool) {
    s'.shutdown && s'.queue == s.queue && s'.accepted == s.accepted && s'.started == s.started &&
    s'.workers.Keys <= s.workers.Keys && (s.drained ==> s'.drained)
  }

  lemma StepAfterShutdown(s: Pool, step: Step)
    requires CanStep(s, step) && s.shutdown
    ensures Frozen(s, Apply(s, step))
  {
  }

  /** Once the flag is set no worker is created and no task is enqueued or dequeued. */
  lemma {:induction false} ShutdownFreezes(trace: seq<Pool>, steps: seq<Step>, i: nat, j: nat)
    requires IsRun(trace, steps) && i <= j < |trace| && trace[i].shutdown
    ensures Frozen(trace[i], trace[j])
    decreases j
  {
    if i < j {
      ShutdownFreezes(trace, steps, i, j - 1);
      StepAfterShutdown(trace[j - 1], steps[j - 1]);
    }
  }

  /** When the control thread has left, no worker is live, no task runs, and every started task is finished. */
  lemma NothingRunsAfterControlLeaves(trace: seq<Pool>, steps: seq<Step>, i: nat)
    requires IsRun(trace, steps) && i < |trace| && trace[i].ctrl.Finished?
    ensures var s := trace[i];
      s.shutdown && s.workers == map[] && s.act == 0 && s.finished == Below(|s.started|)
  {
    RunInvariant(trace, steps, i);
    CountBound(trace[i].workers, IsBusy);
    assert trace[i].workers.Keys == {};
  }

  // ----- what success means

  lemma AnswerAt(s: Pool, p: nat, wake: set<Tid>)
    requires p in s.producers && AnswerOf(s) == Success
    ensures AddTask(s, p, wake).accepted == s.accepted + (if s.shutdown then [] else [s.producers[p].task])
  {
  }

  /**
   A call that answers success has put its task behind the accepted ones if and only if
   the flag was not set; else the task is dropped, and nothing is accepted any more.
   */
  lemma SuccessMeansAcceptedIff(trace: seq<Pool>, steps: seq<Step>, i: nat, j: nat, p: nat)
    requires IsRun(trace, steps) && i < j < |trace| && steps[i].ProducerSection? && steps[i].producer == p
    requires p in trace[i].producers && AnswerOf(trace[i]) == Success
    ensures trace[i].accepted + [trace[i].producers[p].task] <= trace[j].accepted <==> !trace[i].shutdown
    ensures trace[i].shutdown ==> trace[j].accepted == trace[i].accepted
  {
    AnswerAt(trace[i], p, steps[i].wake);
    if trace[i].shutdown {
      ShutdownFreezes(trace, steps, i, j);
    } else {
      HistoryIsKept(trace, steps, i + 1, j);
    }
  }

  // ----- who is released when the control thread leaves

  /** A tick that runs the shutdown branch: it still finds a worker. */
  ghost predicate DrainTick(s: Pool, step: Step) {
    step.CtrlTick? && s.shutdown && s.cur > 0
  }

  ghost predicate Drains(trace: seq<Pool>, steps: seq<Step>, k: nat, i: nat)
    requires i <= |steps| && i < |trace|
  {
    exists m :: k <= m < i && DrainTick(trace[m], steps[m])
  }

  lemma DrainsStep(trace: seq<Pool>, steps: seq<Step>, i: nat)
    requires 0 < i <= |steps| && i < |trace|
    ensures Drains(trace, steps, 0, i) <==> Drains(trace, steps, 0, i - 1) || DrainTick(trace[i - 1], steps[i - 1])
  {
  }

  lemma DrainedAt(trace: seq<Pool>, steps: seq<Step>, j: nat)
    requires IsRun(trace, steps) && j < |steps|
    ensures trace[j + 1].drained <==> trace[j].drained || DrainTick(trace[j], steps[j])
  {
    StepDrained(trace[j], steps[j]);
  }

  /** Nothing else than such a tick sets the history bit. */
  lemma {:induction false} DrainedIff(trace: seq<Pool>, steps: seq<Step>, i: nat)
    requires IsRun(trace, steps) && i < |trace|
    ensures trace[i].drained <==> Drains(trace, steps, 0, i)
    decreases i
  {
    if i > 0 {
      DrainedIff(trace, steps, i - 1);
      DrainedAt(trace, steps, i - 1);
      DrainsStep(trace, steps, i);
    }
  }

  lemma StepDrained(s: Pool, step: Step)
    requires CanStep(s, step)
    ensures Apply(s, step).drained <==> s.drained || DrainTick(s, step)
  {
    if step.CtrlTick? {
      GrowSameHistory(s, step.newTids);
    }
  }

  /** From the first tick that runs its shutdown branch, nobody sleeps and everybody is asked to leave. */
  lemma NobodySleepsAfterDrain(trace: seq<Pool>, steps: seq<Step>, i: nat, j: nat)
    requires IsRun(trace, steps) && i < j < |trace| && DrainTick(trace[i], steps[i])
    ensures NobodySleeps(trace[j]) && trace[j].waitExit == trace[j].cur
  {
    DrainedIff(trace, steps, j);
    RunInvariant(trace, steps, j);
  }

  /** Producer `p` wakes up by itself between the pools `k` and `i`. */
  ghost predicate WakesUp(steps: seq<Step>, k: nat, i: nat, p: nat)
    requires i <= |steps|
  {
    exists m :: k <= m < i && steps[m] == ProducerSpurious(p)
  }

  /** After the shutdown only the shutdown branch of a tick signals producers, and nobody falls asleep. */
  lemma SleepersAfterShutdown(s: Pool, step: Step)
    requires CanStep(s, step) && s.shutdown && !DrainTick(s, step)
    ensures Where(Apply(s, step).producers, IsBlocked) ==
            Where(s.producers, IsBlocked) - (if step.ProducerSpurious? then {step.producer} else {})
  {
  }

  lemma SleepersAt(trace: seq<Pool>, steps: seq<Step>, k: nat, j: nat, i: nat)
    requires IsRun(trace, steps) && k <= j < i < |trace| && trace[k].shutdown && !Drains(trace, steps, k, i)
    ensures Where(trace[j + 1].producers, IsBlocked) ==
            Where(trace[j].producers, IsBlocked) - (if steps[j].ProducerSpurious? then {steps[j].producer} else {})
  {
    ShutdownFreezes(trace, steps, k, j);
    assert !DrainTick(trace[j], steps[j]);
    SleepersAfterShutdown(trace[j], steps[j]);
  }

  /** Who is left of a set from which every step takes at most the producer that it wakes. */
  lemma {:induction false} OnlySpurious(asleep: seq<set<nat>>, steps: seq<Step>, k: nat, i: nat)
    requires k <= i <= |steps| < |asleep|
    requires forall j | k <= j < i :: asleep[j + 1] ==
               asleep[j] - (if steps[j].ProducerSpurious? then {steps[j].producer} else {})
    ensures asleep[i] == set p | p in asleep[k] && !WakesUp(steps, k, i, p)
    decreases i
  {
    if k < i {
      var j := i - 1;
      OnlySpurious(asleep, steps, k, j);
      forall p ensures WakesUp(steps, k, i, p) <==> WakesUp(steps, k, j, p) || steps[j] == ProducerSpurious(p) {
      }
    }
  }

  ghost function Sleepers(trace: seq<Pool>): (asleep: seq<set<nat>>)
    ensures |asleep| == |trace| && forall j | 0 <= j < |trace| :: asleep[j] == Where(trace[j].producers, IsBlocked)
  {
    seq(|trace|, j requires 0 <= j < |trace| => Where(trace[j].producers, IsBlocked))
  }

  /** Without such a tick, a producer asleep at the shutdown sleeps on until it wakes up by itself. */
  lemma SleepersWithoutDrain(trace: seq<Pool>, steps: seq<Step>, k: nat, i: nat)
    requires IsRun(trace, steps) && k <= i < |trace| && trace[k].shutdown && !Drains(trace, steps, k, i)
    ensures Where(trace[i].producers, IsBlocked) ==
            set p | p in Where(trace[k].producers, IsBlocked) && !WakesUp(steps, k, i, p)
  {
    var asleep := Sleepers(trace);
    forall j | k <= j < i
      ensures asleep[j + 1] == asleep[j] - (if steps[j].ProducerSpurious? then {steps[j].producer} else {})
    {
      SleepersAt(trace, steps, k, j, i);
    }
    OnlySpurious(asleep, steps, k, i);
  }

  /**
   When the control thread has left, no producer sleeps if and only if a tick after the
   shutdown still found a worker, or every producer that slept at the shutdown has woken
   up by itself. `k` is any moment after the shutdown.
   */
  lemma ReleasedAtExitIff(trace: seq<Pool>, steps: seq<Step>, k: nat, i: nat)
    requires IsRun(trace, steps) && k <= i < |trace| && trace[k].shutdown && trace[i].ctrl.Finished?
    ensures Where(trace[i].producers, IsBlocked) == {} <==>
            Drains(trace, steps, 0, i) ||
            forall p | p in Where(trace[k].producers, IsBlocked) :: WakesUp(steps, k, i, p)
  {
    if Drains(trace, steps, 0, i) {
      DrainedIff(trace, steps, i);
      RunInvariant(trace, steps, i);
    } else {
      assert !Drains(trace, steps, k, i) by {
        assert forall m | 0 <= m < i :: !DrainTick(trace[m], steps[m]);
      }
      SleepersWithoutDrain(trace, steps, k, i);
      SleepersLeft(Where(trace[k].producers, IsBlocked), steps, k, i);
    }
  }

  lemma SleepersLeft(asleep: set<nat>, steps: seq<Step>, k: nat, i: nat)
    requires i <= |steps|
    ensures (set p | p in asleep && !WakesUp(steps, k, i, p)) == {} <==>
            forall p | p in asleep :: WakesUp(steps, k, i, p)
  {
    var left := set p | p in asleep && !WakesUp(steps, k, i, p);
    if left == {} {
      forall p | p in asleep ensures WakesUp(steps, k, i, p) {
        assert p !in left;
      }
    } else {
      var p :| p in left;
    }
  }

  /** A producer that is asleep when the control thread has left is never signalled again. */
  lemma StrandedStaysStranded(s: Pool, step: Step, p: nat)
    requires Inv(s) && CanStep(s, step) && s.ctrl.Finished?
    requires p in s.producers && s.producers[p].Blocked? && step != ProducerSpurious(p)
    ensures var s' := Apply(s, step);
      s'.ctrl.Finished? && p in s'.producers && s'.producers[p] == s.producers[p]
  {
    assert s.workers.Keys == {};
  }

  /** So it sleeps for the rest of the run, unless it wakes up spuriously. */
  lemma {:induction false} StrandedForEver(trace: seq<Pool>, steps: seq<Step>, i: nat, j: nat, p: nat)
    requires IsRun(trace, steps) && i <= j < |trace| && trace[i].ctrl.Finished?
    requires p in trace[i].producers && trace[i].producers[p].Blocked?
    requires forall k | i <= k < j :: steps[k] != ProducerSpurious(p)
    ensures trace[j].ctrl.Finished? && p in trace[j].producers && trace[j].producers[p] == trace[i].producers[p]
    decreases j
  {
    if i < j {
      StrandedForEver(trace, steps, i, j - 1, p);
      RunInvariant(trace, steps, j - 1);
      StrandedStaysStranded(trace[j - 1], steps[j - 1], p);
    }
  }

  // ----- progress of the shutdown

  /** What the workers still have to do before the control thread may leave: end their tasks, and exit. */
  function WorkLeft(s: Pool): nat { s.cur + s.act }

  predicate IsWorkerStep(step: Step) { step.WorkerSection? || step.WorkerFinish? }

  /** After the shutdown every step of a worker is one of them; no other step adds or takes any. */
  lemma WorkLeftStep(s: Pool, step: Step)
    requires Inv(s) && s.shutdown && CanStep(s, step)
    ensures WorkLeft(Apply(s, step)) == WorkLeft(s) - (if IsWorkerStep(step) then 1 else 0)
  {
    if step.WorkerSection? {
      assert step.worker in Owners(s.tids);
      assert step.worker in s.workers.Keys;
    } else if step.WorkerFinish? {
      CountPositive(s.workers, step.worker, IsBusy);
    }
  }

  function WorkerSteps(steps: seq<Step>): nat {
    if steps == [] then 0
    else WorkerSteps(steps[..|steps| - 1]) + (if IsWorkerStep(steps[|steps| - 1]) then 1 else 0)
  }

  lemma WorkLeftAt(trace: seq<Pool>, steps: seq<Step>, k: nat, j: nat)
    requires IsRun(trace, steps) && k <= j < |steps| && trace[k].shutdown
    ensures WorkLeft(trace[j + 1]) == WorkLeft(trace[j]) - (if IsWorkerStep(steps[j]) then 1 else 0)
  {
    ShutdownFreezes(trace, steps, k, j);
    RunInvariant(trace, steps, j);
    WorkLeftStep(trace[j], steps[j]);
  }

  lemma {:induction false} CountDown(left: seq<int>, steps: seq<Step>, k: nat, i: nat)
    requires k <= i <= |steps| < |left|
    requires forall j | k <= j < i :: left[j + 1] == left[j] - (if IsWorkerStep(steps[j]) then 1 else 0)
    ensures left[i] == left[k] - WorkerSteps(steps[k..i])
    decreases i
  {
    if k < i {
      CountDown(left, steps, k, i - 1);
      assert steps[k..i][..i - 1 - k] == steps[k..i - 1];
    }
  }

  /** So the worker steps of a shutdown are bounded: each one that has been made is gone. */
  lemma WorkerStepsCounted(trace: seq<Pool>, steps: seq<Step>, k: nat, i: nat)
    requires IsRun(trace, steps) && k <= i < |trace| && trace[k].shutdown
    ensures WorkLeft(trace[i]) == WorkLeft(trace[k]) - WorkerSteps(steps[k..i])
  {
    var left := seq(|trace|, j requires 0 <= j < |trace| => WorkLeft(trace[j]));
    forall j | k <= j < i ensures left[j + 1] == left[j] - (if IsWorkerStep(steps[j]) then 1 else 0) {
      WorkLeftAt(trace, steps, k, j);
    }
    CountDown(left, steps, k, i);
  }

  /** Once a tick has run the shutdown branch, a worker can step for as long as the control thread may not leave. */
  lemma ShutdownNotStuck(trace: seq<Pool>, steps: seq<Step>, i: nat)
    requires IsRun(trace, steps) && i < |trace| && trace[i].drained
    ensures CtrlMayLeave(trace[i]) <==> !(exists step :: IsWorkerStep(step) && CanStep(trace[i], step))
    ensures CtrlMayLeave(trace[i]) <==> WorkLeft(trace[i]) == 0
  {
    RunInvariant(trace, steps, i);
    var s := trace[i];
    CountBound(s.workers, IsBusy);
    if s.cur > 0 {
      var t :| t in s.workers;
      assert t !in Where(s.workers, IsAsleep);
      assert SignalOk({}, Where(s.producers, IsBlocked));
      assert if s.workers[t].Busy? then CanStep(s, WorkerFinish(t)) else CanStep(s, WorkerSection(t, {}));
    }
  }
}
