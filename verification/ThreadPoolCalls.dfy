/**
 What each thread and each caller of the pool sees of a step, field by field and thread by
 thread: which task a call enqueues, which way a worker goes, and what a control tick does
 to the size of the pool, to the sleepers and to the control thread itself.
 */
module ThreadPoolCalls {
  import opened Basics
  import opened Threads
  import opened TidList
  import opened ThreadPoolProtocol
  import opened ThreadPoolAccounting
  import opened ThreadPoolTheorems

  // ----- who can move

  /** A worker that is asleep can only be woken; any other one has a step, and only one kind of step. */
  lemma WhoCanMove(s: Pool, t: Tid, released: set<nat>)
    requires t in s.workers && released <= Where(s.producers, IsBlocked)
    requires released == {} ==> Where(s.producers, IsBlocked) == {}
    ensures CanStep(s, WorkerSection(t, released)) <==> s.workers[t].Ready? || s.workers[t].Woken?
    ensures CanStep(s, WorkerFinish(t)) <==> s.workers[t].Busy?
    ensures CanStep(s, WorkerSpurious(t)) <==> s.workers[t].Asleep?
  {
  }

  /** The same for calls; a signal reaches any sleepers, but never none while somebody sleeps. */
  lemma WhoCanCall(s: Pool, p: nat, task: Task, wake: set<Tid>)
    ensures CanStep(s, Submit(p, task)) <==> p !in s.producers
    ensures CanStep(s, ProducerSpurious(p)) <==> p in s.producers && s.producers[p].Blocked?
    ensures CanStep(s, ProducerSection(p, wake)) <==>
            p in s.producers && !s.producers[p].Blocked? &&
            (forall t | t in wake :: t in s.workers && s.workers[t].Asleep?) &&
            ((exists t :: t in s.workers && s.workers[t].Asleep?) ==> wake != {})
  {
    if t :| t in s.workers && s.workers[t].Asleep? {
      assert t in Where(s.workers, IsAsleep);
    }
  }

  lemma {:induction false} BoundOf(used: set<nat>) returns (bound: nat)
    ensures bound > 0 && forall t | t in used :: t < bound
  {
    if used == {} {
      bound := 1;
    } else {
      var t :| t in used;
      bound := BoundOf(used - {t});
      assert forall u | u in used :: u == t || u in used - {t};
      if bound <= t {
        bound := t + 1;
      }
    }
  }

  /** The control thread always has its next step, whatever the load, until it has left. */
  lemma ControlCanMove(s: Pool, sigquit: bool, high: bool, low: bool) returns (newTids: seq<Tid>)
    requires LoadsPossible(s.act, s.cur, high, low)
    ensures CanStep(s, CtrlPoll(sigquit)) <==> s.ctrl.Polling?
    ensures CanStep(s, CtrlTick(high, low, newTids)) <==> s.ctrl.Ticking?
  {
    var bound := BoundOf(s.workers.Keys);
    assert forall t | t in s.workers :: t in s.workers.Keys;
    newTids := seq(Created(s, high), i => bound + i);
  }

  // ----- a call of thread_pool_add_task

  /** A call keeps the task it was made with, however often it sleeps and is released. */
  lemma TaskStays(s: Pool, step: Step, p: nat)
    requires CanStep(s, step) && p in s.producers && p in Apply(s, step).producers
    ensures Apply(s, step).producers[p].task == s.producers[p].task
  {
    if step.CtrlTick? {
      GrowSameHistory(s, step.newTids);
    }
  }

  /** The call submitted at step `k` is still under way at pool `i`. */
  ghost predicate UnderWay(trace: seq<Pool>, steps: seq<Step>, k: nat, i: nat, p: nat, task: Task)
    requires IsRun(trace, steps)
  {
    k < i < |trace| && steps[k] == Submit(p, task) && forall j | k < j <= i :: p in trace[j].producers
  }

  lemma {:induction false} CallKeepsTask(trace: seq<Pool>, steps: seq<Step>, k: nat, i: nat, p: nat, task: Task)
    requires IsRun(trace, steps) && UnderWay(trace, steps, k, i, p, task)
    ensures trace[i].producers[p].task == task
    decreases i
  {
    if i == k + 1 {
      assert trace[i] == Apply(trace[k], steps[k]);
    } else {
      CallKeepsTask(trace, steps, k, i - 1, p, task);
      TaskStays(trace[i - 1], steps[i - 1], p);
    }
  }

  /** A section of producer `p`, whose task is `task`. */
  ghost predicate CallOutcome(s: Pool, s': Pool, p: nat, task: Task) {
    if s.shutdown then
      s'.producers == s.producers - {p} && s'.queue == s.queue && s'.accepted == s.accepted
    else if |s.queue| < 2 * s.maxCnt then
      s'.producers == s.producers - {p} && s'.queue == s.queue + [task] && s'.accepted == s.accepted + [task]
    else
      s'.producers == s.producers[p := Blocked(task)] && s'.queue == s.queue && s'.accepted == s.accepted
  }

  lemma SectionOutcome(s: Pool, p: nat, wake: set<Tid>)
    requires Inv(s) && p in s.producers
    ensures CallOutcome(s, AddTask(s, p, wake), p, s.producers[p].task)
  {
  }

  /** Whatever a call has been through, it enqueues the task it was submitted with, or sleeps on, or gives up. */
  lemma CallEnqueuesItsTask(trace: seq<Pool>, steps: seq<Step>, k: nat, i: nat, p: nat, task: Task)
    requires IsRun(trace, steps) && UnderWay(trace, steps, k, i, p, task)
    requires i < |steps| && steps[i].ProducerSection? && steps[i].producer == p
    ensures CallOutcome(trace[i], trace[i + 1], p, task)
  {
    CallKeepsTask(trace, steps, k, i, p, task);
    RunInvariant(trace, steps, i);
    SectionOutcome(trace[i], p, steps[i].wake);
  }

  /** Nothing else accepts a task, starts one, or finishes one. */
  lemma WhoChangesHistory(s: Pool, step: Step)
    requires CanStep(s, step)
    ensures Apply(s, step).accepted != s.accepted ==> step.ProducerSection?
    ensures Apply(s, step).started != s.started ==> step.WorkerSection?
    ensures Apply(s, step).finished != s.finished ==> step.WorkerFinish?
  {
    if step.CtrlTick? {
      GrowSameHistory(s, step.newTids);
    }
  }

  /** A producer's section wakes the workers that its signal reaches, and only if it has enqueued a task. */
  lemma SectionWakes(s: Pool, p: nat, wake: set<Tid>)
    requires Inv(s) && CanStep(s, ProducerSection(p, wake))
    ensures var s' := Apply(s, ProducerSection(p, wake));
      s'.workers.Keys == s.workers.Keys &&
      (forall t | t in s.workers :: s'.workers[t] ==
         if t in wake && !s.shutdown && |s.queue| < 2 * s.maxCnt then Woken else s.workers[t]) &&
      s' == s.(producers := s'.producers, queue := s'.queue, accepted := s'.accepted, workers := s'.workers)
  {
  }

  // ----- a worker

  /** Which way a worker goes at the top of its loop, or when it has been woken. */
  lemma WorkerGoes(s: Pool, t: Tid, released: set<nat>)
    requires Inv(s) && CanStep(s, WorkerSection(t, released))
    ensures var s', told := Apply(s, WorkerSection(t, released)), s.shutdown || s.waitExit > 0;
      if told && (s.queue != [] || s.shutdown || s.workers[t].Woken?) then
        s'.workers == s.workers - {t} && s'.started == s.started && s'.producers == s.producers &&
        s'.waitExit == Max(s.waitExit - 1, 0) && s'.cur == s.cur - 1
      else if s.queue == [] then
        s' == s.(workers := s.workers[t := Asleep])
      else
        s'.workers == s.workers[t := Busy(|s.started|)] && s'.started == s.started + [s.queue[0]] &&
        s'.queue == s.queue[1..] && s'.waitExit == s.waitExit && s'.cur == s.cur && s'.act == s.act + 1
  {
    assert t in s.workers.Keys && t in Owners(s.tids);
    ActFits(s);
  }

  /** Taking a task releases exactly the producers that the signal reaches, with their tasks. */
  lemma TakingReleases(s: Pool, t: Tid, released: set<nat>, p: nat)
    requires Inv(s) && CanStep(s, WorkerSection(t, released)) && p in s.producers
    ensures var s' := Apply(s, WorkerSection(t, released));
      p in s'.producers &&
      if p in released && s'.started != s.started then s'.producers[p] == Released(s.producers[p].task)
      else s'.producers[p] == s.producers[p]
  {
    assert t in Owners(s.tids);
  }

  /** The end of a task: the worker goes to the top of its loop, and nobody else notices. */
  lemma FinishGoes(s: Pool, t: Tid)
    requires Inv(s) && CanStep(s, WorkerFinish(t))
    ensures var s' := Apply(s, WorkerFinish(t));
      s'.workers == s.workers[t := Ready] && s'.finished == s.finished + {s.workers[t].job} && s'.act == s.act - 1 &&
      s' == s.(workers := s'.workers, finished := s'.finished, act := s'.act)
  {
    CountPositive(s.workers, t, IsBusy);
  }

  /** A spurious wakeup is one of one thread. */
  lemma SpuriousWakesOne(s: Pool, t: Tid, p: nat)
    ensures CanStep(s, WorkerSpurious(t)) ==> Apply(s, WorkerSpurious(t)) == s.(workers := s.workers[t := Woken])
    ensures CanStep(s, ProducerSpurious(p)) ==>
              Apply(s, ProducerSpurious(p)) == s.(producers := s.producers[p := Released(s.producers[p].task)])
  {
  }

  // ----- the control thread

  /** SIGQUIT sets the flag for good; the control thread goes on to its tick. */
  lemma PollGoes(s: Pool, sigquit: bool)
    requires CanStep(s, CtrlPoll(sigquit))
    ensures var s' := Apply(s, CtrlPoll(sigquit));
      s'.ctrl == Ticking && (s'.shutdown <==> s.shutdown || sigquit) &&
      s' == s.(ctrl := s'.ctrl, shutdown := s'.shutdown)
  {
  }

  /** It leaves at the first tick of a shutdown that finds no worker, and changes nothing else then. */
  lemma TickGoes(s: Pool, high: bool, low: bool, newTids: seq<Tid>)
    requires Inv(s) && CanStep(s, CtrlTick(high, low, newTids))
    ensures var s' := Apply(s, CtrlTick(high, low, newTids));
      if s.shutdown && s.workers == map[] then s' == s.(ctrl := Finished) else s'.ctrl == Polling
  {
    assert s.workers == map[] <==> |s.workers.Keys| == 0;
    if !s.shutdown && high {
      GrowKeeps(s, newTids);
    }
  }

  /** An expansion adds five workers, or as many as the maximum leaves. */
  lemma TickExpands(s: Pool, low: bool, newTids: seq<Tid>)
    requires Inv(s) && CanStep(s, CtrlTick(true, low, newTids)) && !s.shutdown
    ensures var s' := Apply(s, CtrlTick(true, low, newTids));
      s'.waitExit == s.waitExit && |s.workers| <= |s'.workers| <= s.maxCnt &&
      (|s'.workers| == |s.workers| + 5 || (|s'.workers| == s.maxCnt && s.maxCnt < |s.workers| + 5)) &&
      forall t | t in newTids :: t in s'.workers && s'.workers[t] == Ready
  {
    TickKeeps(s, true, low, newTids);
    GrowKeeps(s, newTids);
    GrowHasAll(s, newTids);
  }

  lemma {:induction false} GrowHasAll(s: Pool, newTids: seq<Tid>)
    requires Inv(s) && !s.shutdown && UnusedTids(s, newTids) && |newTids| <= s.maxCnt - s.cur
    ensures forall t | t in newTids :: t in Grow(s, newTids).workers && Grow(s, newTids).workers[t] == Ready
    decreases |newTids|
  {
    if newTids != [] {
      var c := CreateWorker(s, newTids[0]);
      CreateWorkerKeeps(s, newTids[0]);
      GrowKeeps(c, newTids[1..]);
      GrowHasAll(c, newTids[1..]);
    }
  }

  /** How many exits are enough: threads are twice the busy ones, or down to the minimum. */
  predicate Enough(s: Pool, exits: nat) {
    s.cur - exits <= 2 * s.act || s.cur - exits <= s.minCnt
  }

  /** A shrink asks for the least number of exits that is enough. */
  lemma TickShrinks(s: Pool, newTids: seq<Tid>) returns (exits: nat)
    requires Inv(s) && CanStep(s, CtrlTick(false, true, newTids)) && !s.shutdown
    ensures Enough(s, exits) && forall fewer: nat | fewer < exits :: !Enough(s, fewer)
    ensures var s' := Apply(s, CtrlTick(false, true, newTids));
      s'.waitExit == (s.waitExit + exits) % U32_RANGE && s'.workers.Keys == s.workers.Keys
  {
    exits := LeastEnough(s);
    TickCounters(s, false, true, newTids);
    assert newTids == [];
  }

  lemma LeastEnough(s: Pool) returns (exits: nat)
    ensures exits == ShrinkStrategy(s) && Enough(s, exits) && forall fewer: nat | fewer < exits :: !Enough(s, fewer)
  {
    exits := ShrinkStrategy(s);
  }

  /** A load between the thresholds changes neither the size nor the requested exits. */
  lemma TickRests(s: Pool)
    requires Inv(s) && CanStep(s, CtrlTick(false, false, [])) && !s.shutdown
    ensures var s' := Apply(s, CtrlTick(false, false, []));
      s'.waitExit == s.waitExit && s'.workers.Keys == s.workers.Keys && s'.tids == s.tids && s'.cur == s.cur
  {
  }

  /** A tick wakes every sleeping worker if it leaves exits to be made, and nobody otherwise. */
  lemma TickWakes(s: Pool, high: bool, low: bool, newTids: seq<Tid>, t: Tid)
    requires Inv(s) && CanStep(s, CtrlTick(high, low, newTids)) && t in s.workers
    ensures var s' := Apply(s, CtrlTick(high, low, newTids));
      t in s'.workers &&
      s'.workers[t] == if s.workers[t].Asleep? && s'.waitExit > 0 then Woken else s.workers[t]
  {
    if !s.shutdown && high {
      GrowKeeps(s, newTids);
    }
  }

  /** A tick releases every sleeping producer during a shutdown, and touches none before; tasks are not touched. */
  lemma TickReleases(s: Pool, high: bool, low: bool, newTids: seq<Tid>, p: nat)
    requires Inv(s) && CanStep(s, CtrlTick(high, low, newTids)) && p in s.producers
    ensures var s' := Apply(s, CtrlTick(high, low, newTids));
      s'.producers.Keys == s.producers.Keys && s'.queue == s.queue && s'.shutdown == s.shutdown &&
      s'.producers[p] == if s.producers[p].Blocked? && s.shutdown && s.workers != map[]
                         then Released(s.producers[p].task) else s.producers[p]
  {
    assert s.workers == map[] <==> |s.workers.Keys| == 0;
    TickProducers(s, high, low, newTids);
  }

  lemma TickProducers(s: Pool, high: bool, low: bool, newTids: seq<Tid>)
    ensures var s' := Tick(s, high, low, newTids);
      s'.queue == s.queue && s'.shutdown == s.shutdown &&
      s'.producers == if s.shutdown && s.cur > 0 then ReleaseProducers(s.producers, s.producers.Keys) else s.producers
  {
    ResizeReleasesNobody(s, high, low, newTids);
  }

  lemma ResizeReleasesNobody(s: Pool, high: bool, low: bool, newTids: seq<Tid>)
    ensures var r := Resize(s, high, low, newTids);
      r.producers == s.producers && r.queue == s.queue && r.shutdown == s.shutdown
  {
    GrowSameHistory(s, newTids);
  }

  /** The load is high when more than 0.7 of the live threads are busy, low below 0.3, and neither without threads. */
  lemma LoadThresholds(s: Pool, high: bool, low: bool, newTids: seq<Tid>)
    requires Inv(s) && CanStep(s, CtrlTick(high, low, newTids)) && s.cur <= 1_000_000
    ensures s.cur == 0 ==> !high && !low
    ensures high <==> s.act as real > 0.7 * s.cur as real
    ensures low <==> (s.act as real) < 0.3 * s.cur as real
  {
    Tenths(s.act, s.cur);
  }

  lemma Tenths(x: nat, y: nat)
    ensures x as real > 0.7 * y as real <==> 10 * x > 7 * y
    ensures x as real < 0.3 * y as real <==> 10 * x < 3 * y
  {
    var a, c := x as real, y as real;
    assert (10 * x) as real == 10.0 * a && (7 * y) as real == 7.0 * c && (3 * y) as real == 3.0 * c;
    assert a > 0.7 * c <==> 10.0 * a > 7.0 * c;
    assert a < 0.3 * c <==> 10.0 * a < 3.0 * c;
  }
}
