/** No wakeup is lost: nobody sleeps on a condition while there is more work than woken threads. */
module ThreadPoolWakeups {
  import opened Threads
  import opened TidList
  import opened ThreadPoolProtocol
  import opened ThreadPoolAccounting
  import opened ThreadPoolTheorems

  // ----- how wakeups change the counts

  lemma WakeCounts(workers: map<Tid, WorkerPc>, wake: set<Tid>)
    requires wake <= Where(workers, IsAsleep)
    ensures Where(WakeWorkers(workers, wake), IsAsleep) == Where(workers, IsAsleep) - wake
    ensures Count(WakeWorkers(workers, wake), IsWoken) == Count(workers, IsWoken) + |wake|
  {
    CountDepart(workers, WakeWorkers(workers, wake), wake, IsAsleep);
    CountArrive(workers, WakeWorkers(workers, wake), wake, IsWoken);
  }

  lemma ReleaseCounts(producers: map<nat, ProducerPc>, released: set<nat>)
    requires released <= Where(producers, IsBlocked)
    ensures Where(ReleaseProducers(producers, released), IsBlocked) == Where(producers, IsBlocked) - released
    ensures Count(ReleaseProducers(producers, released), IsReleased) == Count(producers, IsReleased) + |released|
  {
    CountDepart(producers, ReleaseProducers(producers, released), released, IsBlocked);
    CountArrive(producers, ReleaseProducers(producers, released), released, IsReleased);
  }

  // ----- producers

  /** While somebody sleeps on `queue_not_full`, the free slots do not outnumber the released producers. */
  ghost predicate NoLostRelease(s: Pool) {
    s.shutdown || Where(s.producers, IsBlocked) == {} ||
    s.capacity - |s.queue| <= Count(s.producers, IsReleased)
  }

  lemma AddTaskKeepsReleases(s: Pool, p: nat, wake: set<Tid>)
    requires NoLostRelease(s) && p in s.producers && !s.producers[p].Blocked?
    ensures NoLostRelease(AddTask(s, p, wake))
  {
    CountLeave(s.producers, p, IsBlocked);
    CountLeave(s.producers, p, IsReleased);
  }

  lemma TakeTaskKeepsReleases(s: Pool, t: Tid, released: set<nat>)
    requires NoLostRelease(s) && SignalOk(released, Where(s.producers, IsBlocked))
    ensures NoLostRelease(TakeTask(s, t, released))
  {
    ReleaseCounts(s.producers, released);
    if released != {} {
      var p :| p in released;
      SubsetSize({p}, released);
    }
  }

  lemma TickKeepsReleases(s: Pool, high: bool, low: bool, newTids: seq<Tid>)
    requires Inv(s) && NoLostRelease(s) && CanStep(s, CtrlTick(high, low, newTids))
    ensures NoLostRelease(Tick(s, high, low, newTids))
  {
    GrowSameHistory(s, newTids);
  }

  lemma WorkerTurnKeepsReleases(s: Pool, t: Tid, released: set<nat>)
    requires NoLostRelease(s) && SignalOk(released, Where(s.producers, IsBlocked)) && t in s.workers
    ensures NoLostRelease(WorkerTurn(s, t, released))
  {
    TakeTaskKeepsReleases(s, t, released);
  }

  lemma SubmitKeepsReleases(s: Pool, p: nat, task: Task)
    requires NoLostRelease(s) && p !in s.producers
    ensures NoLostRelease(s.(producers := s.producers[p := Calling(task)]))
  {
    CountMove(s.producers, p, Calling(task), IsBlocked);
    CountMove(s.producers, p, Calling(task), IsReleased);
  }

  lemma SpuriousKeepsReleases(s: Pool, p: nat)
    requires NoLostRelease(s) && p in s.producers && s.producers[p].Blocked?
    ensures NoLostRelease(s.(producers := ReleaseProducers(s.producers, {p})))
  {
    ReleaseCounts(s.producers, {p});
  }

  lemma StepKeepsReleases(s: Pool, step: Step)
    requires Inv(s) && NoLostRelease(s) && CanStep(s, step)
    ensures NoLostRelease(Apply(s, step))
  {
    match step
    case Submit(p, task) => SubmitKeepsReleases(s, p, task);
    case ProducerSection(p, wake) => AddTaskKeepsReleases(s, p, wake);
    case ProducerSpurious(p) => SpuriousKeepsReleases(s, p);
    case WorkerSection(t, released) => WorkerTurnKeepsReleases(s, t, released);
    case WorkerFinish(t) =>
    case WorkerSpurious(t) =>
    case CtrlPoll(_) =>
    case CtrlTick(high, low, newTids) => TickKeepsReleases(s, high, low, newTids);
  }

  lemma ReleasesAt(trace: seq<Pool>, steps: seq<Step>, j: nat)
    requires IsRun(trace, steps) && j < |steps| && NoLostRelease(trace[j])
    ensures NoLostRelease(trace[j + 1])
  {
    RunInvariant(trace, steps, j);
    StepKeepsReleases(trace[j], steps[j]);
  }

  /** For any number of threads and any scheduling, with spurious wakeups. */
  lemma {:induction false} NoProducerWakeupLost(trace: seq<Pool>, steps: seq<Step>, i: nat)
    requires IsRun(trace, steps) && i < |trace|
    ensures NoLostRelease(trace[i])
    decreases i
  {
    if i == 0 {
      assert Where(trace[0].producers, IsBlocked) == {};
    } else {
      NoProducerWakeupLost(trace, steps, i - 1);
      ReleasesAt(trace, steps, i - 1);
    }
  }

  // ----- workers

  /** While a worker sleeps on `queue_not_empty`, the tasks do not outnumber the woken workers. */
  ghost predicate NoLostTask(s: Pool) {
    s.shutdown || Where(s.workers, IsAsleep) == {} || |s.queue| <= Count(s.workers, IsWoken)
  }

  /**
   The only way to lose a wakeup: a worker that was woken leaves the pool because of an
   exit request, somebody else sleeps, and the other woken workers are too few for the queue.
   */
  ghost predicate LosesWakeup(s: Pool, step: Step) {
    !s.shutdown && step.WorkerSection? && step.worker in s.workers && s.workers[step.worker].Woken? &&
    s.waitExit != 0 && Where(s.workers, IsAsleep) != {} && |s.queue| >= Count(s.workers, IsWoken)
  }

  lemma AddTaskKeepsWakeups(s: Pool, p: nat, wake: set<Tid>)
    requires NoLostTask(s) && p in s.producers && SignalOk(wake, Where(s.workers, IsAsleep))
    ensures NoLostTask(AddTask(s, p, wake))
  {
    WakeCounts(s.workers, wake);
    if wake != {} {
      var t :| t in wake;
      SubsetSize({t}, wake);
    }
  }

  lemma LeaveWakeups(s: Pool, t: Tid)
    requires Inv(s) && NoLostTask(s) && t in s.workers && !s.workers[t].Asleep? && !s.shutdown
    ensures NoLostTask(LeavePool(s, t)) <==>
            !(s.workers[t].Woken? && Where(s.workers, IsAsleep) != {} && |s.queue| >= Count(s.workers, IsWoken))
  {
    assert t in Owners(s.tids);
    CountLeave(s.workers, t, IsAsleep);
    CountLeave(s.workers, t, IsWoken);
    assert t !in Where(s.workers, IsAsleep);
  }

  lemma TakeWakeups(s: Pool, t: Tid, released: set<nat>)
    requires NoLostTask(s) && t in s.workers && !s.workers[t].Asleep?
    ensures NoLostTask(TakeTask(s, t, released))
  {
    CountMove(s.workers, t, Busy(|s.started|), IsAsleep);
    CountMove(s.workers, t, Busy(|s.started|), IsWoken);
  }

  lemma WorkerTurnWakeups(s: Pool, t: Tid, released: set<nat>)
    requires Inv(s) && NoLostTask(s) && t in s.workers && (s.workers[t].Ready? || s.workers[t].Woken?)
    ensures NoLostTask(WorkerTurn(s, t, released)) <==> !LosesWakeup(s, WorkerSection(t, released))
  {
    if s.shutdown {
    } else if Waits(s, t) {
      CountMove(s.workers, t, Asleep, IsAsleep);
    } else if ExitRequested(s) {
      LeaveWakeups(s, t);
    } else {
      TakeWakeups(s, t, released);
    }
  }

  lemma OnlyAddsReadyCounts(workers: map<Tid, WorkerPc>, workers': map<Tid, WorkerPc>)
    requires OnlyAddsReady(workers, workers')
    ensures Where(workers', IsAsleep) == Where(workers, IsAsleep)
    ensures Where(workers', IsWoken) == Where(workers, IsWoken)
  {
  }

  lemma BroadcastKeepsWakeups(s: Pool)
    requires NoLostTask(s) || s.waitExit != 0
    ensures NoLostTask(BroadcastExit(s))
  {
    assert Where(WakeWorkers(s.workers, s.workers.Keys), IsAsleep) == {};
  }

  lemma TickKeepsWakeups(s: Pool, high: bool, low: bool, newTids: seq<Tid>)
    requires Inv(s) && NoLostTask(s) && CanStep(s, CtrlTick(high, low, newTids))
    ensures NoLostTask(Tick(s, high, low, newTids))
  {
    if !s.shutdown {
      var resized := Resize(s, high, low, newTids);
      if high {
        GrowKeeps(s, newTids);
        OnlyAddsReadyCounts(s.workers, resized.workers);
      }
      BroadcastKeepsWakeups(resized);
    }
  }

  /** Exactly the steps of `LosesWakeup` break the property, from whatever state it holds in. */
  lemma WakeupKeptIff(s: Pool, step: Step)
    requires Inv(s) && NoLostTask(s) && CanStep(s, step)
    ensures NoLostTask(Apply(s, step)) <==> !LosesWakeup(s, step)
  {
    match step
    case Submit(p, task) =>
    case ProducerSection(p, wake) => AddTaskKeepsWakeups(s, p, wake);
    case ProducerSpurious(p) =>
    case WorkerSection(t, released) => WorkerTurnWakeups(s, t, released);
    case WorkerFinish(t) =>
      CountMove(s.workers, t, Ready, IsAsleep);
      CountMove(s.workers, t, Ready, IsWoken);
    case WorkerSpurious(t) => WakeCounts(s.workers, {t});
    case CtrlPoll(_) =>
    case CtrlTick(high, low, newTids) => TickKeepsWakeups(s, high, low, newTids);
  }

  /** Runs without such a step never leave a task behind a sleeping worker. */
  lemma {:induction false} NoWorkerWakeupLost(trace: seq<Pool>, steps: seq<Step>, i: nat)
    requires IsRun(trace, steps) && i < |trace|
    requires forall k | 0 <= k < i :: !LosesWakeup(trace[k], steps[k])
    ensures NoLostTask(trace[i])
    decreases i
  {
    if i == 0 {
      assert Where(trace[0].workers, IsAsleep) == {};
    } else {
      NoWorkerWakeupLost(trace, steps, i - 1);
      RunInvariant(trace, steps, i - 1);
      WakeupKeptIff(trace[i - 1], steps[i - 1]);
    }
  }

  /** In particular runs in which no exit is ever requested. */
  lemma NoWorkerWakeupLostWithoutExits(trace: seq<Pool>, steps: seq<Step>, i: nat)
    requires IsRun(trace, steps) && i < |trace|
    requires forall k | 0 <= k < i :: trace[k].waitExit == 0
    ensures NoLostTask(trace[i])
  {
    NoWorkerWakeupLost(trace, steps, i);
  }

  // ----- both conditions together

  /** There is a task to start or a producer to let in. */
  ghost predicate HasWork(s: Pool) {
    s.queue != [] || Where(s.producers, IsBlocked) != {}
  }

  /** A worker is awake, or a released producer is about to put its task into the queue. */
  ghost predicate SomebodyAwake(s: Pool) {
    (exists t :: t in s.workers && !s.workers[t].Asleep?) || exists p :: p in s.producers && s.producers[p].Released?
  }

  lemma AllAsleep(s: Pool)
    requires s.workers != map[] && !SomebodyAwake(s)
    ensures Where(s.workers, IsAsleep) != {} && Count(s.workers, IsWoken) == 0 && Count(s.producers, IsReleased) == 0
  {
    var t :| t in s.workers;
    assert t in Where(s.workers, IsAsleep);
    assert Where(s.workers, IsWoken) == {};
    assert Where(s.producers, IsReleased) == {};
  }

  /** Neither condition's sleepers can wait for the other's. */
  lemma NotStuck(s: Pool)
    requires NoLostTask(s) && NoLostRelease(s) && !s.shutdown && s.workers != map[] && s.capacity > 0 && HasWork(s)
    ensures SomebodyAwake(s)
  {
    if !SomebodyAwake(s) {
      AllAsleep(s);
    }
  }

  /**
   A run in which no exit has swallowed a wakeup and no tick has shrunk too far is never
   stuck: while it is not shut down and there is work, somebody is awake to do it.
   */
  lemma NeverStuck(trace: seq<Pool>, steps: seq<Step>, i: nat)
    requires IsRun(trace, steps) && i < |trace| && !trace[i].shutdown && HasWork(trace[i])
    requires forall k | 0 <= k < i :: !LosesWakeup(trace[k], steps[k])
    requires forall k | 0 <= k < i :: !OverShrinks(trace[k], steps[k])
    ensures SomebodyAwake(trace[i])
  {
    NoWorkerWakeupLost(trace, steps, i);
    NoProducerWakeupLost(trace, steps, i);
    WorkersRemain(trace, steps, i);
    NotStuck(trace[i]);
  }

  lemma WorkersRemain(trace: seq<Pool>, steps: seq<Step>, i: nat)
    requires IsRun(trace, steps) && i < |trace| && !trace[i].shutdown
    requires forall k | 0 <= k < i :: !OverShrinks(trace[k], steps[k])
    ensures trace[i].workers != map[] && trace[i].capacity > 0
  {
    MinimumKept(trace, steps, i);
    RunInvariant(trace, steps, i);
    assert trace[i].cur == |trace[i].workers.Keys|;
  }

  /** In particular when no exit is ever requested. */
  lemma NeverStuckWithoutExits(trace: seq<Pool>, steps: seq<Step>, i: nat)
    requires IsRun(trace, steps) && i < |trace| && !trace[i].shutdown && HasWork(trace[i])
    requires forall k | 0 <= k <= i :: trace[k].waitExit == 0
    ensures SomebodyAwake(trace[i])
  {
    forall k | 0 <= k < i ensures !LosesWakeup(trace[k], steps[k]) && !OverShrinks(trace[k], steps[k]) {
      RunInvariant(trace, steps, k);
    }
    NeverStuck(trace, steps, i);
  }
}
