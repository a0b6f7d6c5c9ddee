/**
 What every reachable pool satisfies: the counters agree with the threads, every live
 worker owns one slot, tasks are neither lost nor duplicated, and the branches that
 report an impossible situation are never taken.
 */
module ThreadPoolAccounting {
  import opened Basics
  import opened Threads
  import opened TidList
  import opened ThreadPoolProtocol

  // ----- the invariant

  ghost predicate LimitsOk(s: Pool) {
    ValidLimits(s.minCnt, s.maxCnt) && s.capacity == 2 * s.maxCnt && |s.queue| <= s.capacity &&
    s.waitExit < U32_RANGE
  }

  /** Each live worker owns exactly one slot, and `cur_thread_cnt` counts them. */
  ghost predicate SlotsOk(tids: seq<Tid>, live: set<Tid>, cur: nat, maxCnt: nat) {
    |tids| == maxCnt && Exclusive(tids) && Owners(tids) == live && cur == |live| <= maxCnt
  }

  function BusyJobs(workers: map<Tid, WorkerPc>): set<nat> {
    set t | t in workers && workers[t].Busy? :: workers[t].job
  }

  /** No two workers run the same start. */
  ghost predicate OneWorkerPerJob(workers: map<Tid, WorkerPc>) {
    forall t, u | t in workers && u in workers && t != u && workers[t].Busy? && workers[u].Busy? ::
      workers[t].job != workers[u].job
  }

  /** Every start is finished or running at exactly one worker; `act_thread_cnt` counts the running ones. */
  ghost predicate JobsOk(workers: map<Tid, WorkerPc>, starts: nat, finished: set<nat>, act: nat) {
    finished + BusyJobs(workers) == Below(starts) && finished !! BusyJobs(workers) &&
    OneWorkerPerJob(workers) && act == Count(workers, IsBusy)
  }

  ghost predicate NobodySleeps(s: Pool) {
    Where(s.workers, IsAsleep) == {} && Where(s.producers, IsBlocked) == {}
  }

  ghost predicate ShutdownOk(s: Pool) {
    (s.drained ==> s.shutdown && s.waitExit == s.cur && NobodySleeps(s)) &&
    (s.ctrl.Finished? ==> s.shutdown && s.cur == 0)
  }

  ghost predicate Inv(s: Pool) {
    LimitsOk(s) && SlotsOk(s.tids, s.workers.Keys, s.cur, s.maxCnt) &&
    s.accepted == s.started + s.queue &&
    JobsOk(s.workers, |s.started|, s.finished, s.act) &&
    ShutdownOk(s) && s.errors == 0
  }

  // ----- tables of workers

  lemma SameBusyKeeps(workers: map<Tid, WorkerPc>, workers': map<Tid, WorkerPc>,
                      starts: nat, finished: set<nat>, act: nat)
    requires JobsOk(workers, starts, finished, act)
    requires forall t | t in workers && workers[t].Busy? :: t in workers' && workers'[t] == workers[t]
    requires forall t | t in workers' && workers'[t].Busy? :: t in workers && workers'[t] == workers[t]
    ensures JobsOk(workers', starts, finished, act)
  {
    assert Where(workers, IsBusy) == Where(workers', IsBusy);
    assert BusyJobs(workers) == BusyJobs(workers') by {
      forall job | job in BusyJobs(workers) ensures job in BusyJobs(workers') {
        var t :| t in workers && workers[t].Busy? && workers[t].job == job;
        assert workers'[t] == workers[t];
      }
    }
  }

  lemma WakeKeepsJobs(workers: map<Tid, WorkerPc>, wake: set<Tid>, starts: nat, finished: set<nat>, act: nat)
    requires JobsOk(workers, starts, finished, act)
    ensures JobsOk(WakeWorkers(workers, wake), starts, finished, act)
    ensures WakeWorkers(workers, wake).Keys == workers.Keys
    ensures Where(WakeWorkers(workers, wake), IsAsleep) <= Where(workers, IsAsleep)
  {
    SameBusyKeeps(workers, WakeWorkers(workers, wake), starts, finished, act);
  }

  lemma BusyJobsStart(workers: map<Tid, WorkerPc>, t: Tid, job: nat)
    requires t in workers && !workers[t].Busy?
    ensures BusyJobs(workers[t := Busy(job)]) == BusyJobs(workers) + {job}
  {
    var workers' := workers[t := Busy(job)];
    forall k | k in BusyJobs(workers) + {job} ensures k in BusyJobs(workers') {
      if k == job {
        assert workers'[t].job == k;
      } else {
        var u :| u in workers && workers[u].Busy? && workers[u].job == k;
        assert workers'[u] == workers[u];
      }
    }
  }

  lemma BusyJobsFinish(workers: map<Tid, WorkerPc>, t: Tid)
    requires t in workers && workers[t].Busy? && OneWorkerPerJob(workers)
    ensures BusyJobs(workers[t := Ready]) == BusyJobs(workers) - {workers[t].job}
  {
    var workers', job := workers[t := Ready], workers[t].job;
    forall k | k in BusyJobs(workers) && k != job ensures k in BusyJobs(workers') {
      var u :| u in workers && workers[u].Busy? && workers[u].job == k;
      assert workers'[u] == workers[u];
    }
  }

  lemma StartsOnce(workers: map<Tid, WorkerPc>, t: Tid, job: nat)
    requires OneWorkerPerJob(workers) && job !in BusyJobs(workers)
    ensures OneWorkerPerJob(workers[t := Busy(job)])
  {
    assert forall u | u in workers && workers[u].Busy? :: workers[u].job in BusyJobs(workers);
  }

  lemma StartKeeps(workers: map<Tid, WorkerPc>, t: Tid, starts: nat, finished: set<nat>, act: nat)
    requires JobsOk(workers, starts, finished, act) && t in workers && !workers[t].Busy?
    ensures JobsOk(workers[t := Busy(starts)], starts + 1, finished, act + 1)
  {
    CountMove(workers, t, Busy(starts), IsBusy);
    BusyJobsStart(workers, t, starts);
    StartsOnce(workers, t, starts);
    assert Below(starts + 1) == Below(starts) + {starts};
  }

  lemma FinishKeeps(workers: map<Tid, WorkerPc>, t: Tid, starts: nat, finished: set<nat>, act: nat)
    requires JobsOk(workers, starts, finished, act) && t in workers && workers[t].Busy?
    ensures act >= 1
    ensures JobsOk(workers[t := Ready], starts, finished + {workers[t].job}, act - 1)
  {
    CountMove(workers, t, Ready, IsBusy);
    CountPositive(workers, t, IsBusy);
    BusyJobsFinish(workers, t);
    assert workers[t].job in BusyJobs(workers);
  }

  // ----- each critical section keeps the invariant

  lemma EnqueueKeeps(s: Pool, task: Task, producers: map<nat, ProducerPc>, wake: set<Tid>)
    requires Inv(s) && !s.shutdown && !QueueFull(s)
    ensures Inv(s.(queue := s.queue + [task], accepted := s.accepted + [task], producers := producers,
                   workers := WakeWorkers(s.workers, wake)))
  {
    WakeKeepsJobs(s.workers, wake, |s.started|, s.finished, s.act);
    assert s.started + s.queue + [task] == s.started + (s.queue + [task]);
  }

  lemma AddTaskKeeps(s: Pool, p: nat, wake: set<Tid>)
    requires Inv(s) && p in s.producers && !s.producers[p].Blocked?
    ensures Inv(AddTask(s, p, wake))
  {
    if s.shutdown {
      assert Where(s.producers - {p}, IsBlocked) <= Where(s.producers, IsBlocked);
    } else if !QueueFull(s) {
      EnqueueKeeps(s, s.producers[p].task, s.producers - {p}, wake);
    }
  }

  lemma LeavePoolKeeps(s: Pool, t: Tid)
    requires Inv(s) && t in s.workers && !s.workers[t].Busy? && ExitRequested(s)
    ensures Inv(LeavePool(s, t))
  {
    var idx := IndexOf(s.tids, t);
    assert t in Owners(s.tids);
    SlotFreed(s.tids, idx);
    var s' := LeavePool(s, t);
    SameBusyKeeps(s.workers, s'.workers, |s.started|, s.finished, s.act);
    assert s'.workers.Keys == s.workers.Keys - {t};
    assert Where(s'.workers, IsAsleep) <= Where(s.workers, IsAsleep);
  }

  /** `act_thread_cnt` does not wrap around. */
  lemma ActFits(s: Pool)
    requires Inv(s)
    ensures Add32(s.act, 1) == s.act + 1
  {
    CountBound(s.workers, IsBusy);
  }

  lemma TaskStartedKeeps(s: Pool, t: Tid, producers: map<nat, ProducerPc>)
    requires Inv(s) && t in s.workers && !s.workers[t].Busy? && s.queue != [] && !s.shutdown
    ensures Inv(s.(queue := s.queue[1..], started := s.started + [s.queue[0]], act := s.act + 1,
                   workers := s.workers[t := Busy(|s.started|)], producers := producers))
  {
    StartKeeps(s.workers, t, |s.started|, s.finished, s.act);
    assert s.workers[t := Busy(|s.started|)].Keys == s.workers.Keys;
    assert s.started + s.queue == s.started + [s.queue[0]] + s.queue[1..];
  }

  lemma TakeTaskKeeps(s: Pool, t: Tid, released: set<nat>)
    requires Inv(s) && t in s.workers && !s.workers[t].Busy? && s.queue != [] && !ExitRequested(s)
    ensures Inv(TakeTask(s, t, released))
  {
    ActFits(s);
    TaskStartedKeeps(s, t, ReleaseProducers(s.producers, released));
  }

  lemma FinishTaskKeeps(s: Pool, t: Tid)
    requires Inv(s) && t in s.workers && s.workers[t].Busy?
    ensures Inv(FinishTask(s, t))
  {
    var s' := FinishTask(s, t);
    FinishKeeps(s.workers, t, |s.started|, s.finished, s.act);
    assert s'.workers.Keys == s.workers.Keys;
    assert Where(s'.workers, IsAsleep) == Where(s.workers, IsAsleep);
  }

  /** The table grows by workers that have not locked yet. */
  ghost predicate OnlyAddsReady(workers: map<Tid, WorkerPc>, workers': map<Tid, WorkerPc>) {
    (forall t | t in workers :: t in workers' && workers'[t] == workers[t]) &&
    (forall t | t in workers' && t !in workers :: workers'[t] == Ready)
  }

  lemma TakeSlotKeeps(tids: seq<Tid>, live: set<Tid>, cur: nat, maxCnt: nat, t: Tid, idx: nat)
    requires SlotsOk(tids, live, cur, maxCnt) && t != 0 && t !in live && cur < maxCnt
    requires idx < |tids| && tids[idx] == 0
    ensures SlotsOk(tids[idx := t], live + {t}, cur + 1, maxCnt)
  {
    assert t !in Owners(tids);
    SlotTaken(tids, idx, t);
  }

  lemma NewWorkerTakesSlot(tids: seq<Tid>, live: set<Tid>, cur: nat, maxCnt: nat, t: Tid)
    requires SlotsOk(tids, live, cur, maxCnt) && t != 0 && t !in live && cur < maxCnt
    ensures IndexOf(tids, 0) >= 0
    ensures SlotsOk(tids[IndexOf(tids, 0) := t], live + {t}, cur + 1, maxCnt)
  {
    FreeSlotExists(tids);
    TakeSlotKeeps(tids, live, cur, maxCnt, t, IndexOf(tids, 0));
  }

  /** The -1 branch of the expansion loop is not taken. */
  lemma CreateWorkerFindsSlot(s: Pool, t: Tid)
    requires IndexOf(s.tids, 0) >= 0 && s.cur < s.maxCnt <= MAX_THREADS
    ensures CreateWorker(s, t) ==
            s.(tids := s.tids[IndexOf(s.tids, 0) := t], cur := s.cur + 1, workers := s.workers[t := Ready])
  {
  }

  lemma NewWorkerKeeps(s: Pool, t: Tid, tids: seq<Tid>)
    requires Inv(s) && !s.shutdown && t !in s.workers
    requires SlotsOk(tids, s.workers.Keys + {t}, s.cur + 1, s.maxCnt)
    ensures Inv(s.(tids := tids, cur := s.cur + 1, workers := s.workers[t := Ready]))
  {
    assert s.workers[t := Ready].Keys == s.workers.Keys + {t};
    SameBusyKeeps(s.workers, s.workers[t := Ready], |s.started|, s.finished, s.act);
  }

  lemma CreateWorkerKeeps(s: Pool, t: Tid)
    requires Inv(s) && !s.shutdown && t != 0 && t !in s.workers && s.cur < s.maxCnt
    ensures Inv(CreateWorker(s, t))
    ensures CreateWorker(s, t) ==
            s.(tids := CreateWorker(s, t).tids, cur := s.cur + 1, workers := s.workers[t := Ready])
  {
    NewWorkerTakesSlot(s.tids, s.workers.Keys, s.cur, s.maxCnt, t);
    CreateWorkerFindsSlot(s, t);
    NewWorkerKeeps(s, t, s.tids[IndexOf(s.tids, 0) := t]);
  }

  lemma {:induction false} GrowKeeps(s: Pool, newTids: seq<Tid>)
    requires Inv(s) && !s.shutdown && UnusedTids(s, newTids) && |newTids| <= s.maxCnt - s.cur
    ensures Inv(Grow(s, newTids))
    ensures OnlyAddsReady(s.workers, Grow(s, newTids).workers)
    ensures var g := Grow(s, newTids);
      g == s.(tids := g.tids, cur := s.cur + |newTids|, workers := g.workers)
    decreases |newTids|
  {
    if newTids != [] {
      CreateWorkerKeeps(s, newTids[0]);
      GrowKeeps(CreateWorker(s, newTids[0]), newTids[1..]);
    }
  }

  lemma DrainKeeps(s: Pool)
    requires Inv(s) && !s.ctrl.Finished? && !CtrlMayLeave(s)
    ensures Inv(BroadcastExit(DrainOnShutdown(s)))
  {
    var d := DrainOnShutdown(s);
    var b := BroadcastExit(d);
    WakeKeepsJobs(s.workers, s.workers.Keys, |s.started|, s.finished, s.act);
    if s.shutdown {
      assert Where(b.producers, IsBlocked) == {};
      assert Where(b.workers, IsAsleep) == {};
    }
  }

  lemma TickKeeps(s: Pool, high: bool, low: bool, newTids: seq<Tid>)
    requires Inv(s) && CanStep(s, CtrlTick(high, low, newTids))
    ensures Inv(Tick(s, high, low, newTids))
  {
    if !CtrlMayLeave(s) {
      var resized := Resize(s, high, low, newTids);
      if !s.shutdown && high {
        GrowKeeps(s, newTids);
      }
      DrainKeeps(resized);
    }
  }

  lemma WorkerTurnKeeps(s: Pool, t: Tid, released: set<nat>)
    requires Inv(s) && t in s.workers && (s.workers[t].Ready? || s.workers[t].Woken?)
    ensures Inv(WorkerTurn(s, t, released))
  {
    if Waits(s, t) {
      SameBusyKeeps(s.workers, s.workers[t := Asleep], |s.started|, s.finished, s.act);
      assert s.workers[t := Asleep].Keys == s.workers.Keys;
    } else if ExitRequested(s) {
      LeavePoolKeeps(s, t);
    } else {
      TakeTaskKeeps(s, t, released);
    }
  }

  lemma SpuriousKeeps(s: Pool, t: Tid, p: nat)
    requires Inv(s)
    ensures Inv(s.(workers := WakeWorkers(s.workers, {t})))
    ensures Inv(s.(producers := ReleaseProducers(s.producers, {p})))
  {
    WakeKeepsJobs(s.workers, {t}, |s.started|, s.finished, s.act);
    assert Where(ReleaseProducers(s.producers, {p}), IsBlocked) <= Where(s.producers, IsBlocked);
  }

  lemma SubmitKeeps(s: Pool, p: nat, task: Task)
    requires Inv(s) && p !in s.producers
    ensures Inv(s.(producers := s.producers[p := Calling(task)]))
  {
    assert Where(s.producers[p := Calling(task)], IsBlocked) == Where(s.producers, IsBlocked);
  }

  lemma StepKeeps(s: Pool, step: Step)
    requires Inv(s) && CanStep(s, step)
    ensures Inv(Apply(s, step))
  {
    match step
    case Submit(p, task) => SubmitKeeps(s, p, task);
    case ProducerSection(p, wake) => AddTaskKeeps(s, p, wake);
    case ProducerSpurious(p) => SpuriousKeeps(s, 0, p);
    case WorkerSection(t, released) => WorkerTurnKeeps(s, t, released);
    case WorkerFinish(t) => FinishTaskKeeps(s, t);
    case WorkerSpurious(t) => SpuriousKeeps(s, t, 0);
    case CtrlPoll(_) =>
    case CtrlTick(high, low, newTids) => TickKeeps(s, high, low, newTids);
  }

  /** thread_pool_init fills the first slots. */
  lemma FirstSlotsCount(tids: seq<Tid>, n: nat)
    requires n <= |tids| && Exclusive(tids)
    requires forall i | 0 <= i < |tids| :: (tids[i] != 0) == (i < n)
    ensures |Owners(tids)| == n
  {
    var used := tids[..n];
    assert Owners(tids) == Owners(used) by {
      forall v | v in Owners(tids) ensures v in used {
        var i :| 0 <= i < |tids| && tids[i] == v;
        assert used[i] == v;
      }
    }
    ExclusiveOwnersCount(used);
  }

  lemma InitHolds(s: Pool)
    requires Init(s)
    ensures Inv(s)
  {
    FirstSlotsCount(s.tids, s.minCnt);
    assert s.workers.Keys == Owners(s.tids);
    assert BusyJobs(s.workers) == {} && Where(s.workers, IsBusy) == {} && Below(0) == {};
  }

  /** Every pool of every run satisfies the invariant. */
  lemma {:induction false} RunInvariant(trace: seq<Pool>, steps: seq<Step>, i: nat)
    requires IsRun(trace, steps) && i < |trace|
    ensures Inv(trace[i])
    decreases i
  {
    if i == 0 {
      InitHolds(trace[0]);
    } else {
      RunInvariant(trace, steps, i - 1);
      StepKeeps(trace[i - 1], steps[i - 1]);
    }
  }
}
