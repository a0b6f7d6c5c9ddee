/**
 Runs in which the pool does not do what its comments suggest, each beside the lemma
 that says when it does: see WakeupKeptIff, MinimumKeptIff, ReleasedAtExitIff and ShrinkAimsAtHalfIff.
 */
module ThreadPoolWitnesses {
  import opened Threads
  import opened TidList
  import opened ThreadPoolProtocol
  import opened ThreadPoolAccounting
  import opened ThreadPoolWakeups
  import opened ThreadPoolTheorems

  ghost predicate Reachable(s: Pool) {
    exists trace, steps :: IsRun(trace, steps) && trace[|steps|] == s
  }

  lemma Reach(s: Pool, step: Step, s': Pool)
    requires Reachable(s) && CanStep(s, step) && s' == Apply(s, step)
    ensures Reachable(s')
  {
    var trace, steps :| IsRun(trace, steps) && trace[|steps|] == s;
    assert IsRun(trace + [s'], steps + [step]);
  }

  lemma ReachInit(s: Pool)
    requires Init(s)
    ensures Reachable(s)
  {
    assert IsRun([s], []);
  }

  /** Producer 1 hands over a task while nobody sleeps and the queue has room. */
  lemma ReachAccept(s: Pool, task: Task)
    requires Reachable(s) && s.producers == map[] && Where(s.workers, IsAsleep) == {}
    requires !s.shutdown && |s.queue| < s.capacity
    ensures Reachable(s.(queue := s.queue + [task], accepted := s.accepted + [task]))
  {
    var calling := s.(producers := map[1 := Calling(task)]);
    Reach(s, Submit(1, task), calling);
    assert calling.producers - {1} == map[];
    assert WakeWorkers(s.workers, {}) == s.workers;
    Reach(calling, ProducerSection(1, {}), s.(queue := s.queue + [task], accepted := s.accepted + [task]));
  }

  /** A worker starts the task at the head of the queue while no producer is around. */
  lemma ReachStart(s: Pool, t: Tid)
    requires Reachable(s) && s.producers == map[] && s.queue != [] && !ExitRequested(s) && s.act == 0
    requires t in s.workers && s.workers[t] == Ready
    ensures Reachable(s.(queue := s.queue[1..], started := s.started + [s.queue[0]], act := 1,
                         workers := s.workers[t := Busy(|s.started|)]))
  {
    assert ReleaseProducers(s.producers, {}) == s.producers;
    Reach(s, WorkerSection(t, {}), TakeTask(s, t, {}));
  }

  lemma ReachBlocked(s: Pool, task: Task)
    requires Reachable(s) && s.producers == map[] && Where(s.workers, IsAsleep) == {}
    requires !s.shutdown && |s.queue| == s.capacity
    ensures Reachable(s.(producers := map[1 := Blocked(task)]))
  {
    var calling := s.(producers := map[1 := Calling(task)]);
    Reach(s, Submit(1, task), calling);
    Reach(calling, ProducerSection(1, {}), s.(producers := map[1 := Blocked(task)]));
  }

  // ----- a producer left asleep

  /** A pool of one thread, number 7. */
  function Single(queue: seq<Task>, workers: map<Tid, WorkerPc>, producers: map<nat, ProducerPc>,
                  accepted: seq<Task>, started: seq<Task>, act: nat): Pool {
    Pool(queue, 2, [7], 1, 1, 1, act, 0, false, workers, producers, Polling, accepted, started, {}, false, 0)
  }

  lemma SingleInit()
    ensures Init(Single([], map[7 := Ready], map[], [], [], 0))
  {
    var s := Single([], map[7 := Ready], map[], [], [], 0);
    assert Owners(s.tids) == {7};
    assert s.workers == map t | t in Owners(s.tids) :: Ready;
  }

  lemma SingleAccepts()
    ensures Reachable(Single([51], map[7 := Ready], map[], [51], [], 0))
  {
    SingleInit();
    ReachInit(Single([], map[7 := Ready], map[], [], [], 0));
    ReachAccept(Single([], map[7 := Ready], map[], [], [], 0), 51);
  }

  lemma SingleBusyReachable()
    ensures Reachable(Single([], map[7 := Busy(0)], map[], [51], [51], 1))
  {
    SingleAccepts();
    ReachStart(Single([51], map[7 := Ready], map[], [51], [], 0), 7);
    assert map[7 := Ready][7 := Busy(0)] == map[7 := Busy(0)];
  }

  lemma QueueFilled()
    ensures Reachable(Single([52, 53], map[7 := Busy(0)], map[], [51, 52, 53], [51], 1))
  {
    SingleBusyReachable();
    ReachAccept(Single([], map[7 := Busy(0)], map[], [51], [51], 1), 52);
    ReachAccept(Single([52], map[7 := Busy(0)], map[], [51, 52], [51], 1), 53);
  }

  /** A call after the SIGQUIT: it answers success, and the task is dropped. */
  lemma SuccessForDroppedTask() returns (s: Pool)
    ensures Reachable(s) && 1 in s.producers && AnswerOf(s) == Success
    ensures CanStep(s, ProducerSection(1, {})) && Apply(s, ProducerSection(1, {})).accepted == [] == s.queue
  {
    SingleInit();
    var s0 := Single([], map[7 := Ready], map[], [], [], 0);
    ReachInit(s0);
    var s1 := s0.(shutdown := true, ctrl := Ticking);
    Reach(s0, CtrlPoll(true), s1);
    s := s1.(producers := map[1 := Calling(55)]);
    Reach(s1, Submit(1, 55), s);
  }

  /** The queue is full and the only worker runs a task: the fourth producer sleeps. */
  lemma FullQueueReachable()
    ensures Reachable(Single([52, 53], map[7 := Busy(0)], map[1 := Blocked(54)], [51, 52, 53], [51], 1))
  {
    QueueFilled();
    ReachBlocked(Single([52, 53], map[7 := Busy(0)], map[], [51, 52, 53], [51], 1), 54);
  }

  /** The worker finishes and leaves after the SIGQUIT. */
  lemma LastWorkerLeaves(s: Pool, s': Pool)
    requires Reachable(s) && s.shutdown && s.tids == [7] && s.workers == map[7 := Busy(0)]
    requires s.act == 1 && s.cur == 1 && s.waitExit == 0 && Where(s.producers, IsBlocked) == {1}
    requires s' == s.(act := 0, cur := 0, tids := [0], workers := map[], finished := s.finished + {0})
    ensures Reachable(s')
  {
    var done := FinishTask(s, 7);
    Reach(s, WorkerFinish(7), done);
    assert done.workers == map[7 := Ready];
    assert IndexOf(done.tids, 7) == 0;
    assert done.workers - {7} == map[];
    Reach(done, WorkerSection(7, {1}), s');
  }

  /** All workers leave between the SIGQUIT and the tick, so the tick ends without the broadcast. */
  lemma ProducerStranded() returns (s: Pool)
    ensures Reachable(s) && s.ctrl.Finished? && !s.drained
    ensures Where(s.producers, IsBlocked) != {}
  {
    FullQueueReachable();
    var s0 := Single([52, 53], map[7 := Busy(0)], map[1 := Blocked(54)], [51, 52, 53], [51], 1);
    assert 1 in Where(s0.producers, IsBlocked);
    var s1 := s0.(shutdown := true, ctrl := Ticking);
    Reach(s0, CtrlPoll(true), s1);
    var s2 := s1.(act := 0, cur := 0, tids := [0], workers := map[], finished := s1.finished + {0});
    LastWorkerLeaves(s1, s2);
    s := s2.(ctrl := Finished);
    Reach(s2, CtrlTick(false, false, []), s);
  }

  // ----- three workers

  /** A pool of at least one and at most three threads that has run task 50. */
  function Trio(tids: seq<Tid>, cur: nat, waitExit: nat, workers: map<Tid, WorkerPc>,
                queue: seq<Task>, accepted: seq<Task>): Pool {
    Pool(queue, 6, tids, 1, 3, cur, 0, waitExit, false, workers, map[], Polling, accepted, [50], {0}, false, 0)
  }

  function TrioStart(queue: seq<Task>, accepted: seq<Task>, workers: map<Tid, WorkerPc>,
                     started: seq<Task>, act: nat): Pool {
    Pool(queue, 6, [1, 0, 0], 1, 3, 1, act, 0, false, workers, map[], Polling, accepted, started, {}, false, 0)
  }

  function Three(one: WorkerPc, two: WorkerPc, three: WorkerPc): map<Tid, WorkerPc> {
    map[1 := one, 2 := two, 3 := three]
  }

  lemma TrioInit()
    ensures Init(TrioStart([], [], map[1 := Ready], [], 0))
  {
    var s := TrioStart([], [], map[1 := Ready], [], 0);
    assert Owners(s.tids) == {1};
    assert s.workers == map t | t in Owners(s.tids) :: Ready;
  }

  lemma TrioAccepts()
    ensures Reachable(TrioStart([50], [50], map[1 := Ready], [], 0))
  {
    TrioInit();
    ReachInit(TrioStart([], [], map[1 := Ready], [], 0));
    ReachAccept(TrioStart([], [], map[1 := Ready], [], 0), 50);
  }

  lemma TrioBusyReachable()
    ensures Reachable(TrioStart([], [50], map[1 := Busy(0)], [50], 1))
  {
    TrioAccepts();
    ReachStart(TrioStart([50], [50], map[1 := Ready], [], 0), 1);
    assert map[1 := Ready][1 := Busy(0)] == map[1 := Busy(0)];
  }

  lemma WorkerCreated(s: Pool, t: Tid, idx: nat)
    requires idx < |s.tids| && s.tids[idx] == 0 && 0 !in s.tids[..idx] && s.cur < 3
    ensures CreateWorker(s, t) == s.(tids := s.tids[idx := t], cur := s.cur + 1, workers := s.workers[t := Ready])
  {
    assert IndexOf(s.tids, 0) == idx;
  }

  lemma GrowByTwo(s: Pool, t: Tid, u: Tid)
    ensures Grow(s, [t, u]) == CreateWorker(CreateWorker(s, t), u)
  {
    var c := CreateWorker(s, t);
    assert [t, u][1..] == [u] && [u][1..] == [];
    assert Grow(c, [u]) == Grow(CreateWorker(c, u), []);
  }

  lemma TwoWorkersCreated(s: Pool)
    requires s.tids == [1, 0, 0] && s.cur == 1
    ensures Grow(s, [2, 3]) == s.(tids := [1, 2, 3], cur := 3, workers := s.workers[2 := Ready][3 := Ready])
  {
    GrowByTwo(s, 2, 3);
    WorkerCreated(s, 2, 1);
    var c := s.(tids := [1, 2, 0], cur := 2, workers := s.workers[2 := Ready]);
    assert [1, 0, 0][1 := 2] == [1, 2, 0] && [1, 2, 0][2 := 3] == [1, 2, 3];
    WorkerCreated(c, 3, 2);
  }

  lemma GrowAllowed(s: Pool)
    requires s.tids == [1, 0, 0] && s.maxCnt == 3 && s.cur == 1 && s.act == 1 && !s.shutdown
    requires s.ctrl == Ticking && s.workers == map[1 := Busy(0)]
    ensures CanStep(s, CtrlTick(true, false, [2, 3]))
  {
  }

  function GrownTrio(): Pool {
    TrioStart([], [50], map[1 := Busy(0)], [50], 1).(
      tids := [1, 2, 3], cur := 3, workers := Three(Busy(0), Ready, Ready))
  }

  /** One busy worker of one is a high load: the pool grows to its maximum. */
  lemma TrioGrown()
    ensures Reachable(GrownTrio())
  {
    TrioBusyReachable();
    var s := TrioStart([], [50], map[1 := Busy(0)], [50], 1).(ctrl := Ticking);
    Reach(TrioStart([], [50], map[1 := Busy(0)], [50], 1), CtrlPoll(false), s);
    GrowAllowed(s);
    TwoWorkersCreated(s);
    assert map[1 := Busy(0)][2 := Ready][3 := Ready] == Three(Busy(0), Ready, Ready);
    ReachTick(s, true, false, [2, 3], GrownTrio());
  }

  lemma ReachTick(s: Pool, high: bool, low: bool, newTids: seq<Tid>, s': Pool)
    requires Reachable(s) && CanStep(s, CtrlTick(high, low, newTids)) && s' == Tick(s, high, low, newTids)
    ensures Reachable(s')
  {
    Reach(s, CtrlTick(high, low, newTids), s');
  }

  /** The three workers with their slots; the queue is empty. */
  function Full(waitExit: nat, workers: map<Tid, WorkerPc>): Pool {
    Trio([1, 2, 3], 3, waitExit, workers, [], [50])
  }

  lemma ReachSleep(waitExit: nat, workers: map<Tid, WorkerPc>, t: Tid, workers': map<Tid, WorkerPc>)
    requires Reachable(Full(waitExit, workers)) && t in workers && workers[t] == Ready
    requires workers' == workers[t := Asleep]
    ensures Reachable(Full(waitExit, workers'))
  {
    Reach(Full(waitExit, workers), WorkerSection(t, {}), Full(waitExit, workers'));
  }

  /** Nobody has work; worker 1 has reached the empty queue. */
  lemma TrioIdle()
    ensures Reachable(Full(0, Three(Asleep, Ready, Ready)))
  {
    TrioGrown();
    assert Three(Busy(0), Ready, Ready)[1 := Ready] == Three(Ready, Ready, Ready);
    assert Three(Ready, Ready, Ready)[1 := Asleep] == Three(Asleep, Ready, Ready);
    Reach(GrownTrio(), WorkerFinish(1), Full(0, Three(Ready, Ready, Ready)));
    ReachSleep(0, Three(Ready, Ready, Ready), 1, Three(Asleep, Ready, Ready));
  }

  /** The control thread's next turn begins. */
  lemma ReachPoll(waitExit: nat, workers: map<Tid, WorkerPc>)
    requires Reachable(Full(waitExit, workers))
    ensures Reachable(Full(waitExit, workers).(ctrl := Ticking))
  {
    Reach(Full(waitExit, workers), CtrlPoll(false), Full(waitExit, workers).(ctrl := Ticking));
  }

  /** A tick with no worker busy asks for two more exits and wakes the sleepers. */
  lemma ShrinkTick(waitExit: nat, workers: map<Tid, WorkerPc>, workers': map<Tid, WorkerPc>)
    requires waitExit <= 2 && workers' == WakeWorkers(workers, workers.Keys)
    ensures var s := Full(waitExit, workers).(ctrl := Ticking);
      CanStep(s, CtrlTick(false, true, [])) && Apply(s, CtrlTick(false, true, [])) == Full(waitExit + 2, workers')
  {
  }

  lemma ReachShrink(waitExit: nat, workers: map<Tid, WorkerPc>, workers': map<Tid, WorkerPc>)
    requires Reachable(Full(waitExit, workers)) && waitExit <= 2 && workers' == WakeWorkers(workers, workers.Keys)
    ensures Reachable(Full(waitExit + 2, workers'))
  {
    ReachPoll(waitExit, workers);
    ShrinkTick(waitExit, workers, workers');
    Reach(Full(waitExit, workers).(ctrl := Ticking), CtrlTick(false, true, []), Full(waitExit + 2, workers'));
  }

  lemma LeaveStep(s: Pool, t: Tid, idx: nat)
    requires t in s.workers && s.workers[t] == Woken && s.producers == map[] && s.waitExit > 0 && s.cur > 0
    requires idx < |s.tids| && s.tids[idx] == t && t !in s.tids[..idx]
    ensures CanStep(s, WorkerSection(t, {}))
    ensures Apply(s, WorkerSection(t, {})) ==
            s.(tids := s.tids[idx := 0], waitExit := s.waitExit - 1, cur := s.cur - 1, workers := s.workers - {t})
  {
    assert IndexOf(s.tids, t) == idx;
  }

  /** A woken worker of the trio leaves on request; the later slots are as they were. */
  lemma ReachLeave(tids: seq<Tid>, cur: nat, waitExit: nat, workers: map<Tid, WorkerPc>,
                   queue: seq<Task>, accepted: seq<Task>, t: Tid, idx: nat)
    requires Reachable(Trio(tids, cur, waitExit, workers, queue, accepted)) && waitExit > 0 && cur > 0
    requires t in workers && workers[t] == Woken && idx < |tids| && tids[idx] == t && t !in tids[..idx]
    ensures Reachable(Trio(tids[idx := 0], cur - 1, waitExit - 1, workers - {t}, queue, accepted))
  {
    LeaveStep(Trio(tids, cur, waitExit, workers, queue, accepted), t, idx);
    Reach(Trio(tids, cur, waitExit, workers, queue, accepted), WorkerSection(t, {}),
          Trio(tids[idx := 0], cur - 1, waitExit - 1, workers - {t}, queue, accepted));
  }

  lemma OneLeaves(waitExit: nat, pc: WorkerPc, queue: seq<Task>, accepted: seq<Task>)
    requires Reachable(Trio([1, 2, 3], 3, waitExit, Three(Woken, Woken, pc), queue, accepted)) && waitExit >= 1
    ensures Reachable(Trio([0, 2, 3], 2, waitExit - 1, map[2 := Woken, 3 := pc], queue, accepted))
  {
    assert [1, 2, 3][0 := 0] == [0, 2, 3];
    assert Three(Woken, Woken, pc) - {1} == map[2 := Woken, 3 := pc];
    ReachLeave([1, 2, 3], 3, waitExit, Three(Woken, Woken, pc), queue, accepted, 1, 0);
  }

  /** Workers 1 and 2 leave in this order; whoever is worker 3 remains. */
  lemma TwoLeave(waitExit: nat, pc: WorkerPc, queue: seq<Task>, accepted: seq<Task>)
    requires Reachable(Trio([1, 2, 3], 3, waitExit, Three(Woken, Woken, pc), queue, accepted)) && waitExit >= 2
    ensures Reachable(Trio([0, 0, 3], 1, waitExit - 2, map[3 := pc], queue, accepted))
  {
    OneLeaves(waitExit, pc, queue, accepted);
    assert [0, 2, 3][1 := 0] == [0, 0, 3];
    var workers: map<Tid, WorkerPc> := map[2 := Woken, 3 := pc];
    assert workers - {2} == map[3 := pc];
    ReachLeave([0, 2, 3], 2, waitExit - 1, workers, queue, accepted, 2, 1);
  }

  // ----- a wakeup lost

  lemma OneWokenByExits()
    ensures Reachable(Full(2, Three(Woken, Ready, Ready)))
  {
    TrioIdle();
    var idle := Three(Asleep, Ready, Ready);
    assert WakeWorkers(idle, idle.Keys) == Three(Woken, Ready, Ready);
    ReachShrink(0, idle, Three(Woken, Ready, Ready));
  }

  /** Workers 2 and 3 go to sleep after the request for two exits has woken worker 1. */
  lemma TwoAsleepAmidExits()
    ensures Reachable(Full(2, Three(Woken, Asleep, Asleep)))
  {
    OneWokenByExits();
    assert Three(Woken, Ready, Ready)[2 := Asleep] == Three(Woken, Asleep, Ready);
    ReachSleep(2, Three(Woken, Ready, Ready), 2, Three(Woken, Asleep, Ready));
    assert Three(Woken, Asleep, Ready)[3 := Asleep] == Three(Woken, Asleep, Asleep);
    ReachSleep(2, Three(Woken, Asleep, Ready), 3, Three(Woken, Asleep, Asleep));
  }

  lemma SignalStep(s: Pool, calling: Pool)
    requires s == Full(2, Three(Woken, Asleep, Asleep)) && calling == s.(producers := map[9 := Calling(70)])
    ensures CanStep(calling, ProducerSection(9, {2}))
    ensures Apply(calling, ProducerSection(9, {2})) ==
            Trio([1, 2, 3], 3, 2, Three(Woken, Woken, Asleep), [70], [50, 70])
  {
    assert 2 in Where(calling.workers, IsAsleep);
    assert WakeWorkers(s.workers, {2}) == Three(Woken, Woken, Asleep);
    assert calling.producers - {9} == map[];
  }

  /** A task's signal wakes worker 2. */
  lemma TaskSignalledAmidExits()
    ensures Reachable(Trio([1, 2, 3], 3, 2, Three(Woken, Woken, Asleep), [70], [50, 70]))
  {
    TwoAsleepAmidExits();
    var s := Full(2, Three(Woken, Asleep, Asleep));
    var calling := s.(producers := map[9 := Calling(70)]);
    Reach(s, Submit(9, 70), calling);
    SignalStep(s, calling);
    Reach(calling, ProducerSection(9, {2}), Trio([1, 2, 3], 3, 2, Three(Woken, Woken, Asleep), [70], [50, 70]));
  }

  /** Both woken workers leave, and the task stays behind the third, asleep, with no exit pending. */
  lemma WakeupLostByExits() returns (s: Pool)
    ensures Reachable(s) && !s.shutdown && s.waitExit == 0 && !NoLostTask(s)
  {
    TaskSignalledAmidExits();
    TwoLeave(2, Asleep, [70], [50, 70]);
    s := Trio([0, 0, 3], 1, 0, map[3 := Asleep], [70], [50, 70]);
    assert 3 in Where(s.workers, IsAsleep);
    assert Where(s.workers, IsWoken) == {};
  }

  // ----- a pool emptied

  lemma TrioAsleep()
    ensures Reachable(Full(0, Three(Asleep, Asleep, Asleep)))
  {
    TrioIdle();
    assert Three(Asleep, Ready, Ready)[2 := Asleep] == Three(Asleep, Asleep, Ready);
    ReachSleep(0, Three(Asleep, Ready, Ready), 2, Three(Asleep, Asleep, Ready));
    assert Three(Asleep, Asleep, Ready)[3 := Asleep] == Three(Asleep, Asleep, Asleep);
    ReachSleep(0, Three(Asleep, Asleep, Ready), 3, Three(Asleep, Asleep, Asleep));
  }

  lemma TrioAsked()
    ensures Reachable(Full(2, Three(Woken, Woken, Woken)))
  {
    TrioAsleep();
    var asleep := Three(Asleep, Asleep, Asleep);
    assert WakeWorkers(asleep, asleep.Keys) == Three(Woken, Woken, Woken);
    ReachShrink(0, asleep, Three(Woken, Woken, Woken));
  }

  /** A second tick shrinks before a worker runs: three workers are asked for four exits. */
  lemma TrioOverAsked()
    ensures Reachable(Full(4, Three(Woken, Woken, Woken)))
  {
    TrioAsked();
    var woken := Three(Woken, Woken, Woken);
    assert WakeWorkers(woken, woken.Keys) == woken;
    ReachShrink(2, woken, woken);
  }

  /** All three leave: the pool is below its minimum, with no thread at all. */
  lemma PoolEmptied() returns (s: Pool)
    ensures Reachable(s) && !s.shutdown && s.cur == 0 < s.minCnt && s.workers == map[]
  {
    TrioOverAsked();
    TwoLeave(4, Woken, [], [50]);
    ReachLeave([0, 0, 3], 1, 2, map[3 := Woken], [], [50], 3, 2);
    s := Trio([0, 0, 3][2 := 0], 0, 1, map[3 := Woken] - {3}, [], [50]);
    assert s.workers == map[];
  }

  /** That second tick does not aim at half of the workers being busy: it asks for more exits than there are workers. */
  lemma ShrinkMissesHalf() returns (s: Pool, step: Step)
    ensures Reachable(s) && !s.shutdown && step == CtrlTick(false, true, []) && CanStep(s, step)
    ensures ShrinkStrategy(s) > 0
    ensures Apply(s, step).cur - Apply(s, step).waitExit != 2 * s.act
  {
    TrioAsked();
    var woken := Three(Woken, Woken, Woken);
    ReachPoll(2, woken);
    assert WakeWorkers(woken, woken.Keys) == woken;
    ShrinkTick(2, woken, woken);
    s, step := Full(2, woken).(ctrl := Ticking), CtrlTick(false, true, []);
  }

  /** A pool without workers never grows again: no task it accepts is ever started. */
  lemma EmptyPoolIsDead(s: Pool, step: Step)
    requires Inv(s) && CanStep(s, step) && s.workers == map[]
    ensures Apply(s, step).workers == map[] && Apply(s, step).started == s.started
  {
    CountBound(s.workers, IsBusy);
    assert WakeWorkers(map[], {}) == map[];
  }

  lemma EmptyPoolAt(trace: seq<Pool>, steps: seq<Step>, j: nat)
    requires IsRun(trace, steps) && j < |steps| && trace[j].workers == map[]
    ensures trace[j + 1].workers == map[] && trace[j + 1].started == trace[j].started
  {
    RunInvariant(trace, steps, j);
    EmptyPoolIsDead(trace[j], steps[j]);
  }

  /** So the tasks that are still queued, and all later ones, are never started. */
  lemma {:induction false} EmptyPoolStaysDead(trace: seq<Pool>, steps: seq<Step>, i: nat, j: nat)
    requires IsRun(trace, steps) && i <= j < |trace| && trace[i].workers == map[]
    ensures trace[j].workers == map[] && trace[j].started == trace[i].started
    decreases j
  {
    if i < j {
      EmptyPoolStaysDead(trace, steps, i, j - 1);
      EmptyPoolAt(trace, steps, j - 1);
    }
  }
}
