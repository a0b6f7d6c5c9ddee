/**
 The thread pool as a transition system. A step is one critical section (from a lock to
 the unlock or to the `cond_wait` that ends it), or a wakeup that the scheduler makes
 outside of any lock. Everything the code leaves open is a parameter of the step: which
 sleepers a signal wakes, the identifiers of new threads, the rounding of the two load
 comparisons, and whether SIGQUIT is pending.
 */
module ThreadPoolProtocol {
  import opened Basics
  import opened Threads
  import opened TidList

  type Tid = nat
  type Task = nat

  /** The size of the slot list in bytes, at eight a slot, is an `int` and must not overflow. */
  const MAX_THREADS: nat := 0x0FFF_FFFF
  const EXPAND_STEP := 5

  /** `Ready`: about to lock at the top of the loop. `Woken`: has to take the lock again. */
  datatype WorkerPc = Ready | Asleep | Woken | Busy(job: nat)
  datatype ProducerPc = Calling(task: Task) | Blocked(task: Task) | Released(task: Task)
  datatype CtrlPc = Polling | Ticking | Finished

  predicate IsAsleep(pc: WorkerPc) { pc.Asleep? }
  predicate IsWoken(pc: WorkerPc) { pc.Woken? }
  predicate IsBusy(pc: WorkerPc) { pc.Busy? }
  predicate IsBlocked(pc: ProducerPc) { pc.Blocked? }
  predicate IsReleased(pc: ProducerPc) { pc.Released? }

  /**
   The fields of the structure, the place of every live thread, and a history: tasks
   accepted and tasks started (in order), indexes of finished starts, whether a control
   tick has already run its shutdown branch, and how often a branch that reports an
   impossible situation has been taken.
   */
  datatype Pool = Pool(
    queue: seq<Task>,
    capacity: nat,
    tids: seq<Tid>,
    minCnt: nat,
    maxCnt: nat,
    cur: nat,
    act: nat,
    waitExit: nat,
    shutdown: bool,
    workers: map<Tid, WorkerPc>,
    producers: map<nat, ProducerPc>,
    ctrl: CtrlPc,
    accepted: seq<Task>,
    started: seq<Task>,
    finished: set<nat>,
    drained: bool,
    errors: nat)

  datatype Step =
    | Submit(producer: nat, task: Task)
    | ProducerSection(producer: nat, wake: set<Tid>)
    | ProducerSpurious(producer: nat)
    | WorkerSection(worker: Tid, released: set<nat>)
    | WorkerFinish(worker: Tid)
    | WorkerSpurious(worker: Tid)
    | CtrlPoll(sigquit: bool)
    | CtrlTick(loadHigh: bool, loadLow: bool, newTids: seq<Tid>)

  /** Decrement and addition of unsigned 32-bit counters. */
  function Dec32(x: nat): nat { if x == 0 then U32_RANGE - 1 else x - 1 }
  function Add32(x: nat, y: nat): nat { if x + y < U32_RANGE then x + y else (x + y) % 0x1_0000_0000 }

  // ----- threads leaving a condition

  function WakeWorkers(workers: map<Tid, WorkerPc>, wake: set<Tid>): map<Tid, WorkerPc> {
    map t | t in workers :: if t in wake && workers[t].Asleep? then Woken else workers[t]
  }

  function ReleaseProducers(producers: map<nat, ProducerPc>, released: set<nat>): map<nat, ProducerPc> {
    map p | p in producers ::
      if p in released && producers[p].Blocked? then Released(producers[p].task) else producers[p]
  }

  // ----- thread_pool_add_task

  predicate QueueFull(s: Pool) { |s.queue| >= s.capacity }

  function AddTask(s: Pool, p: nat, wake: set<Tid>): Pool
    requires p in s.producers
  {
    var task := s.producers[p].task;
    if QueueFull(s) && !s.shutdown then
      s.(producers := s.producers[p := Blocked(task)])
    else if s.shutdown then
      s.(producers := s.producers - {p})
    else
      s.(queue := s.queue + [task], accepted := s.accepted + [task],
         producers := s.producers - {p}, workers := WakeWorkers(s.workers, wake))
  }

  /** What thread_pool_add_task answers, if it returns. A task that it drops after the shutdown is a success, too. */
  datatype Answer = NoneYet | Success

  function AnswerOf(s: Pool): Answer {
    if QueueFull(s) && !s.shutdown then NoneYet else Success
  }

  // ----- work_thread_handler

  predicate ExitRequested(s: Pool) { s.shutdown || s.waitExit != 0 }

  /** Whether the worker goes (back) to sleep: only after a wait is the exit request looked at first. */
  predicate Waits(s: Pool, t: Tid)
    requires t in s.workers
  {
    s.queue == [] && !s.shutdown && !(s.workers[t].Woken? && ExitRequested(s))
  }

  function LeavePool(s: Pool, t: Tid): Pool {
    var idx := IndexOf(s.tids, t);
    if idx == -1 then
      s.(errors := s.errors + 1)
    else
      s.(tids := s.tids[idx := 0],
         waitExit := if s.waitExit != 0 then Dec32(s.waitExit) else s.waitExit,
         cur := Dec32(s.cur),
         workers := s.workers - {t})
  }

  function TakeTask(s: Pool, t: Tid, released: set<nat>): Pool {
    if s.queue == [] then
      s.(errors := s.errors + 1)
    else
      s.(queue := s.queue[1..], started := s.started + [s.queue[0]],
         act := Add32(s.act, 1),
         workers := s.workers[t := Busy(|s.started|)],
         producers := ReleaseProducers(s.producers, released))
  }

  function WorkerTurn(s: Pool, t: Tid, released: set<nat>): Pool
    requires t in s.workers
  {
    if Waits(s, t) then
      s.(workers := s.workers[t := Asleep])
    else if ExitRequested(s) then
      LeavePool(s, t)
    else
      TakeTask(s, t, released)
  }

  function FinishTask(s: Pool, t: Tid): Pool
    requires t in s.workers && s.workers[t].Busy?
  {
    s.(act := Dec32(s.act), finished := s.finished + {s.workers[t].job},
       workers := s.workers[t := Ready])
  }

  // ----- ctrl_thread_handler

  function ExpandStrategy(s: Pool): int { Min(EXPAND_STEP, s.maxCnt - s.cur) }

  function ShrinkTarget(s: Pool): int { Max(s.act * 2, s.minCnt) }

  function ShrinkStrategy(s: Pool): nat { Max(s.cur - ShrinkTarget(s), 0) }

  function CreateWorker(s: Pool, t: Tid): Pool {
    var idx := IndexOf(s.tids, 0);
    if idx == -1 then
      s.(errors := s.errors + 1)
    else
      s.(tids := s.tids[idx := t], cur := Add32(s.cur, 1), workers := s.workers[t := Ready])
  }

  function Grow(s: Pool, newTids: seq<Tid>): Pool
    decreases |newTids|
  {
    if newTids == [] then s else Grow(CreateWorker(s, newTids[0]), newTids[1..])
  }

  /** The tick changes the pool's size only while no shutdown is requested. */
  function Resize(s: Pool, loadHigh: bool, loadLow: bool, newTids: seq<Tid>): Pool {
    if s.shutdown then s
    else if loadHigh then Grow(s, newTids)
    else if loadLow then s.(waitExit := Add32(s.waitExit, ShrinkStrategy(s)))
    else s
  }

  function DrainOnShutdown(s: Pool): Pool {
    if s.shutdown then
      s.(waitExit := s.cur, drained := true, producers := ReleaseProducers(s.producers, s.producers.Keys))
    else s
  }

  function BroadcastExit(s: Pool): Pool {
    if s.waitExit != 0 then s.(workers := WakeWorkers(s.workers, s.workers.Keys)) else s
  }

  predicate CtrlMayLeave(s: Pool) { s.shutdown && s.cur <= 0 }

  function Tick(s: Pool, loadHigh: bool, loadLow: bool, newTids: seq<Tid>): Pool {
    if CtrlMayLeave(s) then
      s.(ctrl := Finished)
    else
      BroadcastExit(DrainOnShutdown(Resize(s, loadHigh, loadLow, newTids))).(ctrl := Polling)
  }

  // ----- the transition system

  /** Identifiers that `pthread_create` may return: not 0 and not in use. */
  predicate UnusedTids(s: Pool, newTids: seq<Tid>) {
    (forall i | 0 <= i < |newTids| :: newTids[i] != 0 && newTids[i] !in s.workers) &&
    (forall i, j | 0 <= i < j < |newTids| :: newTids[i] != newTids[j])
  }

  /** How many threads the tick creates. */
  function Created(s: Pool, loadHigh: bool): nat {
    if !s.shutdown && loadHigh then Max(ExpandStrategy(s), 0) else 0
  }

  /**
   What the quotient of busy and live threads, rounded to a float, can say when compared
   with 0.7 and 0.3. 7 busy of 10 is not high, 3 busy of 10 is not low, and 0 of 0 (not a
   number) is neither. The rounding is only left open for more than a million threads.
   */
  predicate LoadsPossible(act: nat, cur: nat, loadHigh: bool, loadLow: bool) {
    (loadHigh ==> 10 * act > 7 * cur) && (loadLow ==> 10 * act < 3 * cur) &&
    (cur <= 1_000_000 ==> loadHigh == (10 * act > 7 * cur) && loadLow == (10 * act < 3 * cur))
  }

  predicate CanStep(s: Pool, step: Step) {
    match step
    case Submit(p, _) => p !in s.producers
    case ProducerSection(p, wake) =>
      p in s.producers && !s.producers[p].Blocked? && SignalOk(wake, Where(s.workers, IsAsleep))
    case ProducerSpurious(p) => p in s.producers && s.producers[p].Blocked?
    case WorkerSection(t, released) =>
      t in s.workers && (s.workers[t].Ready? || s.workers[t].Woken?) &&
      SignalOk(released, Where(s.producers, IsBlocked))
    case WorkerFinish(t) => t in s.workers && s.workers[t].Busy?
    case WorkerSpurious(t) => t in s.workers && s.workers[t].Asleep?
    case CtrlPoll(_) => s.ctrl.Polling?
    case CtrlTick(high, low, newTids) =>
      s.ctrl.Ticking? && LoadsPossible(s.act, s.cur, high, low) &&
      UnusedTids(s, newTids) && |newTids| == Created(s, high)
  }

  function Apply(s: Pool, step: Step): Pool
    requires CanStep(s, step)
  {
    match step
    case Submit(p, task) => s.(producers := s.producers[p := Calling(task)])
    case ProducerSection(p, wake) => AddTask(s, p, wake)
    case ProducerSpurious(p) => s.(producers := ReleaseProducers(s.producers, {p}))
    case WorkerSection(t, released) => WorkerTurn(s, t, released)
    case WorkerFinish(t) => FinishTask(s, t)
    case WorkerSpurious(t) => s.(workers := WakeWorkers(s.workers, {t}))
    case CtrlPoll(sigquit) => s.(shutdown := s.shutdown || sigquit, ctrl := Ticking)
    case CtrlTick(high, low, newTids) => Tick(s, high, low, newTids)
  }

  /** The arguments that thread_pool_init accepts. */
  predicate ValidLimits(minCnt: nat, maxCnt: nat) {
    0 < minCnt <= maxCnt <= MAX_THREADS
  }

  /** The pool that thread_pool_init leaves: `minCnt` workers in the first slots, nothing queued. */
  ghost predicate Init(s: Pool) {
    ValidLimits(s.minCnt, s.maxCnt) && s.capacity == 2 * s.maxCnt &&
    |s.tids| == s.maxCnt && s.cur == s.minCnt &&
    (forall i | 0 <= i < s.maxCnt :: (s.tids[i] != 0) == (i < s.minCnt)) &&
    Exclusive(s.tids) &&
    s.workers == (map t | t in Owners(s.tids) :: Ready) &&
    s.act == 0 && s.waitExit == 0 && !s.shutdown && !s.drained && s.ctrl.Polling? &&
    s.queue == [] && s.producers == map[] &&
    s.accepted == [] && s.started == [] && s.finished == {} && s.errors == 0
  }

  /** `trace[i]` is the pool before `steps[i]`; the last element is the pool now. */
  ghost predicate IsRun(trace: seq<Pool>, steps: seq<Step>) {
    |trace| == |steps| + 1 && Init(trace[0]) &&
    forall i {:trigger steps[i]} | 0 <= i < |steps| ::
      CanStep(trace[i], steps[i]) && trace[i + 1] == Apply(trace[i], steps[i])
  }
}
