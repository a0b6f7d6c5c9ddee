/**
 The pool structure and its code. Every method is one critical section and is proved to
 make exactly the step of the protocol, so what holds of all runs holds of this code.
 The table of threads stands for the scheduler; it is not a field of `thread_pool_t`.
 */
module ThreadPool {
  import opened Basics
  import opened Threads
  import opened TidList
  import opened ThreadPoolProtocol
  import RingQueue

  class ThreadPool {
    const taskQueue: RingQueue.Queue<Task>
    const tidList: array<Tid>
    const minThreadCnt: nat
    const maxThreadCnt: nat
    var curThreadCnt: nat
    var actThreadCnt: nat
    var waitExitThreadCnt: nat
    var shutdownFlag: bool

    var workers: map<Tid, WorkerPc>
    var producers: map<nat, ProducerPc>
    var ctrl: CtrlPc

    // the history of the run
    var accepted: seq<Task>
    var started: seq<Task>
    var finished: set<nat>
    var drained: bool
    var errors: nat

    ghost predicate Valid()
      reads this, taskQueue
    {
      taskQueue.Valid() && tidList != taskQueue.plist
    }

    /** The structure as a state of the protocol. */
    ghost function Abs(): Pool
      requires Valid()
      reads this, taskQueue, taskQueue.plist, tidList
    {
      Pool(taskQueue.Contents(), taskQueue.maxSize, tidList[..], minThreadCnt, maxThreadCnt,
           curThreadCnt, actThreadCnt, waitExitThreadCnt, shutdownFlag,
           workers, producers, ctrl, accepted, started, finished, drained, errors)
    }

    // ----- the slots

    method FindTidIdx(tid: Tid) returns (idx: int)
      ensures idx == IndexOf(tidList[..], tid)
    {
      idx := 0;
      while idx < tidList.Length
        invariant 0 <= idx <= tidList.Length
        invariant tid !in tidList[..idx]
      {
        if tidList[idx] == tid {
          return;
        }
        idx := idx + 1;
      }
      idx := -1;
    }

    method GetUnusedTidIdx() returns (idx: int)
      ensures idx == IndexOf(tidList[..], 0)
    {
      idx := FindTidIdx(0);
    }

    // ----- thread_pool_init

    /** Arguments that the source accepts; `newTids` are what pthread_create returns. */
    constructor (minCnt: nat, maxCnt: nat, newTids: seq<Tid>)
      requires ValidLimits(minCnt, maxCnt) && |newTids| == minCnt
      requires forall i | 0 <= i < |newTids| :: newTids[i] != 0
      requires forall i, j | 0 <= i < j < |newTids| :: newTids[i] != newTids[j]
      ensures Valid() && fresh(taskQueue) && fresh(taskQueue.plist) && fresh(tidList)
      ensures Init(Abs()) && minThreadCnt == minCnt && maxThreadCnt == maxCnt
      ensures tidList[..minCnt] == newTids
    {
      var queue := new RingQueue.Queue<Task>();
      var ok := queue.Initialize(2 * maxCnt);
      taskQueue := queue;
      tidList := new Tid[maxCnt](_ => 0);
      minThreadCnt, maxThreadCnt := minCnt, maxCnt;
      curThreadCnt, actThreadCnt, waitExitThreadCnt, shutdownFlag := 0, 0, 0, false;
      workers, producers, ctrl := map[], map[], Polling;
      accepted, started, finished, drained, errors := [], [], {}, false, 0;
      new;
      CreateFirstWorkers(newTids);
      InitialSlots(tidList[..], newTids);
    }

    method CreateFirstWorkers(newTids: seq<Tid>)
      requires |newTids| <= tidList.Length && (forall i | 0 <= i < tidList.Length :: tidList[i] == 0)
      requires curThreadCnt == 0 && workers == map[]
      modifies this`curThreadCnt, this`workers, tidList
      ensures curThreadCnt == |newTids| && tidList[..|newTids|] == newTids
      ensures forall i | |newTids| <= i < tidList.Length :: tidList[i] == 0
      ensures workers == map t | t in newTids :: Ready
    {
      for idx := 0 to |newTids|
        invariant curThreadCnt == idx
        invariant tidList[..idx] == newTids[..idx]
        invariant forall i | idx <= i < tidList.Length :: tidList[i] == 0
        invariant workers == map t | t in newTids[..idx] :: Ready
      {
        tidList[idx] := newTids[idx];
        workers := workers[newTids[idx] := Ready];
        curThreadCnt := curThreadCnt + 1;
        assert newTids[..idx + 1] == newTids[..idx] + [newTids[idx]];
      }
      assert newTids[..|newTids|] == newTids;
    }

    /** The first slots hold the new threads, the others none. */
    static lemma InitialSlots(tids: seq<Tid>, newTids: seq<Tid>)
      requires |newTids| <= |tids| && tids[..|newTids|] == newTids
      requires forall i | |newTids| <= i < |tids| :: tids[i] == 0
      requires forall i | 0 <= i < |newTids| :: newTids[i] != 0
      requires forall i, j | 0 <= i < j < |newTids| :: newTids[i] != newTids[j]
      ensures forall i | 0 <= i < |tids| :: (tids[i] != 0) == (i < |newTids|)
      ensures Exclusive(tids)
      ensures (map t | t in newTids :: Ready) == (map t | t in Owners(tids) :: Ready)
    {
      assert forall i | 0 <= i < |newTids| :: tids[..|newTids|][i] == tids[i];
      forall t | t in newTids ensures t in Owners(tids) {
        var i :| 0 <= i < |newTids| && newTids[i] == t;
        assert tids[..|newTids|][i] == tids[i];
      }
      forall t | t in Owners(tids) ensures t in newTids {
        var i :| 0 <= i < |tids| && tids[i] == t;
        assert tids[..|newTids|][i] == tids[i];
      }
    }

    // ----- thread_pool_add_task, from the lock on

    method AddTaskSection(p: nat, wake: set<Tid>) returns (answer: Answer)
      requires Valid() && p in producers
      modifies this, taskQueue, taskQueue.plist
      ensures Valid() && taskQueue.plist == old(taskQueue.plist)
      ensures Abs() == AddTask(old(Abs()), p, wake) && answer == AnswerOf(old(Abs()))
    {
      var task := producers[p].task;
      var notFull := taskQueue.IsNotFull();
      if !notFull && !shutdownFlag {
        producers := producers[p := Blocked(task)];
        return NoneYet;
      }
      producers := producers - {p};
      if shutdownFlag {
        return Success;
      }
      // the loop above has just seen a free slot, so the failure branch is not reachable
      var ok := taskQueue.Enqueue(task);
      assert ok;
      accepted := accepted + [task];
      workers := WakeWorkers(workers, wake);
      return Success;
    }

    // ----- work_thread_handler, from the lock at the loop's top (or from a wakeup) on

    method WorkerTurnSection(t: Tid, released: set<nat>)
      requires Valid() && t in workers
      modifies this, taskQueue, tidList
      ensures Valid() && taskQueue.plist == old(taskQueue.plist)
      ensures Abs() == WorkerTurn(old(Abs()), t, released)
    {
      var leaveLoop := workers[t].Woken? && (shutdownFlag || waitExitThreadCnt != 0);
      if !leaveLoop {
        var empty := taskQueue.IsEmpty();
        if empty && !shutdownFlag {
          workers := workers[t := Asleep];
          return;
        }
      }
      if shutdownFlag || waitExitThreadCnt != 0 {
        LeaveSection(t);
      } else {
        TakeTaskSection(t, released);
      }
    }

    method LeaveSection(t: Tid)
      requires Valid()
      modifies this, tidList
      ensures Valid() && Abs() == LeavePool(old(Abs()), t)
    {
      var idx := FindTidIdx(t);
      if idx == -1 {
        errors := errors + 1;
        return;
      }
      tidList[idx] := 0;
      if waitExitThreadCnt != 0 {
        waitExitThreadCnt := Dec32(waitExitThreadCnt);
      }
      curThreadCnt := Dec32(curThreadCnt);
      workers := workers - {t};
      assert tidList[..] == old(tidList[..])[idx := 0];
    }

    method TakeTaskSection(t: Tid, released: set<nat>)
      requires Valid()
      modifies this, taskQueue
      ensures Valid() && taskQueue.plist == old(taskQueue.plist)
      ensures Abs() == TakeTask(old(Abs()), t, released)
    {
      var ok, task := taskQueue.Dequeue();
      if !ok {
        errors := errors + 1;
        return;
      }
      actThreadCnt := Add32(actThreadCnt, 1);
      producers := ReleaseProducers(producers, released);
      workers := workers[t := Busy(|started|)];
      started := started + [task];
    }

    method FinishSection(t: Tid)
      requires Valid() && t in workers && workers[t].Busy?
      modifies this
      ensures Valid() && Abs() == FinishTask(old(Abs()), t)
    {
      actThreadCnt := Dec32(actThreadCnt);
      finished := finished + {workers[t].job};
      workers := workers[t := Ready];
    }

    // ----- ctrl_thread_handler

    method PollSection(sigquit: bool)
      requires Valid()
      modifies this
      ensures Valid()
      ensures Abs() == old(Abs()).(shutdown := old(shutdownFlag) || sigquit, ctrl := Ticking)
    {
      if sigquit {
        shutdownFlag := true;
      }
      ctrl := Ticking;
    }

    /** One turn of the expansion loop. */
    method CreateSection(t: Tid)
      requires Valid()
      modifies this, tidList
      ensures Valid() && Abs() == CreateWorker(old(Abs()), t)
    {
      var unusedIdx := GetUnusedTidIdx();
      if unusedIdx == -1 {
        errors := errors + 1;
      } else {
        tidList[unusedIdx] := t;
        workers := workers[t := Ready];
        curThreadCnt := Add32(curThreadCnt, 1);
        assert tidList[..] == old(tidList[..])[unusedIdx := t];
      }
    }

    static lemma GrowFrom(s: Pool, newTids: seq<Tid>, i: nat)
      requires i < |newTids|
      ensures Grow(s, newTids[i..]) == Grow(CreateWorker(s, newTids[i]), newTids[i + 1..])
    {
      assert newTids[i..][1..] == newTids[i + 1..];
    }

    method ExpandSection(newTids: seq<Tid>)
      requires Valid() && |newTids| == Max(ExpandStrategy(Abs()), 0)
      modifies this, tidList
      ensures Valid() && Abs() == Grow(old(Abs()), newTids)
    {
      var expandCnt := if maxThreadCnt - curThreadCnt > EXPAND_STEP then EXPAND_STEP else maxThreadCnt - curThreadCnt;
      var i := 0;
      while i < expandCnt
        invariant 0 <= i <= |newTids| == Max(expandCnt, 0)
        invariant Valid()
        invariant Grow(Abs(), newTids[i..]) == Grow(old(Abs()), newTids)
      {
        GrowFrom(Abs(), newTids, i);
        CreateSection(newTids[i]);
        i := i + 1;
      }
      assert newTids[i..] == [];
    }

    method ShrinkSection()
      requires Valid() && waitExitThreadCnt < U32_RANGE
      modifies this`waitExitThreadCnt
      ensures Valid()
      ensures Abs() == old(Abs()).(waitExit := Add32(old(waitExitThreadCnt), ShrinkStrategy(old(Abs()))))
    {
      var resCnt := actThreadCnt * 2;
      if resCnt < minThreadCnt {
        resCnt := minThreadCnt;
      }
      var shrinkCnt := curThreadCnt - resCnt;
      if shrinkCnt > 0 {
        waitExitThreadCnt := Add32(waitExitThreadCnt, shrinkCnt);
      }
    }

    method ResizeSection(loadHigh: bool, loadLow: bool, newTids: seq<Tid>)
      requires Valid() && waitExitThreadCnt < U32_RANGE && |newTids| == Created(Abs(), loadHigh)
      modifies this, tidList
      ensures Valid() && Abs() == Resize(old(Abs()), loadHigh, loadLow, newTids)
    {
      if !shutdownFlag {
        if loadHigh {
          ExpandSection(newTids);
        } else if loadLow {
          ShrinkSection();
        }
      }
    }

    method BroadcastSection()
      requires Valid()
      modifies this
      ensures Valid() && Abs() == BroadcastExit(DrainOnShutdown(old(Abs()))).(ctrl := Polling)
    {
      if shutdownFlag {
        waitExitThreadCnt := curThreadCnt;
        producers := ReleaseProducers(producers, producers.Keys);
        drained := true;
      }
      if waitExitThreadCnt != 0 {
        workers := WakeWorkers(workers, workers.Keys);
      }
      ctrl := Polling;
    }

    method TickSection(loadHigh: bool, loadLow: bool, newTids: seq<Tid>)
      requires Valid() && waitExitThreadCnt < U32_RANGE && |newTids| == Created(Abs(), loadHigh)
      modifies this, tidList
      ensures Valid() && Abs() == Tick(old(Abs()), loadHigh, loadLow, newTids)
    {
      if shutdownFlag && curThreadCnt <= 0 {
        ctrl := Finished;
        return;
      }
      ResizeSection(loadHigh, loadLow, newTids);
      BroadcastSection();
    }

    // ----- the code makes the steps of the protocol, and no others

    method Perform(step: Step)
      requires Valid() && waitExitThreadCnt < U32_RANGE && CanStep(Abs(), step)
      modifies this, taskQueue, taskQueue.plist, tidList
      ensures Valid() && taskQueue.plist == old(taskQueue.plist)
      ensures Abs() == Apply(old(Abs()), step)
    {
      match step
      case Submit(p, task) => producers := producers[p := Calling(task)];
      case ProducerSection(p, wake) =>
        var _ := AddTaskSection(p, wake);
      case ProducerSpurious(p) => producers := ReleaseProducers(producers, {p});
      case WorkerSection(t, released) => WorkerTurnSection(t, released);
      case WorkerFinish(t) => FinishSection(t);
      case WorkerSpurious(t) => workers := WakeWorkers(workers, {t});
      case CtrlPoll(sigquit) => PollSection(sigquit);
      case CtrlTick(high, low, newTids) => TickSection(high, low, newTids);
    }
  }
}
