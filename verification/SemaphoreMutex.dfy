/**
 A mutex made of a binary semaphore and the identifier of its owner, statement by
 statement. Any thread may call unlock at any time. `held` records that a thread has
 passed `sem_wait` and has not posted since.
 */
module SemaphoreMutex {
  import opened Threads

  /** The statement a thread is about to execute; `Outside` and `Inside` are the caller's code. */
  datatype Pc = Outside | SemWait | SetOwner | Inside | GetValue | CheckOwner | Post | ClearOwner

  datatype Thread = Thread(pc: Pc, held: bool)

  predicate Holds(th: Thread) { th.held }

  datatype Mutex = Mutex(sem: nat, lwp: nat, threads: map<nat, Thread>)

  datatype Step =
    | Spawn(thread: nat)
    | CallLock(thread: nat)
    | CallUnlock(thread: nat)
    | Statement(thread: nat)

  predicate CanStep(s: Mutex, step: Step) {
    match step
    case Spawn(t) => t != 0 && t !in s.threads
    case CallLock(t) => t in s.threads && s.threads[t].pc.Outside?
    case CallUnlock(t) => t in s.threads && (s.threads[t].pc.Outside? || s.threads[t].pc.Inside?)
    case Statement(t) =>
      t in s.threads && !s.threads[t].pc.Outside? && !s.threads[t].pc.Inside? &&
      (s.threads[t].pc.SemWait? ==> s.sem > 0)
  }

  function GoTo(s: Mutex, t: nat, pc: Pc): Mutex
    requires t in s.threads
  {
    s.(threads := s.threads[t := s.threads[t].(pc := pc)])
  }

  function Execute(s: Mutex, t: nat): Mutex
    requires CanStep(s, Statement(t))
  {
    match s.threads[t].pc
    case SemWait => s.(sem := s.sem - 1, threads := s.threads[t := Thread(SetOwner, true)])
    case SetOwner => GoTo(s, t, Inside).(lwp := t)
    case GetValue => GoTo(s, t, if s.sem > 0 then Outside else CheckOwner)
    case CheckOwner => GoTo(s, t, if t != s.lwp then Outside else Post)
    case Post => s.(sem := s.sem + 1, threads := s.threads[t := Thread(ClearOwner, false)])
    case ClearOwner => GoTo(s, t, Outside).(lwp := 0)
  }

  function Apply(s: Mutex, step: Step): Mutex
    requires CanStep(s, step)
  {
    match step
    case Spawn(t) => s.(threads := s.threads[t := Thread(Outside, false)])
    case CallLock(t) => GoTo(s, t, SemWait)
    case CallUnlock(t) => GoTo(s, t, GetValue)
    case Statement(t) => Execute(s, t)
  }

  const FRESH := Mutex(1, 0, map[])

  ghost predicate IsRun(trace: seq<Mutex>, steps: seq<Step>) {
    |trace| == |steps| + 1 && trace[0] == FRESH &&
    forall i {:trigger steps[i]} | 0 <= i < |steps| ::
      CanStep(trace[i], steps[i]) && trace[i + 1] == Apply(trace[i], steps[i])
  }

  // ----- safety

  ghost predicate PcAgrees(th: Thread) {
    (th.pc.SetOwner? || th.pc.Inside? || th.pc.Post? ==> th.held) && (th.pc.ClearOwner? ==> !th.held)
  }

  /** The owner field names the holder, or a thread that has posted and not cleared it yet. */
  ghost predicate OwnerAgrees(s: Mutex) {
    s.lwp != 0 ==> s.lwp in s.threads && (s.threads[s.lwp].held || s.threads[s.lwp].pc.ClearOwner?)
  }

  ghost predicate Inv(s: Mutex) {
    s.sem + Count(s.threads, Holds) == 1 &&
    (forall t | t in s.threads :: t != 0 && PcAgrees(s.threads[t])) &&
    OwnerAgrees(s)
  }

  lemma MoveKeepsCount(s: Mutex, t: nat, th: Thread)
    requires s.sem + Count(s.threads, Holds) == 1
    ensures Count(s.threads[t := th], Holds) ==
            1 - s.sem - Here(s.threads, t, Holds) + (if th.held then 1 else 0)
  {
    CountMove(s.threads, t, th, Holds);
  }

  lemma StepKeeps(s: Mutex, step: Step)
    requires Inv(s) && CanStep(s, step)
    ensures Inv(Apply(s, step))
  {
    MoveKeepsCount(s, step.thread, Apply(s, step).threads[step.thread]);
    match step
    case Spawn(t) =>
    case CallLock(t) =>
    case CallUnlock(t) =>
    case Statement(t) =>
      match s.threads[t].pc
      case SemWait =>
        if s.threads[t].held {
          CountPositive(s.threads, t, Holds);
        }
      case SetOwner =>
      case GetValue =>
      case CheckOwner =>
      case Post =>
      case ClearOwner =>
  }

  lemma {:induction false} RunInvariant(trace: seq<Mutex>, steps: seq<Step>, i: nat)
    requires IsRun(trace, steps) && i < |trace|
    ensures Inv(trace[i])
    decreases i
  {
    if i > 0 {
      RunInvariant(trace, steps, i - 1);
      StepKeeps(trace[i - 1], steps[i - 1]);
    } else {
      assert Where(trace[0].threads, Holds) == {};
    }
  }

  lemma AtMostOneHolder(s: Mutex, t: nat, u: nat)
    requires Inv(s) && t in s.threads && u in s.threads && s.threads[t].held && s.threads[u].held
    ensures t == u
  {
    assert {t, u} <= Where(s.threads, Holds);
    SubsetSize({t, u}, Where(s.threads, Holds));
  }

  /** Semaphore value plus acquisitions not yet posted is 1; two threads are never inside together. */
  lemma MutualExclusion(trace: seq<Mutex>, steps: seq<Step>, i: nat)
    requires IsRun(trace, steps) && i < |trace|
    ensures trace[i].sem + Count(trace[i].threads, Holds) == 1
    ensures forall t, u | t in trace[i].threads && u in trace[i].threads ::
              trace[i].threads[t].pc == Inside == trace[i].threads[u].pc ==> t == u
  {
    RunInvariant(trace, steps, i);
    forall t, u | t in trace[i].threads && u in trace[i].threads &&
                  trace[i].threads[t].pc == Inside == trace[i].threads[u].pc
      ensures t == u
    {
      AtMostOneHolder(trace[i], t, u);
    }
  }

  /** A thread that does not hold the mutex only reads in unlock: it never reaches the post. */
  lemma OnlyTheHolderPosts(trace: seq<Mutex>, steps: seq<Step>, i: nat, t: nat)
    requires IsRun(trace, steps) && i < |steps| && t in trace[i].threads && !trace[i].threads[t].held
    requires steps[i] == Statement(t)
    requires var pc := trace[i].threads[t].pc;
      pc.GetValue? || pc.CheckOwner? || pc.Post?
    ensures trace[i + 1].sem == trace[i].sem && trace[i + 1].lwp == trace[i].lwp
    ensures !trace[i + 1].threads[t].pc.Post?
  {
    RunInvariant(trace, steps, i);
  }

  // ----- progress of unlock

  /** The holder has the owner field, and nobody is about to clear it. */
  ghost predicate Secure(s: Mutex, u: nat) {
    u in s.threads && s.threads[u].held && s.lwp == u && !s.threads[u].pc.SetOwner? &&
    forall t | t in s.threads :: !s.threads[t].pc.ClearOwner?
  }

  /** The holder has lost the owner field: its unlock returns silently, now and for ever. */
  ghost predicate Dead(s: Mutex, u: nat) {
    u in s.threads && s.threads[u].held && s.lwp != u &&
    !s.threads[u].pc.SetOwner? && !s.threads[u].pc.Post?
  }

  /** While secure, the holder's own post is the only way out, and its check succeeds. */
  lemma SecureUntilPosted(s: Mutex, step: Step, u: nat)
    requires Inv(s) && Secure(s, u) && CanStep(s, step)
    ensures Secure(Apply(s, step), u) || (step == Statement(u) && s.threads[u].pc.Post?)
    ensures step == Statement(u) && s.threads[u].pc.CheckOwner? ==> Apply(s, step).threads[u].pc.Post?
  {
    CountPositive(s.threads, u, Holds);
    if step.Statement? && s.threads[step.thread].held {
      AtMostOneHolder(s, step.thread, u);
    }
  }

  /** Nobody ever passes `sem_wait` again. */
  lemma DeadStaysDead(s: Mutex, step: Step, u: nat)
    requires Inv(s) && Dead(s, u) && CanStep(s, step)
    ensures Dead(Apply(s, step), u) && Apply(s, step).sem == 0
  {
    CountPositive(s.threads, u, Holds);
    StepKeeps(s, step);
    if step.Statement? && s.threads[step.thread].held {
      AtMostOneHolder(s, step.thread, u);
    }
    CountPositive(Apply(s, step).threads, u, Holds);
  }

  /** Once that has happened, no later step of the run frees the semaphore. */
  lemma {:induction false} DeadForEver(trace: seq<Mutex>, steps: seq<Step>, i: nat, j: nat, u: nat)
    requires IsRun(trace, steps) && i <= j < |trace| && Dead(trace[i], u)
    ensures Dead(trace[j], u) && trace[j].sem == 0
    decreases j
  {
    RunInvariant(trace, steps, j);
    if i < j {
      DeadForEver(trace, steps, i, j - 1, u);
      RunInvariant(trace, steps, j - 1);
      DeadStaysDead(trace[j - 1], steps[j - 1], u);
    } else {
      CountPositive(trace[j].threads, u, Holds);
    }
  }

  /** Another thread can spoil the release exactly while it stands between its own post and its clear. */
  lemma SpoiledIff(s: Mutex, u: nat)
    requires Inv(s) && u in s.threads && s.threads[u].held && s.lwp == u
    requires s.threads[u].pc.Inside? || s.threads[u].pc.GetValue? || s.threads[u].pc.CheckOwner?
    ensures (exists step :: CanStep(s, step) && step.thread != u && Dead(Apply(s, step), u)) <==>
            (exists t | t in s.threads :: t != u && s.threads[t].pc.ClearOwner?)
  {
    if t :| t in s.threads && t != u && s.threads[t].pc.ClearOwner? {
      assert Dead(Apply(s, Statement(t)), u);
    } else {
      forall step | CanStep(s, step) && step.thread != u ensures !Dead(Apply(s, step), u) {
        assert forall t | t in s.threads :: !s.threads[t].pc.ClearOwner?;
        SecureUntilPosted(s, step, u);
      }
    }
  }

  // ----- calls, from beginning to end

  /** Nothing but the call itself brings a thread to the wait of lock, and only a statement of unlock out of unlock. */
  lemma OnlyLockWaits(s: Mutex, step: Step, t: nat)
    requires CanStep(s, step) && t in Apply(s, step).threads && Apply(s, step).threads[t].pc.SemWait?
    ensures step == CallLock(t) || (t in s.threads && s.threads[t].pc.SemWait?)
  {
  }

  /** A step moves its own thread only, and leaves semaphore and owner to the statements of the calls. */
  lemma OthersStandStill(s: Mutex, step: Step, t: nat)
    requires CanStep(s, step) && t != step.thread
    ensures t in Apply(s, step).threads <==> t in s.threads
    ensures t in s.threads ==> Apply(s, step).threads[t] == s.threads[t]
    ensures !step.Statement? ==> Apply(s, step).sem == s.sem && Apply(s, step).lwp == s.lwp
  {
  }

  /** The steps lead from one mutex to the next. */
  ghost predicate IsPath(trace: seq<Mutex>, steps: seq<Step>) {
    |trace| == |steps| + 1 &&
    forall i {:trigger steps[i]} | 0 <= i < |steps| ::
      CanStep(trace[i], steps[i]) && trace[i + 1] == Apply(trace[i], steps[i])
  }

  /** The call of `t` that starts with `call` and makes `n` statements, without interference. */
  function CallSteps(call: Step, t: nat, n: nat): seq<Step> {
    [call] + seq(n, _ => Statement(t))
  }

  /** On a free mutex lock returns after its two statements, and the caller is inside as the owner. */
  lemma LockAlone(s: Mutex, t: nat) returns (trace: seq<Mutex>)
    requires Inv(s) && s.sem > 0 && t in s.threads && s.threads[t].pc.Outside?
    ensures IsPath(trace, CallSteps(CallLock(t), t, 2)) && trace[0] == s
    ensures trace[3] == Mutex(0, t, s.threads[t := Thread(Inside, true)])
  {
    HoldersOf(s);
    var called := GoTo(s, t, SemWait);
    var waited := Mutex(s.sem - 1, s.lwp, s.threads[t := Thread(SetOwner, true)]);
    trace := [s, called, waited, Mutex(0, t, s.threads[t := Thread(Inside, true)])];
  }

  /** A taken mutex stops lock at its wait. */
  lemma LockWaits(s: Mutex, t: nat)
    requires Inv(s) && s.sem == 0 && t in s.threads && s.threads[t].pc.Outside?
    ensures CanStep(s, CallLock(t)) && !CanStep(Apply(s, CallLock(t)), Statement(t))
  {
  }

  /** The owner's unlock makes four statements and returns; then the mutex is free and has no owner. */
  lemma UnlockAlone(s: Mutex, t: nat) returns (trace: seq<Mutex>)
    requires Inv(s) && Secure(s, t) && s.threads[t].pc.Inside?
    ensures IsPath(trace, CallSteps(CallUnlock(t), t, 4)) && trace[0] == s
    ensures trace[5] == Mutex(1, 0, s.threads[t := Thread(Outside, false)])
  {
    HoldersOf(s);
    var at := (pc: Pc) => Mutex(0, t, s.threads[t := Thread(pc, true)]);
    trace := [s, at(GetValue), at(CheckOwner), at(Post), Mutex(1, t, s.threads[t := Thread(ClearOwner, false)]),
              Mutex(1, 0, s.threads[t := Thread(Outside, false)])];
  }

  /** Anybody's unlock of a free mutex returns after its first statement, and has changed nothing. */
  lemma UnlockOfFree(s: Mutex, t: nat) returns (trace: seq<Mutex>)
    requires Inv(s) && s.sem > 0 && t in s.threads && s.threads[t].pc.Outside?
    ensures IsPath(trace, CallSteps(CallUnlock(t), t, 1)) && trace[0] == s && trace[2] == s
  {
    HoldersOf(s);
    trace := [s, GoTo(s, t, GetValue), s];
    assert s.threads[t := s.threads[t].(pc := GetValue)][t := s.threads[t]] == s.threads;
  }

  /** A stranger's unlock of a taken mutex returns after its second statement, and has changed nothing. */
  lemma UnlockByStranger(s: Mutex, t: nat) returns (trace: seq<Mutex>)
    requires Inv(s) && s.sem == 0 && t in s.threads && s.threads[t].pc.Outside? && s.lwp != t
    ensures IsPath(trace, CallSteps(CallUnlock(t), t, 2)) && trace[0] == s && trace[3] == s
  {
    trace := [s, GoTo(s, t, GetValue), GoTo(s, t, CheckOwner), s];
    assert s.threads[t := s.threads[t].(pc := CheckOwner)][t := s.threads[t]] == s.threads;
  }

  // ----- a run in which the owner cannot unlock

  ghost predicate Reachable(s: Mutex) {
    exists trace, steps :: IsRun(trace, steps) && trace[|steps|] == s
  }

  lemma Reach(s: Mutex, step: Step, s': Mutex)
    requires Reachable(s) && CanStep(s, step) && s' == Apply(s, step)
    ensures Reachable(s')
  {
    var trace, steps :| IsRun(trace, steps) && trace[|steps|] == s;
    assert IsRun(trace + [s'], steps + [step]);
  }

  const OUT := Thread(Outside, false)

  function Two(one: Thread, two: Thread): map<nat, Thread> {
    map[1 := one, 2 := two]
  }

  lemma ReachOne(s: Mutex, step: Step, sem: nat, lwp: nat, one: Thread)
    requires Reachable(s) && s.threads.Keys == {1, 2} && CanStep(s, step) && step.thread == 1
    requires Apply(s, step) == Mutex(sem, lwp, s.threads[1 := one])
    ensures Reachable(Mutex(sem, lwp, Two(one, s.threads[2])))
  {
    assert s.threads[1 := one] == Two(one, s.threads[2]);
    Reach(s, step, Mutex(sem, lwp, Two(one, s.threads[2])));
  }

  lemma ReachTwo(s: Mutex, step: Step, sem: nat, lwp: nat, two: Thread)
    requires Reachable(s) && s.threads.Keys == {1, 2} && CanStep(s, step) && step.thread == 2
    requires Apply(s, step) == Mutex(sem, lwp, s.threads[2 := two])
    ensures Reachable(Mutex(sem, lwp, Two(s.threads[1], two)))
  {
    assert s.threads[2 := two] == Two(s.threads[1], two);
    Reach(s, step, Mutex(sem, lwp, Two(s.threads[1], two)));
  }

  lemma TwoSpawned()
    ensures Reachable(Mutex(1, 0, Two(OUT, OUT)))
  {
    assert IsRun([FRESH], []);
    Reach(FRESH, Spawn(1), Mutex(1, 0, map[1 := OUT]));
    assert map[1 := OUT][2 := OUT] == Two(OUT, OUT);
    Reach(Mutex(1, 0, map[1 := OUT]), Spawn(2), Mutex(1, 0, Two(OUT, OUT)));
  }

  lemma OneEnters()
    ensures Reachable(Mutex(0, 1, Two(Thread(Inside, true), OUT)))
  {
    TwoSpawned();
    ReachOne(Mutex(1, 0, Two(OUT, OUT)), CallLock(1), 1, 0, Thread(SemWait, false));
    ReachOne(Mutex(1, 0, Two(Thread(SemWait, false), OUT)), Statement(1), 0, 0, Thread(SetOwner, true));
    ReachOne(Mutex(0, 0, Two(Thread(SetOwner, true), OUT)), Statement(1), 0, 1, Thread(Inside, true));
  }

  lemma OnePosts()
    ensures Reachable(Mutex(1, 1, Two(Thread(ClearOwner, false), OUT)))
  {
    OneEnters();
    ReachOne(Mutex(0, 1, Two(Thread(Inside, true), OUT)), CallUnlock(1), 0, 1, Thread(GetValue, true));
    ReachOne(Mutex(0, 1, Two(Thread(GetValue, true), OUT)), Statement(1), 0, 1, Thread(CheckOwner, true));
    ReachOne(Mutex(0, 1, Two(Thread(CheckOwner, true), OUT)), Statement(1), 0, 1, Thread(Post, true));
    ReachOne(Mutex(0, 1, Two(Thread(Post, true), OUT)), Statement(1), 1, 1, Thread(ClearOwner, false));
  }

  lemma TwoEnters()
    ensures Reachable(Mutex(0, 2, Two(Thread(ClearOwner, false), Thread(Inside, true))))
  {
    OnePosts();
    var one := Thread(ClearOwner, false);
    ReachTwo(Mutex(1, 1, Two(one, OUT)), CallLock(2), 1, 1, Thread(SemWait, false));
    ReachTwo(Mutex(1, 1, Two(one, Thread(SemWait, false))), Statement(2), 0, 1, Thread(SetOwner, true));
    ReachTwo(Mutex(0, 1, Two(one, Thread(SetOwner, true))), Statement(2), 0, 2, Thread(Inside, true));
  }

  /** Thread 1 posts, thread 2 locks and enters, thread 1 clears the field, thread 2 cannot unlock. */
  lemma UnlockFailsSilently() returns (s: Mutex)
    ensures Reachable(s) && Dead(s, 2) && s.threads[2].pc.Outside?
  {
    TwoEnters();
    ReachOne(Mutex(0, 2, Two(Thread(ClearOwner, false), Thread(Inside, true))), Statement(1), 0, 0, OUT);
    ReachTwo(Mutex(0, 0, Two(OUT, Thread(Inside, true))), CallUnlock(2), 0, 0, Thread(GetValue, true));
    ReachTwo(Mutex(0, 0, Two(OUT, Thread(GetValue, true))), Statement(2), 0, 0, Thread(CheckOwner, true));
    ReachTwo(Mutex(0, 0, Two(OUT, Thread(CheckOwner, true))), Statement(2), 0, 0, Thread(Outside, true));
    s := Mutex(0, 0, Two(OUT, Thread(Outside, true)));
  }

  // ----- the code

  /** A holder is the only one, and the semaphore is 0; while the semaphore is 1 nobody holds. */
  lemma HoldersOf(s: Mutex)
    requires Inv(s)
    ensures s.sem > 0 ==> s.sem == 1 && Where(s.threads, Holds) == {}
    ensures forall t | t in s.threads && s.threads[t].held :: s.sem == 0 && Where(s.threads, Holds) == {t}
  {
    forall t | t in s.threads && s.threads[t].held ensures s.sem == 0 && Where(s.threads, Holds) == {t} {
      CountPositive(s.threads, t, Holds);
      forall u | u in Where(s.threads, Holds) ensures u == t {
        AtMostOneHolder(s, t, u);
      }
    }
  }

  /** How one step changes the holders. */
  ghost predicate HoldersChange(s: Mutex, t: nat, s': Mutex) {
    var before, after := Where(s.threads, Holds), Where(s'.threads, Holds);
    s'.sem + |after| == 1 &&
    (s'.sem < s.sem ==> before == {} && after == {t}) &&
    (s'.sem > s.sem ==> before == {t} && after == {}) &&
    (s'.sem == s.sem ==> after == before)
  }

  /** One thread moves and the count stays one: that decides who holds. */
  lemma MoveHolders(s: Mutex, t: nat, th: Thread, s': Mutex)
    requires Inv(s) && Inv(s') && s'.threads == s.threads[t := th]
    ensures HoldersChange(s, t, s')
  {
    HoldersOf(s);
    CountMove(s.threads, t, th, Holds);
  }

  lemma StepHolders(s: Mutex, step: Step)
    requires Inv(s) && CanStep(s, step)
    ensures Inv(Apply(s, step)) && HoldersChange(s, step.thread, Apply(s, step))
  {
    StepKeeps(s, step);
    MoveHolders(s, step.thread, Apply(s, step).threads[step.thread], Apply(s, step));
  }

  lemma StrangersCheckFails(s: Mutex, t: nat)
    requires Inv(s) && t in s.threads && !s.threads[t].held && s.threads[t].pc.CheckOwner?
    ensures s.lwp != t
  {
  }

  class SemMutex {
    var sem: nat
    var lwp: nat
    var threads: map<nat, Thread>

    ghost function Abs(): Mutex
      reads this
    {
      Mutex(sem, lwp, threads)
    }

    ghost predicate Valid()
      reads this
    {
      Inv(Abs())
    }

    /** The threads that have passed the wait and not posted yet. */
    ghost function Holders(): set<nat>
      reads this
    {
      Where(threads, Holds)
    }

    /** sem_mutex_init */
    constructor ()
      ensures Valid() && Abs() == FRESH && Holders() == {}
    {
      sem, lwp, threads := 1, 0, map[];
      assert Where(FRESH.threads, Holds) == {};
    }

    method Arrive(t: nat, pc: Pc)
      requires t in threads
      modifies this`threads
      ensures threads == old(threads)[t := old(threads)[t].(pc := pc)]
    {
      threads := threads[t := threads[t].(pc := pc)];
    }

    /** The next statement of sem_mutex_lock: whoever passes the wait is the only holder, and then the owner. */
    method LockStatement(t: nat)
      requires Valid() && CanStep(Abs(), Statement(t)) && (threads[t].pc.SemWait? || threads[t].pc.SetOwner?)
      modifies this
      ensures Valid() && Abs() == Execute(old(Abs()), t)
      ensures old(threads[t].pc).SemWait? ==> old(Holders()) == {} && lwp == old(lwp)
      ensures old(threads[t].pc).SetOwner? ==> threads[t].pc.Inside? && lwp == t
      ensures Holders() == {t} && sem == 0
    {
      StepHolders(Abs(), Statement(t));
      HoldersOf(Abs());
      if threads[t].pc == SemWait {
        sem := sem - 1;
        threads := threads[t := Thread(SetOwner, true)];
      } else {
        lwp := t;
        Arrive(t, Inside);
      }
    }

    /** The next statement of sem_mutex_unlock: only the holder can post, and a stranger changes nothing. */
    method UnlockStatement(t: nat)
      requires Valid() && CanStep(Abs(), Statement(t)) && !threads[t].pc.SemWait? && !threads[t].pc.SetOwner?
      modifies this
      ensures Valid() && Abs() == Execute(old(Abs()), t)
      ensures HoldersChange(old(Abs()), t, Abs())
      ensures t !in old(Holders()) ==> sem == old(sem) && !threads[t].pc.Post?
    {
      StepHolders(Abs(), Statement(t));
      assert threads[t].pc.Post? ==> t in Holders();
      match threads[t].pc
      case GetValue =>
        var val := sem;
        Arrive(t, if val > 0 then Outside else CheckOwner);
      case CheckOwner =>
        if t !in Holders() {
          StrangersCheckFails(Abs(), t);
        }
        Arrive(t, if t != lwp then Outside else Post);
      case Post =>
        sem := sem + 1;
        threads := threads[t := Thread(ClearOwner, false)];
      case ClearOwner =>
        lwp := 0;
        Arrive(t, Outside);
    }

    /** Whatever is called and by whom, the semaphore and its holders together stay one. */
    method Perform(step: Step)
      requires Valid() && CanStep(Abs(), step)
      modifies this
      ensures Valid() && Abs() == Apply(old(Abs()), step)
      ensures HoldersChange(old(Abs()), step.thread, Abs())
    {
      StepHolders(Abs(), step);
      match step
      case Spawn(t) => threads := threads[t := Thread(Outside, false)];
      case CallLock(t) => Arrive(t, SemWait);
      case CallUnlock(t) => Arrive(t, GetValue);
      case Statement(t) =>
        if threads[t].pc == SemWait || threads[t].pc == SetOwner {
          LockStatement(t);
        } else {
          UnlockStatement(t);
        }
    }
  }
}
