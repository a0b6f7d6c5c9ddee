/**
 The bounded buffer without the assumption that queue_add and queue_pop are atomic: both
 are split into their loads and stores, as no lock keeps them apart. Runs in which the
 calls do not overlap refine the atomic protocol; in others the size can go wrong, by
 exactly one kind of step. Copying one element is still one step.
 */
module BufferRace {
  import opened Basics
  import opened Threads
  import opened RingQueue
  import Atomic = BoundedBuffer

  type Elem = Atomic.Elem

  const MAX: nat := Atomic.QUEUE_MAX_SIZE

  type Word = x: nat | x < U32_RANGE
  type Slot = x: nat | x < MAX
  type Cells = s: seq<Elem> | |s| == MAX witness ["", "", "", "", ""]

  datatype Ring = Ring(front: Slot, rear: Slot, size: Word, arr: Cells)

  /** The next statement of a process, with what it has loaded. The calls begin with their tests. */
  datatype Pc =
    | WaitSpace(elem: Elem) | AddTest(elem: Elem) | AddCopy(elem: Elem)
    | AddLoadRear(elem: Elem) | AddStoreRear(elem: Elem, rear: Slot)
    | AddLoadSize(elem: Elem) | AddStoreSize(elem: Elem, size: Word) | PostProduct
    | WaitProduct | PopTest | PopCopy
    | PopLoadFront(elem: Elem) | PopStoreFront(elem: Elem, front: Slot)
    | PopLoadSize(elem: Elem) | PopStoreSize(elem: Elem, size: Word) | PostSpace

  /** Between the test of a call and its last store. */
  predicate Inside(pc: Pc) {
    pc.AddCopy? || pc.AddLoadRear? || pc.AddStoreRear? || pc.AddLoadSize? || pc.AddStoreSize? ||
    pc.PopCopy? || pc.PopLoadFront? || pc.PopStoreFront? || pc.PopLoadSize? || pc.PopStoreSize?
  }

  predicate Enters(pc: Pc) { pc.AddTest? || pc.PopTest? }

  function Next(i: Slot): Slot { (i + 1) % MAX }

  /** The free space is an unsigned difference, so the test of queue_add only fails when it is 0. */
  predicate Refuses(r: Ring, pc: Pc) {
    (pc.AddTest? && r.size == MAX) || (pc.PopTest? && r.size == 0)
  }

  /** One statement of a call: the ring after it, and where the process goes on. */
  function RunCall(r: Ring, pc: Pc): (Ring, Pc)
    requires Inside(pc) || Enters(pc)
  {
    match pc
    case AddTest(e) => (r, if Refuses(r, pc) then PostProduct else AddCopy(e))
    case AddCopy(e) => (r.(arr := r.arr[r.rear := e]), AddLoadRear(e))
    case AddLoadRear(e) => (r, AddStoreRear(e, r.rear))
    case AddStoreRear(e, seen) => (r.(rear := Next(seen)), AddLoadSize(e))
    case AddLoadSize(e) => (r, AddStoreSize(e, r.size))
    case AddStoreSize(e, seen) => (r.(size := (seen + 1) % U32_RANGE), PostProduct)
    case PopTest => (r, if Refuses(r, pc) then PostSpace else PopCopy)
    case PopCopy => (r, PopLoadFront(r.arr[r.front]))
    case PopLoadFront(e) => (r, PopStoreFront(e, r.front))
    case PopStoreFront(e, seen) => (r.(front := Next(seen)), PopLoadSize(e))
    case PopLoadSize(e) => (r, PopStoreSize(e, r.size))
    case PopStoreSize(e, seen) => (r.(size := (seen + U32_RANGE - 1) % U32_RANGE), PostSpace)
  }

  function AddedBy(pc: Pc): seq<Elem> { if pc.AddStoreSize? then [pc.elem] else [] }
  function PoppedBy(pc: Pc): seq<Elem> { if pc.PopStoreSize? then [pc.elem] else [] }
  function PlacedBy(pc: Pc): seq<Elem> { if pc.AddStoreRear? then [pc.elem] else [] }
  function TakenBy(pc: Pc): seq<Elem> { if pc.PopStoreFront? then [pc.elem] else [] }

  /** `added` and `popped` grow with the stores of the size, `placed` and `taken` with those of rear and front. */
  datatype Memory = Memory(
    space: nat, product: nat, ring: Ring, procs: map<nat, Pc>, added: seq<Elem>, popped: seq<Elem>, refused: nat,
    placed: seq<Elem>, taken: seq<Elem>)

  type Step = Atomic.Step

  predicate CanStep(m: Memory, step: Step) {
    match step
    case Produce(p, _) => p !in m.procs
    case Consume(p) => p !in m.procs
    case Statement(p) =>
      p in m.procs && (m.procs[p].WaitSpace? ==> m.space > 0) && (m.procs[p].WaitProduct? ==> m.product > 0)
  }

  function CallStatement(m: Memory, p: nat): Memory
    requires p in m.procs && (Inside(m.procs[p]) || Enters(m.procs[p]))
  {
    var pc := m.procs[p];
    var next := RunCall(m.ring, pc);
    m.(ring := next.0, procs := m.procs[p := next.1], added := m.added + AddedBy(pc), popped := m.popped + PoppedBy(pc),
       refused := m.refused + (if Refuses(m.ring, pc) then 1 else 0),
       placed := m.placed + PlacedBy(pc), taken := m.taken + TakenBy(pc))
  }

  function Execute(m: Memory, p: nat): Memory
    requires CanStep(m, Atomic.Statement(p))
  {
    match m.procs[p]
    case WaitSpace(e) => m.(space := m.space - 1, procs := m.procs[p := AddTest(e)])
    case PostProduct => m.(product := m.product + 1, procs := m.procs - {p})
    case WaitProduct => m.(product := m.product - 1, procs := m.procs[p := PopTest])
    case PostSpace => m.(space := m.space + 1, procs := m.procs - {p})
    case _ => CallStatement(m, p)
  }

  function Apply(m: Memory, step: Step): Memory
    requires CanStep(m, step)
  {
    match step
    case Produce(p, e) => m.(procs := m.procs[p := WaitSpace(e)])
    case Consume(p) => m.(procs := m.procs[p := WaitProduct])
    case Statement(p) => Execute(m, p)
  }

  const START := Memory(MAX, 0, Ring(0, 0, 0, ["", "", "", "", ""]), map[], [], [], 0, [], [])

  ghost predicate IsRun(trace: seq<Memory>, steps: seq<Step>) {
    |trace| == |steps| + 1 && trace[0] == START &&
    forall i {:trigger steps[i]} | 0 <= i < |steps| ::
      CanStep(trace[i], steps[i]) && trace[i + 1] == Apply(trace[i], steps[i])
  }

  /** The step enters a call while another process is inside one. */
  ghost predicate Overlaps(m: Memory, step: Step) {
    step.Statement? && step.proc in m.procs && Enters(m.procs[step.proc]) &&
    exists q :: q in m.procs && Inside(m.procs[q])
  }

  // ----- the ring during one call

  /** No call is under way. */
  ghost predicate Idle(r: Ring, q: seq<Elem>) {
    r.size == |q| <= MAX && r.rear == Wrap(r.front, r.size, MAX) && Unroll(r.arr, r.front, r.size) == q
  }

  /** The new element is in its place, and only the size is still to be stored. */
  ghost predicate Appended(r: Ring, q: seq<Elem>, e: Elem) {
    r.size == |q| < MAX && r.rear == Wrap(r.front, r.size + 1, MAX) && Unroll(r.arr, r.front, r.size + 1) == q + [e]
  }

  /** The first element is out, and only the size is still to be stored. */
  ghost predicate Removed(r: Ring, q: seq<Elem>, e: Elem) {
    r.size == |q| <= MAX && q != [] && e == q[0] &&
    r.rear == Wrap(r.front, r.size - 1, MAX) && Unroll(r.arr, r.front, r.size - 1) == q[1..]
  }

  /** What the ring holds when the one call under way is at `pc`, and the queue before that call is `q`. */
  ghost predicate RingAt(r: Ring, q: seq<Elem>, pc: Pc) {
    match pc
    case AddCopy(e) => Idle(r, q) && |q| < MAX
    case AddLoadRear(e) => Idle(r, q) && |q| < MAX && r.arr[r.rear] == e
    case AddStoreRear(e, seen) => Idle(r, q) && |q| < MAX && r.arr[r.rear] == e && seen == r.rear
    case AddLoadSize(e) => Appended(r, q, e)
    case AddStoreSize(e, seen) => Appended(r, q, e) && seen == r.size
    case PopCopy => Idle(r, q) && q != []
    case PopLoadFront(e) => Idle(r, q) && q != [] && e == q[0]
    case PopStoreFront(e, seen) => Idle(r, q) && q != [] && e == q[0] && seen == r.front
    case PopLoadSize(e) => Removed(r, q, e)
    case PopStoreSize(e, seen) => Removed(r, q, e) && seen == r.size
    case _ => Idle(r, q)
  }

  /** The queue after the statement. */
  ghost function QueueAfter(q: seq<Elem>, pc: Pc): seq<Elem> {
    if pc.AddStoreSize? then q + [pc.elem] else if pc.PopStoreSize? && q != [] then q[1..] else q
  }

  lemma CopyKeeps(r: Ring, q: seq<Elem>, e: Elem)
    requires Idle(r, q) && |q| < MAX
    ensures Idle(r.(arr := r.arr[r.rear := e]), q)
  {
    var arr := r.arr[r.rear := e];
    UnrollPush(r.arr, r.front, r.size, e);
    assert Unroll(arr, r.front, r.size) == Unroll(arr, r.front, r.size + 1)[..r.size];
  }

  lemma RearStored(r: Ring, q: seq<Elem>, e: Elem)
    requires Idle(r, q) && |q| < MAX && r.arr[r.rear] == e
    ensures Appended(r.(rear := Next(r.rear)), q, e)
  {
    UnrollPush(r.arr, r.front, r.size, e);
    assert r.arr[r.rear := e] == r.arr;
  }

  lemma FrontStored(r: Ring, q: seq<Elem>)
    requires Idle(r, q) && q != []
    ensures r.arr[r.front] == q[0]
    ensures Removed(r.(front := Next(r.front)), q, q[0])
  {
    UnrollPop(r.arr, r.front, r.size);
  }

  /** What one statement does to the ring, the queue and the place in the call. */
  ghost predicate CallStep(r: Ring, q: seq<Elem>, pc: Pc) {
    (Inside(pc) || Enters(pc)) && !Refuses(r, pc) && RingAt(RunCall(r, pc).0, QueueAfter(q, pc), RunCall(r, pc).1) &&
    PoppedBy(pc) + QueueAfter(q, pc) == q + AddedBy(pc)
  }

  predicate InAdd(pc: Pc) {
    pc.AddTest? || pc.AddCopy? || pc.AddLoadRear? || pc.AddStoreRear? || pc.AddLoadSize? || pc.AddStoreSize?
  }

  predicate InPop(pc: Pc) {
    pc.PopTest? || pc.PopCopy? || pc.PopLoadFront? || pc.PopStoreFront? || pc.PopLoadSize? || pc.PopStoreSize?
  }

  lemma AddStep(r: Ring, q: seq<Elem>, pc: Pc)
    requires RingAt(r, q, pc) && InAdd(pc) && |q| < MAX
    ensures CallStep(r, q, pc)
  {
    if pc.AddCopy? {
      CopyKeeps(r, q, pc.elem);
    } else if pc.AddStoreRear? {
      RearStored(r, q, pc.elem);
    }
  }

  lemma PopStep(r: Ring, q: seq<Elem>, pc: Pc)
    requires RingAt(r, q, pc) && InPop(pc) && q != []
    ensures CallStep(r, q, pc)
  {
    if pc.PopCopy? || pc.PopStoreFront? {
      FrontStored(r, q);
    } else if pc.PopStoreSize? {
      PopEnds(r, q, pc.elem);
    }
  }

  lemma PopEnds(r: Ring, q: seq<Elem>, e: Elem)
    requires Removed(r, q, e)
    ensures RingAt(r.(size := (r.size + U32_RANGE - 1) % U32_RANGE), q[1..], PostSpace) && [e] + q[1..] == q
  {
    assert (r.size + U32_RANGE - 1) % U32_RANGE == r.size - 1;
  }

  // ----- the atomic state

  function AtomicPc(pc: Pc): Atomic.Pc {
    match pc
    case WaitSpace(e) => Atomic.WaitSpace(e)
    case PostProduct => Atomic.PostProduct
    case WaitProduct => Atomic.WaitProduct
    case PostSpace => Atomic.PostSpace
    case _ => if InAdd(pc) then Atomic.Add(pc.elem) else Atomic.Pop
  }

  function AtomicProcs(procs: map<nat, Pc>): map<nat, Atomic.Pc> {
    map p | p in procs :: AtomicPc(procs[p])
  }

  /** What has been added and not popped. */
  function QueueOf(m: Memory): seq<Elem> {
    if |m.popped| <= |m.added| then m.added[|m.popped|..] else []
  }

  /** The memory as a state of the atomic protocol: a call happens at its last store. */
  function Abs(m: Memory): Atomic.Buffer {
    Atomic.Buffer(m.space, m.product, QueueOf(m), AtomicProcs(m.procs), m.added, m.popped, m.refused)
  }

  ghost predicate OneInside(procs: map<nat, Pc>) {
    forall p, q | p in procs && q in procs && Inside(procs[p]) && Inside(procs[q]) :: p == q
  }

  /** The ring agrees with the queue, as far as the call under way has come. */
  ghost predicate RingOk(procs: map<nat, Pc>, r: Ring, q: seq<Elem>) {
    (forall p | p in procs && Inside(procs[p]) :: RingAt(r, q, procs[p])) &&
    ((forall p | p in procs :: !Inside(procs[p])) ==> Idle(r, q))
  }

  ghost predicate Inv(m: Memory) {
    Atomic.Inv(Abs(m)) && OneInside(m.procs) && RingOk(m.procs, m.ring, QueueOf(m))
  }

  // ----- one process moves

  /** Nobody but `p` is inside a call. */
  ghost predicate Alone(procs: map<nat, Pc>, p: nat) {
    p in procs && forall q | q in procs && q != p :: !Inside(procs[q])
  }

  lemma AloneMoves(procs: map<nat, Pc>, p: nat, pc: Pc, r: Ring, q: seq<Elem>)
    requires Alone(procs, p) && RingAt(r, q, pc)
    ensures OneInside(procs[p := pc]) && RingOk(procs[p := pc], r, q)
  {
    assert procs[p := pc][p] == pc;
  }

  /** A process that is not in a call joins, leaves, or moves to another place outside. */
  lemma OutsideMoves(procs: map<nat, Pc>, procs': map<nat, Pc>, p: nat, r: Ring, q: seq<Elem>)
    requires OneInside(procs) && RingOk(procs, r, q) && (p in procs ==> !Inside(procs[p]))
    requires p in procs' ==> !Inside(procs'[p])
    requires forall u | u != p :: (u in procs <==> u in procs') && (u in procs ==> procs'[u] == procs[u])
    ensures OneInside(procs') && RingOk(procs', r, q)
  {
  }

  lemma MoveProcs(procs: map<nat, Pc>, p: nat, pc: Pc)
    ensures AtomicProcs(procs[p := pc]) == AtomicProcs(procs)[p := AtomicPc(pc)]
  {
  }

  lemma LeaveProcs(procs: map<nat, Pc>, p: nat)
    ensures AtomicProcs(procs - {p}) == AtomicProcs(procs) - {p}
  {
  }

  lemma SilentMove(procs: map<nat, Pc>, p: nat, pc: Pc)
    requires p in procs && AtomicPc(pc) == AtomicPc(procs[p])
    ensures AtomicProcs(procs[p := pc]) == AtomicProcs(procs)
  {
    MoveProcs(procs, p, pc);
  }

  // ----- one statement of a call

  /** A call that is under way has something to do: room for an adder, an element for a popper. */
  lemma CallHasRoom(m: Memory, p: nat)
    requires Atomic.Inv(Abs(m)) && p in m.procs
    ensures InAdd(m.procs[p]) ==> |QueueOf(m)| < MAX
    ensures InPop(m.procs[p]) ==> QueueOf(m) != []
    ensures m.added == m.popped + QueueOf(m)
  {
    if InAdd(m.procs[p]) {
      CountPositive(AtomicProcs(m.procs), p, Atomic.IsAdding);
    } else if InPop(m.procs[p]) {
      CountPositive(AtomicProcs(m.procs), p, Atomic.IsPopping);
    }
  }

  lemma QueueMoves(m: Memory, added: seq<Elem>, popped: seq<Elem>, q: seq<Elem>)
    requires m.added == m.popped + QueueOf(m) && popped + q == QueueOf(m) + added
    ensures QueueOf(m.(added := m.added + added, popped := m.popped + popped)) == q
  {
    assert m.added + added == m.popped + (QueueOf(m) + added);
    assert m.popped + (popped + q) == (m.popped + popped) + q;
  }

  /** What one statement of a call leaves. */
  lemma CallOutcome(m: Memory, p: nat)
    requires p in m.procs && CallStep(m.ring, QueueOf(m), m.procs[p]) && m.added == m.popped + QueueOf(m)
    ensures QueueOf(CallStatement(m, p)) == QueueAfter(QueueOf(m), m.procs[p])
    ensures CallStatement(m, p).refused == m.refused
  {
    var pc := m.procs[p];
    QueueMoves(m, AddedBy(pc), PoppedBy(pc), QueueAfter(QueueOf(m), pc));
  }

  lemma CallGoesOn(r: Ring, q: seq<Elem>, pc: Pc)
    requires RingAt(r, q, pc) && (Inside(pc) || Enters(pc))
    requires (InAdd(pc) ==> |q| < MAX) && (InPop(pc) ==> q != [])
    ensures CallStep(r, q, pc)
  {
    if InAdd(pc) {
      AddStep(r, q, pc);
    } else {
      PopStep(r, q, pc);
    }
  }

  /** The call that `p` is inside of, or enters while nobody is inside one. */
  lemma CallKeepsRing(m: Memory, p: nat)
    requires Alone(m.procs, p) && CallReady(m, p)
    ensures var m' := CallStatement(m, p);
      OneInside(m'.procs) && RingOk(m'.procs, m'.ring, QueueOf(m'))
  {
    CallOutcome(m, p);
    var next := RunCall(m.ring, m.procs[p]);
    AloneMoves(m.procs, p, next.1, next.0, QueueAfter(QueueOf(m), m.procs[p]));
  }

  // ----- refinement

  /** The step is one of the atomic protocol, or invisible there. */
  ghost predicate Refines(m: Memory, step: Step, m': Memory) {
    Abs(m') == Abs(m) || (Atomic.CanStep(Abs(m), step) && Abs(m') == Atomic.Apply(Abs(m), step))
  }

  /** Tests, copies, loads and all stores but the last are invisible. */
  lemma SilentCall(m: Memory, p: nat)
    requires p in m.procs && CallStep(m.ring, QueueOf(m), m.procs[p]) && m.added == m.popped + QueueOf(m)
    requires !m.procs[p].AddStoreSize? && !m.procs[p].PopStoreSize?
    ensures Abs(CallStatement(m, p)) == Abs(m)
  {
    CallOutcome(m, p);
    SilentMove(m.procs, p, RunCall(m.ring, m.procs[p]).1);
  }

  lemma AtomicAdd(s: Atomic.Buffer, p: nat, e: Elem, s': Atomic.Buffer)
    requires p in s.procs && s.procs[p] == Atomic.Add(e) && |s.queue| < MAX
    requires s' == s.(procs := s.procs[p := Atomic.PostProduct], queue := s.queue + [e], added := s.added + [e])
    ensures Atomic.CanStep(s, Atomic.Statement(p)) && s' == Atomic.Apply(s, Atomic.Statement(p))
  {
  }

  lemma AtomicPop(s: Atomic.Buffer, p: nat, s': Atomic.Buffer)
    requires p in s.procs && s.procs[p] == Atomic.Pop && s.queue != []
    requires s' == s.(procs := s.procs[p := Atomic.PostSpace], queue := s.queue[1..], popped := s.popped + [s.queue[0]])
    ensures Atomic.CanStep(s, Atomic.Statement(p)) && s' == Atomic.Apply(s, Atomic.Statement(p))
  {
  }

  lemma AddHappens(m: Memory, p: nat)
    requires p in m.procs && m.procs[p].AddStoreSize? && |QueueOf(m)| < MAX && m.added == m.popped + QueueOf(m)
    requires CallStep(m.ring, QueueOf(m), m.procs[p])
    ensures Refines(m, Atomic.Statement(p), CallStatement(m, p))
  {
    CallOutcome(m, p);
    MoveProcs(m.procs, p, PostProduct);
    var s, s', e := Abs(m), Abs(CallStatement(m, p)), m.procs[p].elem;
    AtomicAdd(s, p, e, s');
  }

  lemma PopHappens(m: Memory, p: nat)
    requires p in m.procs && m.procs[p].PopStoreSize? && QueueOf(m) != [] && m.added == m.popped + QueueOf(m)
    requires CallStep(m.ring, QueueOf(m), m.procs[p]) && m.procs[p].elem == QueueOf(m)[0]
    ensures Refines(m, Atomic.Statement(p), CallStatement(m, p))
  {
    CallOutcome(m, p);
    MoveProcs(m.procs, p, PostSpace);
    var s, s' := Abs(m), Abs(CallStatement(m, p));
    AtomicPop(s, p, s');
  }

  /** What refinement needs of the call that is about to make its next statement. */
  ghost predicate CallReady(m: Memory, p: nat) {
    p in m.procs && CallStep(m.ring, QueueOf(m), m.procs[p]) && m.added == m.popped + QueueOf(m) &&
    (m.procs[p].AddStoreSize? ==> |QueueOf(m)| < MAX) &&
    (m.procs[p].PopStoreSize? ==> QueueOf(m) != [] && m.procs[p].elem == QueueOf(m)[0])
  }

  lemma CallIsReady(m: Memory, p: nat)
    requires Inv(m) && Alone(m.procs, p) && (Inside(m.procs[p]) || Enters(m.procs[p]))
    ensures CallReady(m, p)
  {
    CallHasRoom(m, p);
    CallGoesOn(m.ring, QueueOf(m), m.procs[p]);
  }

  lemma CallRefines(m: Memory, p: nat)
    requires CallReady(m, p)
    ensures Refines(m, Atomic.Statement(p), CallStatement(m, p))
  {
    if m.procs[p].AddStoreSize? {
      AddHappens(m, p);
    } else if m.procs[p].PopStoreSize? {
      PopHappens(m, p);
    } else {
      SilentCall(m, p);
    }
  }

  /** The statements around the calls are those of the atomic protocol. */
  lemma WaitRefines(m: Memory, p: nat)
    requires CanStep(m, Atomic.Statement(p)) && (m.procs[p].WaitSpace? || m.procs[p].WaitProduct?)
    ensures Refines(m, Atomic.Statement(p), Execute(m, p))
  {
    MoveProcs(m.procs, p, Execute(m, p).procs[p]);
  }

  lemma PostRefines(m: Memory, p: nat)
    requires p in m.procs && (m.procs[p].PostProduct? || m.procs[p].PostSpace?)
    ensures Refines(m, Atomic.Statement(p), Execute(m, p))
  {
    LeaveProcs(m.procs, p);
  }

  lemma JoinRefines(m: Memory, step: Step)
    requires CanStep(m, step) && !step.Statement?
    ensures Refines(m, step, Apply(m, step))
  {
    MoveProcs(m.procs, step.proc, Apply(m, step).procs[step.proc]);
  }

  lemma OutsideRefines(m: Memory, step: Step)
    requires CanStep(m, step)
    requires step.Statement? ==> !Inside(m.procs[step.proc]) && !Enters(m.procs[step.proc])
    ensures Refines(m, step, Apply(m, step))
  {
    if !step.Statement? {
      JoinRefines(m, step);
    } else if m.procs[step.proc].WaitSpace? || m.procs[step.proc].WaitProduct? {
      WaitRefines(m, step.proc);
    } else {
      PostRefines(m, step.proc);
    }
  }

  lemma OutsideKeepsRing(m: Memory, step: Step)
    requires OneInside(m.procs) && RingOk(m.procs, m.ring, QueueOf(m)) && CanStep(m, step)
    requires step.Statement? ==> !Inside(m.procs[step.proc]) && !Enters(m.procs[step.proc])
    ensures var m' := Apply(m, step);
      OneInside(m'.procs) && RingOk(m'.procs, m'.ring, QueueOf(m'))
  {
    var m' := Apply(m, step);
    assert m'.ring == m.ring && QueueOf(m') == QueueOf(m);
    OutsideMoves(m.procs, m'.procs, step.proc, m.ring, QueueOf(m));
  }

  lemma RefinementKeeps(m: Memory, step: Step, m': Memory)
    requires Atomic.Inv(Abs(m)) && Refines(m, step, m')
    ensures Atomic.Inv(Abs(m'))
  {
    if Abs(m') != Abs(m) {
      Atomic.StepKeeps(Abs(m), step);
    }
  }

  lemma AloneIfSerial(m: Memory, p: nat)
    requires OneInside(m.procs) && p in m.procs && (Inside(m.procs[p]) || Enters(m.procs[p]))
    requires !Overlaps(m, Atomic.Statement(p))
    ensures Alone(m.procs, p)
  {
  }

  /** A step that does not make calls overlap refines the atomic protocol. */
  lemma StepRefines(m: Memory, step: Step)
    requires Inv(m) && CanStep(m, step) && !Overlaps(m, step)
    ensures Refines(m, step, Apply(m, step)) && Inv(Apply(m, step))
  {
    if step.Statement? && (Inside(m.procs[step.proc]) || Enters(m.procs[step.proc])) {
      assert Apply(m, step) == CallStatement(m, step.proc);
      AloneIfSerial(m, step.proc);
      CallIsReady(m, step.proc);
      CallKeepsRing(m, step.proc);
      CallRefines(m, step.proc);
    } else {
      OutsideRefines(m, step);
      OutsideKeepsRing(m, step);
    }
    RefinementKeeps(m, step, Apply(m, step));
  }

  lemma UnusedRing(procs: map<nat, Pc>, r: Ring)
    requires procs == map[] && r.size == 0 && r.front == r.rear
    ensures OneInside(procs) && RingOk(procs, r, [])
  {
    assert Unroll(r.arr, r.front, 0) == [];
  }

  lemma StartHolds(m: Memory)
    requires m == START
    ensures Inv(m)
  {
    var s := Abs(m);
    assert s.procs == map[];
    assert Atomic.IsRun([s], []);
    Atomic.RunInvariant([s], [], 0);
    UnusedRing(m.procs, m.ring);
  }

  lemma RefinesAt(trace: seq<Memory>, steps: seq<Step>, k: nat)
    requires IsRun(trace, steps) && k < |steps| && Inv(trace[k]) && !Overlaps(trace[k], steps[k])
    ensures Refines(trace[k], steps[k], trace[k + 1]) && Inv(trace[k + 1])
  {
    StepRefines(trace[k], steps[k]);
  }

  lemma {:induction false} SerialRunInvariant(trace: seq<Memory>, steps: seq<Step>, i: nat)
    requires IsRun(trace, steps) && i < |trace|
    requires forall k | 0 <= k < i :: !Overlaps(trace[k], steps[k])
    ensures Inv(trace[i])
    decreases i
  {
    if i == 0 {
      StartHolds(trace[0]);
    } else {
      SerialRunInvariant(trace, steps, i - 1);
      RefinesAt(trace, steps, i - 1);
    }
  }

  /** A run whose calls do not overlap is, step by step, a run of the atomic protocol. */
  lemma SerialRunRefines(trace: seq<Memory>, steps: seq<Step>, i: nat)
    requires IsRun(trace, steps) && i < |steps|
    requires forall k | 0 <= k <= i :: !Overlaps(trace[k], steps[k])
    ensures Refines(trace[i], steps[i], trace[i + 1])
  {
    SerialRunInvariant(trace, steps, i);
    RefinesAt(trace, steps, i);
  }

  /** So no call is refused, what is popped is what was added, in order, and the ring holds the rest. */
  lemma SerialRunsAreSafe(trace: seq<Memory>, steps: seq<Step>, i: nat)
    requires IsRun(trace, steps) && i < |trace|
    requires forall k | 0 <= k < i :: !Overlaps(trace[k], steps[k])
    ensures var m := trace[i];
      m.refused == 0 && m.popped <= m.added && SafeRing(m)
  {
    SerialRunInvariant(trace, steps, i);
    AddedIsPoppedAndQueue(trace[i]);
  }

  /** While nobody is inside a call the ring holds exactly what has been added and not popped. */
  ghost predicate SafeRing(m: Memory) {
    (forall p | p in m.procs :: !Inside(m.procs[p])) ==>
      m.ring.size <= MAX && m.popped + Unroll(m.ring.arr, m.ring.front, m.ring.size) == m.added
  }

  lemma AddedIsPoppedAndQueue(m: Memory)
    requires Inv(m)
    ensures m.added == m.popped + QueueOf(m) && m.refused == 0 && SafeRing(m)
  {
  }

  /** A call that is refused goes on to its post, and leaves the ring and what it holds alone. */
  lemma RefusedGoesOn(m: Memory, p: nat)
    requires p in m.procs && Refuses(m.ring, m.procs[p])
    ensures CanStep(m, Atomic.Statement(p))
    ensures Apply(m, Atomic.Statement(p)) ==
            m.(refused := m.refused + 1, procs := m.procs[p := if m.procs[p].PopTest? then PostSpace else PostProduct])
  {
  }

  // ----- the ring, in runs whose calls overlap

  /** The ring holds what has been placed and not taken, and what was taken was placed, in order. */
  ghost predicate ContentRight(m: Memory) {
    |m.taken| <= |m.placed| <= |m.taken| + MAX && m.taken <= m.placed &&
    m.ring.front == |m.taken| % MAX && m.ring.rear == |m.placed| % MAX &&
    forall i | |m.taken| <= i < |m.placed| :: m.ring.arr[i % MAX] == m.placed[i]
  }

  /** The copy or the store of another process has come between. */
  predicate GoesWrong(m: Memory, pc: Pc) {
    match pc
    case AddCopy(e) => |m.placed| == |m.taken| + MAX && m.ring.arr[m.ring.rear] != e
    case AddStoreRear(e, seen) =>
      |m.placed| == |m.taken| + MAX || seen != m.ring.rear || m.ring.arr[m.ring.rear] != e
    case PopStoreFront(e, seen) =>
      |m.placed| == |m.taken| || seen != m.ring.front || m.ring.arr[m.ring.front] != e
    case _ => false
  }

  lemma SlotsApart(i: nat, n: nat)
    requires i < n <= i + MAX
    ensures i % MAX == n % MAX <==> n == i + MAX
  {
  }

  lemma NextIff(seen: Slot, n: nat)
    ensures Next(seen) == (n + 1) % MAX <==> seen == n % MAX
  {
  }

  lemma CopyRightIff(m: Memory, e: Elem, m': Memory)
    requires ContentRight(m) && m'.ring == m.ring.(arr := m.ring.arr[m.ring.rear := e])
    requires m'.placed == m.placed && m'.taken == m.taken
    ensures ContentRight(m') <==> !GoesWrong(m, AddCopy(e))
  {
    var t, n := |m.taken|, |m.placed|;
    forall i | t <= i < n ensures m'.ring.arr[i % MAX] == (if n == i + MAX then e else m.placed[i]) {
      SlotsApart(i, n);
    }
    if n == t + MAX {
      SlotsApart(t, n);
      assert m'.ring.arr[t % MAX] == e;
    }
  }

  lemma PlaceRightIff(m: Memory, e: Elem, seen: Slot, m': Memory)
    requires ContentRight(m) && m'.ring == m.ring.(rear := Next(seen))
    requires m'.placed == m.placed + [e] && m'.taken == m.taken
    ensures ContentRight(m') <==> !GoesWrong(m, AddStoreRear(e, seen))
  {
    var n := |m.placed|;
    NextIff(seen, n);
    assert m'.placed[n] == e && forall i | 0 <= i < n :: m'.placed[i] == m.placed[i];
    if ContentRight(m') {
      assert m'.ring.arr[n % MAX] == m'.placed[n];
    }
  }

  lemma TakeRightIff(m: Memory, e: Elem, seen: Slot, m': Memory)
    requires ContentRight(m) && m'.ring == m.ring.(front := Next(seen))
    requires m'.placed == m.placed && m'.taken == m.taken + [e]
    ensures ContentRight(m') <==> !GoesWrong(m, PopStoreFront(e, seen))
  {
    var t := |m.taken|;
    NextIff(seen, t);
    assert m'.taken[t] == e;
    if t < |m.placed| {
      assert m.ring.arr[t % MAX] == m.placed[t];
      assert m.placed[..t + 1] == m.taken + [m.placed[t]];
    }
  }

  /** Exactly these steps lose, double or mix up elements, in whatever run. */
  lemma ContentRightIff(m: Memory, step: Step)
    requires CanStep(m, step) && ContentRight(m)
    ensures ContentRight(Apply(m, step)) <==> !(step.Statement? && GoesWrong(m, m.procs[step.proc]))
  {
    var m' := Apply(m, step);
    if step.Statement? && m.procs[step.proc].AddCopy? {
      CopyRightIff(m, m.procs[step.proc].elem, m');
    } else if step.Statement? && m.procs[step.proc].AddStoreRear? {
      PlaceRightIff(m, m.procs[step.proc].elem, m.procs[step.proc].rear, m');
    } else if step.Statement? && m.procs[step.proc].PopStoreFront? {
      TakeRightIff(m, m.procs[step.proc].elem, m.procs[step.proc].front, m');
    } else {
      assert m'.ring.(size := 0) == m.ring.(size := 0) && m'.placed == m.placed && m'.taken == m.taken;
    }
  }

  /** The size that is stored is the number of elements added and not popped. */
  predicate SizeRight(m: Memory) {
    m.ring.size == (|m.added| - |m.popped|) % U32_RANGE
  }

  /** A store of a size that another process has changed since it was loaded. */
  predicate StaleStore(m: Memory, step: Step) {
    step.Statement? && step.proc in m.procs &&
    (m.procs[step.proc].AddStoreSize? || m.procs[step.proc].PopStoreSize?) && m.procs[step.proc].size != m.ring.size
  }

  lemma CountUp(size: Word, seen: Word, d: int)
    requires size == d % U32_RANGE
    ensures (seen + 1) % U32_RANGE == (d + 1) % U32_RANGE <==> seen == size
  {
  }

  lemma CountDown(size: Word, seen: Word, d: int)
    requires size == d % U32_RANGE
    ensures (seen + U32_RANGE - 1) % U32_RANGE == (d - 1) % U32_RANGE <==> seen == size
  {
  }

  /** Exactly the stale stores make the size wrong, in whatever run. */
  lemma SizeRightIff(m: Memory, step: Step)
    requires CanStep(m, step) && SizeRight(m)
    ensures SizeRight(Apply(m, step)) <==> !StaleStore(m, step)
  {
    if step.Statement? {
      var pc, d := m.procs[step.proc], |m.added| - |m.popped|;
      if pc.AddStoreSize? {
        CountUp(m.ring.size, pc.size, d);
      } else if pc.PopStoreSize? {
        CountDown(m.ring.size, pc.size, d);
      }
    }
  }

  /** A step that spoils the size or the contents, seen before it. */
  predicate Spoils(m: Memory, step: Step) {
    StaleStore(m, step) || (step.Statement? && step.proc in m.procs && GoesWrong(m, m.procs[step.proc]))
  }

  lemma SpoiledIff(m: Memory, step: Step)
    requires CanStep(m, step) && SizeRight(m) && ContentRight(m)
    ensures SizeRight(Apply(m, step)) && ContentRight(Apply(m, step)) <==> !Spoils(m, step)
  {
    SizeRightIff(m, step);
    ContentRightIff(m, step);
  }

  lemma SpoiledAt(trace: seq<Memory>, steps: seq<Step>, k: nat)
    requires IsRun(trace, steps) && k < |steps| && SizeRight(trace[k]) && ContentRight(trace[k])
    ensures SizeRight(trace[k + 1]) && ContentRight(trace[k + 1]) <==> !Spoils(trace[k], steps[k])
  {
    SpoiledIff(trace[k], steps[k]);
  }

  /** Runs without such steps keep both, whether calls overlap or not. */
  lemma {:induction false} RingStaysRight(trace: seq<Memory>, steps: seq<Step>, i: nat)
    requires IsRun(trace, steps) && i < |trace|
    requires forall k | 0 <= k < i :: !Spoils(trace[k], steps[k])
    ensures SizeRight(trace[i]) && ContentRight(trace[i])
    decreases i
  {
    if i > 0 {
      RingStaysRight(trace, steps, i - 1);
      SpoiledAt(trace, steps, i - 1);
    }
  }
}
