/**
 A bounded buffer in shared memory between any number of producers and consumers,
 guarded only by two counting semaphores (anonymous_semaphore.c). A step is one
 `sem_wait`, one `sem_post`, one `queue_add` or one `queue_pop`.
 */
module BoundedBuffer {
  import opened Threads
  import opened RingQueue

  const QUEUE_MAX_SIZE: nat := 5

  type Elem = string

  /** The statement the process is about to execute; a consumer keeps what it has popped. */
  datatype Pc =
    | WaitSpace(elem: Elem) | Add(elem: Elem) | PostProduct
    | WaitProduct | Pop | PostSpace

  predicate IsAdding(pc: Pc) { pc.Add? }
  predicate IsAdded(pc: Pc) { pc.PostProduct? }
  predicate IsPopping(pc: Pc) { pc.Pop? }
  predicate IsPopped(pc: Pc) { pc.PostSpace? }

  /** `refused` counts the calls of queue_add and queue_pop that found the queue full or empty. */
  datatype Buffer = Buffer(
    space: nat, product: nat, queue: seq<Elem>, procs: map<nat, Pc>,
    added: seq<Elem>, popped: seq<Elem>, refused: nat)

  datatype Step =
    | Produce(proc: nat, elem: Elem)
    | Consume(proc: nat)
    | Statement(proc: nat)

  /** A process loops as a producer or as a consumer; it joins, or starts the next round, with a new element. */
  predicate CanStep(s: Buffer, step: Step) {
    match step
    case Produce(p, _) => p !in s.procs
    case Consume(p) => p !in s.procs
    case Statement(p) =>
      p in s.procs && (s.procs[p].WaitSpace? ==> s.space > 0) && (s.procs[p].WaitProduct? ==> s.product > 0)
  }

  function QueueAdd(s: Buffer, elem: Elem): Buffer {
    if |s.queue| >= QUEUE_MAX_SIZE then s.(refused := s.refused + 1)
    else s.(queue := s.queue + [elem], added := s.added + [elem])
  }

  function QueuePop(s: Buffer): Buffer {
    if s.queue == [] then s.(refused := s.refused + 1)
    else s.(queue := s.queue[1..], popped := s.popped + [s.queue[0]])
  }

  function GoTo(s: Buffer, p: nat, pc: Pc): Buffer {
    s.(procs := s.procs[p := pc])
  }

  function Execute(s: Buffer, p: nat): Buffer
    requires CanStep(s, Statement(p))
  {
    match s.procs[p]
    case WaitSpace(elem) => GoTo(s, p, Add(elem)).(space := s.space - 1)
    case Add(elem) => GoTo(QueueAdd(s, elem), p, PostProduct)
    case PostProduct => s.(product := s.product + 1, procs := s.procs - {p})
    case WaitProduct => GoTo(s, p, Pop).(product := s.product - 1)
    case Pop => GoTo(QueuePop(s), p, PostSpace)
    case PostSpace => s.(space := s.space + 1, procs := s.procs - {p})
  }

  function Apply(s: Buffer, step: Step): Buffer
    requires CanStep(s, step)
  {
    match step
    case Produce(p, elem) => GoTo(s, p, WaitSpace(elem))
    case Consume(p) => GoTo(s, p, WaitProduct)
    case Statement(p) => Execute(s, p)
  }

  const START := Buffer(QUEUE_MAX_SIZE, 0, [], map[], [], [], 0)

  ghost predicate IsRun(trace: seq<Buffer>, steps: seq<Step>) {
    |trace| == |steps| + 1 && trace[0] == START &&
    forall i {:trigger steps[i]} | 0 <= i < |steps| ::
      CanStep(trace[i], steps[i]) && trace[i + 1] == Apply(trace[i], steps[i])
  }

  // ----- the invariant

  /** Processes between a wait and the post that pairs with it, by what the queue shows of them. */
  function Reserved(s: Buffer): nat { Count(s.procs, IsAdding) + Count(s.procs, IsPopped) }
  function Listed(s: Buffer): nat { Count(s.procs, IsAdded) + Count(s.procs, IsPopping) }

  ghost predicate Inv(s: Buffer) {
    s.space + Reserved(s) + s.product + Listed(s) == QUEUE_MAX_SIZE &&
    |s.queue| == s.product + Listed(s) &&
    s.added == s.popped + s.queue && s.refused == 0
  }

  lemma CountsMove(s: Buffer, p: nat, pc: Pc)
    ensures var m := s.procs[p := pc];
      Count(m, IsAdding) == Count(s.procs, IsAdding) - Here(s.procs, p, IsAdding) + (if pc.Add? then 1 else 0) &&
      Count(m, IsAdded) == Count(s.procs, IsAdded) - Here(s.procs, p, IsAdded) + (if pc.PostProduct? then 1 else 0) &&
      Count(m, IsPopping) == Count(s.procs, IsPopping) - Here(s.procs, p, IsPopping) + (if pc.Pop? then 1 else 0) &&
      Count(m, IsPopped) == Count(s.procs, IsPopped) - Here(s.procs, p, IsPopped) + (if pc.PostSpace? then 1 else 0)
  {
    CountMove(s.procs, p, pc, IsAdding);
    CountMove(s.procs, p, pc, IsAdded);
    CountMove(s.procs, p, pc, IsPopping);
    CountMove(s.procs, p, pc, IsPopped);
  }

  lemma CountsLeave(s: Buffer, p: nat)
    ensures var m := s.procs - {p};
      Count(m, IsAdding) == Count(s.procs, IsAdding) - Here(s.procs, p, IsAdding) &&
      Count(m, IsAdded) == Count(s.procs, IsAdded) - Here(s.procs, p, IsAdded) &&
      Count(m, IsPopping) == Count(s.procs, IsPopping) - Here(s.procs, p, IsPopping) &&
      Count(m, IsPopped) == Count(s.procs, IsPopped) - Here(s.procs, p, IsPopped)
  {
    CountLeave(s.procs, p, IsAdding);
    CountLeave(s.procs, p, IsAdded);
    CountLeave(s.procs, p, IsPopping);
    CountLeave(s.procs, p, IsPopped);
  }

  lemma ProducerKeeps(s: Buffer, p: nat)
    requires Inv(s) && CanStep(s, Statement(p)) && (s.procs[p].WaitSpace? || s.procs[p].Add? || s.procs[p].PostProduct?)
    ensures Inv(Execute(s, p))
  {
    match s.procs[p]
    case WaitSpace(elem) => CountsMove(s, p, Add(elem));
    case Add(elem) =>
      CountPositive(s.procs, p, IsAdding);
      CountsMove(s, p, PostProduct);
    case PostProduct => CountsLeave(s, p);
  }

  lemma ConsumerKeeps(s: Buffer, p: nat)
    requires Inv(s) && CanStep(s, Statement(p)) && (s.procs[p].WaitProduct? || s.procs[p].Pop? || s.procs[p].PostSpace?)
    ensures Inv(Execute(s, p))
  {
    match s.procs[p]
    case WaitProduct => CountsMove(s, p, Pop);
    case Pop =>
      CountPositive(s.procs, p, IsPopping);
      CountsMove(s, p, PostSpace);
    case PostSpace => CountsLeave(s, p);
  }

  lemma StepKeeps(s: Buffer, step: Step)
    requires Inv(s) && CanStep(s, step)
    ensures Inv(Apply(s, step))
  {
    match step
    case Produce(p, elem) => CountsMove(s, p, WaitSpace(elem));
    case Consume(p) => CountsMove(s, p, WaitProduct);
    case Statement(p) =>
      if s.procs[p].WaitSpace? || s.procs[p].Add? || s.procs[p].PostProduct? {
        ProducerKeeps(s, p);
      } else {
        ConsumerKeeps(s, p);
      }
  }

  lemma {:induction false} RunInvariant(trace: seq<Buffer>, steps: seq<Step>, i: nat)
    requires IsRun(trace, steps) && i < |trace|
    ensures Inv(trace[i])
    decreases i
  {
    if i > 0 {
      RunInvariant(trace, steps, i - 1);
      StepKeeps(trace[i - 1], steps[i - 1]);
    } else {
      var none := map[];
      assert Where(none, IsAdding) == Where(none, IsAdded) == Where(none, IsPopping) == Where(none, IsPopped) == {};
    }
  }

  // ----- the turn of one process

  /** The steps lead from one buffer to the next. */
  ghost predicate IsPath(trace: seq<Buffer>, steps: seq<Step>) {
    |trace| == |steps| + 1 &&
    forall i {:trigger steps[i]} | 0 <= i < |steps| ::
      CanStep(trace[i], steps[i]) && trace[i + 1] == Apply(trace[i], steps[i])
  }

  /** A process that nobody disturbs makes three statements. */
  function Turn(start: Step, p: nat): seq<Step> {
    [start, Statement(p), Statement(p), Statement(p)]
  }

  lemma ProducerPath(s: Buffer, p: nat, elem: Elem, end: Buffer) returns (trace: seq<Buffer>)
    requires |s.queue| < QUEUE_MAX_SIZE && p !in s.procs && s.space > 0
    requires end == s.(space := s.space - 1, product := s.product + 1, queue := s.queue + [elem],
                       added := s.added + [elem])
    ensures IsPath(trace, Turn(Produce(p, elem), p)) && trace[0] == s && trace[4] == end
  {
    var s1, s2 := GoTo(s, p, WaitSpace(elem)), GoTo(s, p, Add(elem)).(space := s.space - 1);
    var s3 := GoTo(end, p, PostProduct).(product := s.product);
    assert s.procs[p := PostProduct] - {p} == s.procs;
    trace := [s, s1, s2, s3, end];
  }

  /** With a free place a producer adds its own element, and one product more is there than before. */
  lemma ProducerAlone(s: Buffer, p: nat, elem: Elem) returns (trace: seq<Buffer>)
    requires Inv(s) && p !in s.procs && s.space > 0
    ensures IsPath(trace, Turn(Produce(p, elem), p)) && trace[0] == s
    ensures trace[4] == s.(space := s.space - 1, product := s.product + 1, queue := s.queue + [elem],
                           added := s.added + [elem])
  {
    trace := ProducerPath(s, p, elem, s.(space := s.space - 1, product := s.product + 1, queue := s.queue + [elem],
                                         added := s.added + [elem]));
  }

  lemma ConsumerPath(s: Buffer, p: nat, end: Buffer) returns (trace: seq<Buffer>)
    requires s.queue != [] && p !in s.procs && s.product > 0
    requires end == s.(space := s.space + 1, product := s.product - 1, queue := s.queue[1..],
                       popped := s.popped + [s.queue[0]])
    ensures IsPath(trace, Turn(Consume(p), p)) && trace[0] == s && trace[4] == end
  {
    var s1, s2 := GoTo(s, p, WaitProduct), GoTo(s, p, Pop).(product := s.product - 1);
    var s3 := GoTo(end, p, PostSpace).(space := s.space);
    assert s.procs[p := PostSpace] - {p} == s.procs;
    trace := [s, s1, s2, s3, end];
  }

  /** With a product a consumer pops the oldest element, and one place more is free than before. */
  lemma ConsumerAlone(s: Buffer, p: nat) returns (trace: seq<Buffer>)
    requires Inv(s) && p !in s.procs && s.product > 0
    ensures s.queue != [] && IsPath(trace, Turn(Consume(p), p)) && trace[0] == s
    ensures trace[4] == s.(space := s.space + 1, product := s.product - 1, queue := s.queue[1..],
                           popped := s.popped + [s.queue[0]])
  {
    trace := ConsumerPath(s, p, s.(space := s.space + 1, product := s.product - 1, queue := s.queue[1..],
                                   popped := s.popped + [s.queue[0]]));
  }

  /** Whatever the others do meanwhile, a process stands still and keeps its element until its own next statement. */
  lemma OthersStandStill(s: Buffer, step: Step, p: nat)
    requires CanStep(s, step) && p != step.proc
    ensures p in Apply(s, step).procs <==> p in s.procs
    ensures p in s.procs ==> Apply(s, step).procs[p] == s.procs[p]
  {
  }

  /** The statements of a process, in their order, with the element that goes in; a wait only happens when it may. */
  lemma StatementsInOrder(s: Buffer, p: nat)
    requires Inv(s) && CanStep(s, Statement(p))
    ensures var s' := Apply(s, Statement(p));
      match s.procs[p]
      case WaitSpace(elem) => s'.procs == s.procs[p := Add(elem)] && s'.space == s.space - 1 && s'.added == s.added
      case Add(elem) => s'.procs == s.procs[p := PostProduct] && s'.added == s.added + [elem]
      case PostProduct => s'.procs == s.procs - {p} && s'.product == s.product + 1 && s'.added == s.added
      case WaitProduct => s'.procs == s.procs[p := Pop] && s'.product == s.product - 1 && s'.popped == s.popped
      case Pop => s'.procs == s.procs[p := PostSpace] && s.queue != [] && s'.popped == s.popped + [s.queue[0]]
      case PostSpace => s'.procs == s.procs - {p} && s'.space == s.space + 1 && s'.popped == s.popped
  {
    if s.procs[p].Add? {
      CountPositive(s.procs, p, IsAdding);
    } else if s.procs[p].Pop? {
      CountPositive(s.procs, p, IsPopping);
    }
  }

  // ----- what it gives

  /** queue_add never finds the queue full and queue_pop never finds it empty. */
  lemma NeverRefused(trace: seq<Buffer>, steps: seq<Step>, i: nat, p: nat)
    requires IsRun(trace, steps) && i < |trace| && p in trace[i].procs
    ensures trace[i].refused == 0
    ensures trace[i].procs[p].Add? ==> |trace[i].queue| < QUEUE_MAX_SIZE
    ensures trace[i].procs[p].Pop? ==> trace[i].queue != []
  {
    RunInvariant(trace, steps, i);
    if trace[i].procs[p].Add? {
      CountPositive(trace[i].procs, p, IsAdding);
    } else if trace[i].procs[p].Pop? {
      CountPositive(trace[i].procs, p, IsPopping);
    }
  }

  /** What has been popped is what was added first, in that order; the rest is the queue. */
  lemma PoppedIsPrefixOfAdded(trace: seq<Buffer>, steps: seq<Step>, i: nat)
    requires IsRun(trace, steps) && i < |trace|
    ensures trace[i].popped + trace[i].queue == trace[i].added && trace[i].popped <= trace[i].added
    ensures |trace[i].queue| <= QUEUE_MAX_SIZE
  {
    RunInvariant(trace, steps, i);
  }

  /** As long as there are a producer and a consumer in their loops, some process can run. */
  lemma SomebodyCanRun(trace: seq<Buffer>, steps: seq<Step>, i: nat, p: nat, c: nat)
    requires IsRun(trace, steps) && i < |trace| && p in trace[i].procs && c in trace[i].procs
    requires trace[i].procs[p].WaitSpace? && trace[i].procs[c].WaitProduct?
    ensures exists q :: q in trace[i].procs && CanStep(trace[i], Statement(q))
  {
    RunInvariant(trace, steps, i);
    var s := trace[i];
    if s.space > 0 {
      assert CanStep(s, Statement(p));
    } else if s.product > 0 {
      assert CanStep(s, Statement(c));
    } else {
      var q := SomebodyBetween(s);
      assert CanStep(s, Statement(q));
    }
  }

  lemma SomebodyBetween(s: Buffer) returns (p: nat)
    requires Inv(s) && s.space == 0 && s.product == 0
    ensures p in s.procs && !s.procs[p].WaitSpace? && !s.procs[p].WaitProduct?
  {
    if Where(s.procs, IsAdding) != {} {
      p :| p in Where(s.procs, IsAdding);
    } else if Where(s.procs, IsAdded) != {} {
      p :| p in Where(s.procs, IsAdded);
    } else if Where(s.procs, IsPopping) != {} {
      p :| p in Where(s.procs, IsPopping);
    } else {
      p :| p in Where(s.procs, IsPopped);
    }
  }

  // ----- the code

  class SharedQueue {
    var front: nat
    var rear: nat
    var size: nat
    const arr: array<Elem>

    ghost predicate Valid()
      reads this
    {
      arr.Length == QUEUE_MAX_SIZE && front < QUEUE_MAX_SIZE && size <= QUEUE_MAX_SIZE &&
      rear == Wrap(front, size, QUEUE_MAX_SIZE)
    }

    ghost function Contents(): (s: seq<Elem>)
      requires Valid()
      reads this, arr
      ensures |s| == size
    {
      Unroll(arr[..], front, size)
    }

    constructor ()
      ensures Valid() && Contents() == [] && fresh(arr)
    {
      front, rear, size := 0, 0, 0;
      arr := new Elem[QUEUE_MAX_SIZE](_ => "");
    }

    method GetFreeSpace() returns (free: nat)
      requires Valid()
      ensures free == QUEUE_MAX_SIZE - |Contents()|
    {
      free := QUEUE_MAX_SIZE - size;
    }

    method Add(elem: Elem) returns (ok: bool)
      requires Valid()
      modifies this, arr
      ensures Valid() && ok == (|old(Contents())| < QUEUE_MAX_SIZE)
      ensures Contents() == if ok then old(Contents()) + [elem] else old(Contents())
    {
      var free := GetFreeSpace();
      if free <= 0 {
        return false;
      }
      UnrollPush(arr[..], front, size, elem);
      WrapIsMod(rear + 1, QUEUE_MAX_SIZE);
      arr[rear] := elem;
      rear := (rear + 1) % QUEUE_MAX_SIZE;
      size := size + 1;
      return true;
    }

    method Pop() returns (ok: bool, elem: Elem)
      requires Valid()
      modifies this
      ensures Valid() && ok == (old(Contents()) != [])
      ensures if ok then [elem] + Contents() == old(Contents()) else Contents() == old(Contents())
    {
      if size <= 0 {
        return false, "";
      }
      UnrollPop(arr[..], front, size);
      WrapIsMod(front + 1, QUEUE_MAX_SIZE);
      elem := arr[front];
      front := (front + 1) % QUEUE_MAX_SIZE;
      size := size - 1;
      ok := true;
    }
  }

  /** The shared memory: both semaphores and the queue; `procs` stands for the processes. */
  class SharedMemory {
    var semSpace: nat
    var semProduct: nat
    const queue: SharedQueue
    var procs: map<nat, Pc>
    var added: seq<Elem>
    var popped: seq<Elem>
    var refused: nat

    ghost predicate Valid()
      reads this, queue
    {
      queue.Valid()
    }

    ghost function Abs(): Buffer
      requires Valid()
      reads this, queue, queue.arr
    {
      Buffer(semSpace, semProduct, queue.Contents(), procs, added, popped, refused)
    }

    constructor ()
      ensures Valid() && Abs() == START && fresh(queue) && fresh(queue.arr)
    {
      semSpace, semProduct := QUEUE_MAX_SIZE, 0;
      queue := new SharedQueue();
      procs, added, popped, refused := map[], [], [], 0;
    }

    method ProducerStatement(p: nat)
      requires Valid() && CanStep(Abs(), Statement(p))
      requires procs[p].WaitSpace? || procs[p].Add? || procs[p].PostProduct?
      modifies this, queue, queue.arr
      ensures Valid() && Abs() == Execute(old(Abs()), p)
    {
      match procs[p]
      case WaitSpace(elem) =>
        semSpace := semSpace - 1;
        procs := procs[p := Pc.Add(elem)];
      case Add(elem) =>
        var ok := queue.Add(elem);
        if ok {
          added := added + [elem];
        } else {
          refused := refused + 1;
        }
        procs := procs[p := PostProduct];
      case PostProduct =>
        semProduct := semProduct + 1;
        procs := procs - {p};
    }

    method ConsumerStatement(p: nat)
      requires Valid() && CanStep(Abs(), Statement(p))
      requires procs[p].WaitProduct? || procs[p].Pop? || procs[p].PostSpace?
      modifies this, queue
      ensures Valid() && Abs() == Execute(old(Abs()), p)
    {
      match procs[p]
      case WaitProduct =>
        semProduct := semProduct - 1;
        procs := procs[p := Pc.Pop];
      case Pop =>
        var ok, elem := queue.Pop();
        if ok {
          popped := popped + [elem];
        } else {
          refused := refused + 1;
        }
        procs := procs[p := PostSpace];
      case PostSpace =>
        semSpace := semSpace + 1;
        procs := procs - {p};
    }
  }
}
