/**
 Producers and consumers around a linked list guarded by a mutex and a condition
 variable (thread/cond.c). A product is identified by the number of products made
 before it, so that conservation and the order of consumption can be stated exactly.
 */
module CondChannel {
  import opened Threads

  datatype ConsumerPc = Ready | Asleep | Woken

  predicate IsAsleep(pc: ConsumerPc) { pc.Asleep? }
  predicate IsWoken(pc: ConsumerPc) { pc.Woken? }

  /** The list from `head` on, the products made so far and the products consumed so far. */
  datatype Channel = Channel(list: seq<nat>, produced: seq<int>, consumed: seq<nat>, consumers: map<nat, ConsumerPc>)

  datatype Step =
    | Produce(no: int, wake: set<nat>)
    | Join(consumer: nat)
    | ConsumerTurn(consumer: nat)
    | Spurious(consumer: nat)

  function Wake(consumers: map<nat, ConsumerPc>, wake: set<nat>): map<nat, ConsumerPc> {
    map c | c in consumers :: if c in wake && consumers[c].Asleep? then Woken else consumers[c]
  }

  predicate CanStep(s: Channel, step: Step) {
    match step
    case Produce(_, wake) => SignalOk(wake, Where(s.consumers, IsAsleep))
    case Join(c) => c !in s.consumers
    case ConsumerTurn(c) => c in s.consumers && !s.consumers[c].Asleep?
    case Spurious(c) => c in s.consumers && s.consumers[c].Asleep?
  }

  function Apply(s: Channel, step: Step): Channel
    requires CanStep(s, step)
  {
    match step
    case Produce(no, wake) =>
      s.(list := [|s.produced|] + s.list, produced := s.produced + [no], consumers := Wake(s.consumers, wake))
    case Join(c) => s.(consumers := s.consumers[c := Ready])
    case ConsumerTurn(c) =>
      if s.list == [] then s.(consumers := s.consumers[c := Asleep])
      else s.(list := s.list[1..], consumed := s.consumed + [s.list[0]], consumers := s.consumers[c := Ready])
    case Spurious(c) => s.(consumers := Wake(s.consumers, {c}))
  }

  const START := Channel([], [], [], map[])

  ghost predicate IsRun(trace: seq<Channel>, steps: seq<Step>) {
    |trace| == |steps| + 1 && trace[0] == START &&
    forall i {:trigger steps[i]} | 0 <= i < |steps| ::
      CanStep(trace[i], steps[i]) && trace[i + 1] == Apply(trace[i], steps[i])
  }

  // ----- no lost wakeup

  /** While a consumer sleeps, the products on the list do not outnumber the woken consumers. */
  ghost predicate NoLostWakeup(s: Channel) {
    Where(s.consumers, IsAsleep) == {} || |s.list| <= Count(s.consumers, IsWoken)
  }

  lemma WakeCounts(consumers: map<nat, ConsumerPc>, wake: set<nat>)
    requires wake <= Where(consumers, IsAsleep)
    ensures Where(Wake(consumers, wake), IsAsleep) == Where(consumers, IsAsleep) - wake
    ensures Count(Wake(consumers, wake), IsWoken) == Count(consumers, IsWoken) + |wake|
  {
    CountDepart(consumers, Wake(consumers, wake), wake, IsAsleep);
    CountArrive(consumers, Wake(consumers, wake), wake, IsWoken);
  }

  lemma StepKeepsWakeups(s: Channel, step: Step)
    requires NoLostWakeup(s) && CanStep(s, step)
    ensures NoLostWakeup(Apply(s, step))
  {
    match step
    case Produce(no, wake) =>
      WakeCounts(s.consumers, wake);
      if wake != {} {
        var c :| c in wake;
        SubsetSize({c}, wake);
      }
    case Join(c) =>
      CountMove(s.consumers, c, Ready, IsAsleep);
      CountMove(s.consumers, c, Ready, IsWoken);
    case ConsumerTurn(c) =>
      CountMove(s.consumers, c, Ready, IsAsleep);
      CountMove(s.consumers, c, Ready, IsWoken);
    case Spurious(c) => WakeCounts(s.consumers, {c});
  }

  /** For every number of consumers and every scheduling. */
  lemma {:induction false} NoWakeupLost(trace: seq<Channel>, steps: seq<Step>, i: nat)
    requires IsRun(trace, steps) && i < |trace|
    ensures NoLostWakeup(trace[i])
    decreases i
  {
    if i > 0 {
      NoWakeupLost(trace, steps, i - 1);
      StepKeepsWakeups(trace[i - 1], steps[i - 1]);
    } else {
      assert Where(trace[0].consumers, IsAsleep) == {};
    }
  }

  // ----- conservation and order

  function UpTo(n: nat): multiset<nat> {
    if n == 0 then multiset{} else UpTo(n - 1) + multiset{n - 1}
  }

  /** Every product is consumed once or still listed; the list runs from the newest to the oldest. */
  ghost predicate Conserved(s: Channel) {
    multiset(s.consumed) + multiset(s.list) == UpTo(|s.produced|) &&
    (forall i | 0 <= i < |s.list| :: s.list[i] < |s.produced|) &&
    forall i, j | 0 <= i < j < |s.list| :: s.list[i] > s.list[j]
  }

  lemma ProduceConserves(s: Channel, no: int, wake: set<nat>)
    requires Conserved(s) && CanStep(s, Produce(no, wake))
    ensures Conserved(Apply(s, Produce(no, wake)))
  {
    var n := |s.produced|;
    assert multiset([n] + s.list) == multiset{n} + multiset(s.list);
    assert UpTo(n + 1) == UpTo(n) + multiset{n};
  }

  lemma ConsumeConserves(s: Channel, c: nat)
    requires Conserved(s) && CanStep(s, ConsumerTurn(c)) && s.list != []
    ensures Conserved(Apply(s, ConsumerTurn(c)))
  {
    var s' := Apply(s, ConsumerTurn(c));
    assert s.list == [s.list[0]] + s'.list;
    assert multiset(s.list) == multiset{s.list[0]} + multiset(s'.list);
    assert multiset(s'.consumed) == multiset(s.consumed) + multiset{s.list[0]};
  }

  lemma StepConserves(s: Channel, step: Step)
    requires Conserved(s) && CanStep(s, step)
    ensures Conserved(Apply(s, step))
  {
    if step.Produce? {
      ProduceConserves(s, step.no, step.wake);
    } else if step.ConsumerTurn? && s.list != [] {
      ConsumeConserves(s, step.consumer);
    }
  }

  lemma {:induction false} ProductsConserved(trace: seq<Channel>, steps: seq<Step>, i: nat)
    requires IsRun(trace, steps) && i < |trace|
    ensures Conserved(trace[i])
    decreases i
  {
    if i > 0 {
      ProductsConserved(trace, steps, i - 1);
      StepConserves(trace[i - 1], steps[i - 1]);
    }
  }

  /** A consumer takes the newest product that nobody has consumed. */
  lemma TakesTheNewest(s: Channel, c: nat)
    requires Conserved(s) && CanStep(s, ConsumerTurn(c)) && s.list != []
    ensures var taken := Apply(s, ConsumerTurn(c)).consumed[|s.consumed|];
      taken in s.list && forall k | k in s.list :: k <= taken
  {
  }

  // ----- the code

  // ----- numbers and consumers

  /** The numbers that the producers have made, in order. */
  function Made(steps: seq<Step>): seq<int> {
    if steps == [] then []
    else
      var last := steps[|steps| - 1];
      Made(steps[..|steps| - 1]) + (if last.Produce? then [last.no] else [])
  }

  /** In every run a product's number is the one it was made with. */
  lemma {:induction false} ProducedIsMade(trace: seq<Channel>, steps: seq<Step>, i: nat)
    requires IsRun(trace, steps) && i < |trace|
    ensures trace[i].produced == Made(steps[..i])
    decreases i
  {
    if i > 0 {
      ProducedIsMade(trace, steps, i - 1);
      assert steps[..i][..i - 1] == steps[..i - 1];
      assert trace[i] == Apply(trace[i - 1], steps[i - 1]);
    }
  }

  /** Producing puts the product on top, and wakes exactly whom the signal reaches. */
  lemma ProduceGoes(s: Channel, no: int, wake: set<nat>)
    requires CanStep(s, Produce(no, wake))
    ensures var s' := Apply(s, Produce(no, wake));
      s'.list == [|s.produced|] + s.list && s'.consumed == s.consumed && s'.consumers.Keys == s.consumers.Keys &&
      forall c | c in s.consumers :: s'.consumers[c] == if c in wake then Woken else s.consumers[c]
  {
  }

  /** A consumer sleeps exactly if the list is empty, also when it has been woken; else it takes one product. */
  lemma ConsumerGoes(s: Channel, c: nat)
    requires CanStep(s, ConsumerTurn(c))
    ensures var s' := Apply(s, ConsumerTurn(c));
      if s.list == [] then s' == s.(consumers := s.consumers[c := Asleep])
      else
        s'.consumers == s.consumers[c := Ready] && s'.consumed == s.consumed + [s.list[0]] &&
        [s.list[0]] + s'.list == s.list
  {
  }

  /** A consumer has its turn exactly while it is awake; a signal reaches any sleepers, and some if there are any. */
  lemma WhoCanMove(s: Channel, c: nat, no: int, wake: set<nat>)
    ensures CanStep(s, ConsumerTurn(c)) <==> c in s.consumers && !s.consumers[c].Asleep?
    ensures CanStep(s, Spurious(c)) <==> c in s.consumers && s.consumers[c].Asleep?
    ensures CanStep(s, Produce(no, wake)) <==>
            (forall d | d in wake :: d in s.consumers && s.consumers[d].Asleep?) &&
            ((exists d :: d in s.consumers && s.consumers[d].Asleep?) ==> wake != {})
  {
    if d :| d in s.consumers && s.consumers[d].Asleep? {
      assert d in Where(s.consumers, IsAsleep);
    }
  }

  /** A spurious wakeup wakes one consumer; a consumer joins awake. */
  lemma OneConsumerMoves(s: Channel, c: nat)
    ensures CanStep(s, Spurious(c)) ==> Apply(s, Spurious(c)) == s.(consumers := s.consumers[c := Woken])
    ensures CanStep(s, Join(c)) ==> Apply(s, Join(c)) == s.(consumers := s.consumers[c := Ready])
  {
  }

  class ListNode {
    const no: int
    var next: ListNode?
    ghost const index: nat

    constructor (no: int, ghost index: nat)
      ensures this.no == no && this.next == null && this.index == index
    {
      this.no := no;
      this.next := null;
      this.index := index;
    }
  }

  class LinkedChannel {
    var head: ListNode?
    var consumers: map<nat, ConsumerPc>
    ghost var nodes: seq<ListNode>
    ghost var produced: seq<int>
    ghost var consumed: seq<nat>

    ghost predicate Valid()
      reads this, nodes
    {
      (head == null <==> nodes == []) && (head != null ==> head == nodes[0]) &&
      (forall i {:trigger nodes[i].next} | 0 <= i < |nodes| - 1 :: nodes[i].next == nodes[i + 1]) &&
      (nodes != [] ==> nodes[|nodes| - 1].next == null) &&
      (forall i | 0 <= i < |nodes| :: nodes[i].index < |produced| && produced[nodes[i].index] == nodes[i].no) &&
      forall i, j | 0 <= i < j < |nodes| :: nodes[i] != nodes[j]
    }

    static ghost function Indexes(chain: seq<ListNode>): (ks: seq<nat>)
      ensures |ks| == |chain|
    {
      seq(|chain|, i requires 0 <= i < |chain| => chain[i].index)
    }

    ghost function Abs(): Channel
      reads this
    {
      Channel(Indexes(nodes), produced, consumed, consumers)
    }

    constructor ()
      ensures Valid() && Abs() == START
    {
      head, consumers, nodes, produced, consumed := null, map[], [], [], [];
    }

    method ProducerSection(no: int, wake: set<nat>)
      requires Valid() && SignalOk(wake, Where(consumers, IsAsleep))
      modifies this
      ensures Valid() && Abs() == Apply(old(Abs()), Produce(no, wake))
    {
      var tmp := new ListNode(no, |produced|);
      tmp.next := head;
      head := tmp;
      nodes := [tmp] + nodes;
      assert Indexes(nodes) == [|produced|] + old(Abs()).list;
      produced := produced + [no];
      consumers := Wake(consumers, wake);
    }

    /** One pass from the lock (or the end of a wait) to the unlock or the next wait. */
    method ConsumerSection(c: nat) returns (no: int)
      requires Valid() && c in consumers && !consumers[c].Asleep?
      modifies this
      ensures Valid() && Abs() == Apply(old(Abs()), ConsumerTurn(c))
      ensures old(Abs()).list != [] ==> no == produced[old(Abs()).list[0]]
    {
      no := 0;
      if head == null {
        consumers := consumers[c := Asleep];
        return;
      }
      var tmp := head;
      head := tmp.next;
      no := tmp.no;
      consumed := consumed + [tmp.index];
      nodes := nodes[1..];
      assert Indexes(nodes) == old(Abs()).list[1..];
      consumers := consumers[c := Ready];
    }
  }
}
