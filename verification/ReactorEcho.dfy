/**
 What becomes of a connection from one state to the next: which connection a slot has, and
 whether all bytes read are written back. They are lost in exactly two ways: the connection
 expires while bytes are still in its buffer, or a burst ends with the stream.
 */
module ReactorEcho {
  import opened Basics
  import opened ReactorProtocol
  import opened ReactorProofs

  // ----- what one step does to one slot

  /** The read loop of slot `j` meets the end of the stream. */
  ghost predicate EndsStream(s: Reactor, step: Step, j: nat) {
    step.Dispatch? && s.pending != [] && s.pending[0].slot == j && j < |s.nodes| && s.nodes[j].callback.DoReadLoop? &&
    step.input.script != [] && step.input.script[|step.input.script| - 1].EndOfFile?
  }

  /** ... after it has read something. */
  ghost predicate DropsBurst(s: Reactor, step: Step, j: nat) {
    EndsStream(s, step, j) && Burst(step.input.script) != []
  }

  /** The timeout loop closes slot `j`. */
  ghost predicate Expires(s: Reactor, step: Step, j: nat) {
    step.Timeouts? && j < |s.nodes| && Expired(s.nodes[j], step.now)
  }

  predicate Opened(n: Node, n': Node) {
    !n.active && n'.active && n'.generation == n.generation + 1
  }

  predicate Stays(n: Node, n': Node) {
    n'.active == n.active && n'.fd == n.fd && n'.addr == n.addr && n'.generation == n.generation &&
    (!n.active ==> n'.sent == n.sent && n'.received == n.received)
  }

  /** The connection ends; `more` is what the last read loop had read. */
  predicate Ended(n: Node, n': Node, more: seq<byte>) {
    n.active && !n'.active && n'.generation == n.generation && n'.sent == n.sent && n'.received == n.received + more
  }

  function ClosedNode(n: Node): Node {
    n.(addr := None, active := false, bufLen := 0, wIndex := 0)
  }

  lemma CloseNodes(s: Reactor, i: nat)
    requires i < |s.nodes|
    ensures CloseConnection(s, i).nodes == s.nodes[i := ClosedNode(s.nodes[i])]
  {
  }

  /** The timeout loop looks at each slot once, and at its own time only. */
  lemma {:induction false} SweepNode(s: Reactor, now: int, n: nat, j: nat)
    requires n <= |s.nodes| && j < |s.nodes|
    ensures Sweep(s, now, n).nodes[j] ==
            if j < n && Expired(s.nodes[j], now) then ClosedNode(s.nodes[j]) else s.nodes[j]
  {
    if n > 0 {
      SweepNode(s, now, n - 1, j);
      SweepTurn(s, now, n, j);
    }
  }

  lemma SweepTurn(s: Reactor, now: int, n: nat, j: nat)
    requires 0 < n <= |s.nodes| && j < |s.nodes|
    ensures var before := Sweep(s, now, n - 1).nodes;
      Sweep(s, now, n).nodes[j] ==
      if j == n - 1 && Expired(before[j], now) then ClosedNode(before[j]) else before[j]
  {
    CloseNodes(Sweep(s, now, n - 1), n - 1);
  }

  lemma AcceptNode(s: Reactor, now: int, cfd: int, addr: nat, j: nat)
    requires EVENT_NODE_MAX < |s.nodes| && j < EVENT_NODE_MAX
    ensures |Accept(s, EVENT_NODE_MAX, now, cfd, addr).nodes| == |s.nodes|
    ensures var n' := Accept(s, EVENT_NODE_MAX, now, cfd, addr).nodes[j];
      Opened(s.nodes[j], n') || n' == s.nodes[j]
  {
  }

  lemma ReadNode(s: Reactor, i: nat, now: int, script: seq<ReadResult>, j: nat)
    requires Inv(s) && i < EVENT_NODE_MAX && j < EVENT_NODE_MAX && s.nodes[i].active && PossibleReads(script)
    ensures |ReadLoop(s, i, now, script).nodes| == |s.nodes|
    ensures var n, n' := s.nodes[j], ReadLoop(s, i, now, script).nodes[j];
      if i != j then n' == n
      else if script[|script| - 1].EndOfFile? then Ended(n, n', Burst(script))
      else Stays(n, n')
  {
    BlockInUse(s, i);
    if script[|script| - 1].EndOfFile? {
      EndShape(s, i, now, script);
      CloseNodes(s.(nodes := s.nodes[i := Reading(s.nodes[i], Burst(script)).(lastAccess := now)]), i);
    } else {
      BurstShape(s, i, now, script);
    }
  }

  lemma WriteNode(s: Reactor, i: nat, now: int, cnt: nat, j: nat)
    requires Inv(s) && i < EVENT_NODE_MAX && j < EVENT_NODE_MAX && s.nodes[i].active && s.nodes[i].callback == DoWrite
    requires cnt <= s.nodes[i].bufLen && s.nodes[i].wIndex + cnt <= |s.nodes[i].buf|
    ensures |Write(s, i, now, cnt).nodes| == |s.nodes|
    ensures var n, n' := s.nodes[j], Write(s, i, now, cnt).nodes[j];
      if i != j then n' == n else Stays(n, n')
  {
    assert ClientOk(s.nodes[i], i, s.addrs);
    WriteShape(s, i, now, cnt);
  }

  /** What a step may do to slot `j`. */
  ghost predicate SlotStep(s: Reactor, step: Step, j: nat, n': Node)
    requires j < |s.nodes|
  {
    if Expires(s, step, j) then Ended(s.nodes[j], n', [])
    else if EndsStream(s, step, j) then Ended(s.nodes[j], n', Burst(step.input.script))
    else Stays(s.nodes[j], n') || Opened(s.nodes[j], n')
  }

  lemma CallNode(s: Reactor, input: Input, j: nat)
    requires Inv(s) && CanStep(s, Dispatch(input)) && j < EVENT_NODE_MAX
    ensures |Apply(s, Dispatch(input)).nodes| == |s.nodes|
    ensures SlotStep(s, Dispatch(input), j, Apply(s, Dispatch(input)).nodes[j])
  {
    FirstEvent(s);
    var slot := s.pending[0].slot;
    var s' := s.(pending := s.pending[1..]);
    match s.nodes[slot].callback
    case DoAccept => AcceptNode(s', input.now, input.cfd, input.addr, j);
    case DoReadLoop => ReadNode(s', slot, input.now, input.script, j);
    case DoWrite => WriteNode(s', slot, input.now, input.cnt, j);
  }

  lemma StepNode(s: Reactor, step: Step, j: nat)
    requires Inv(s) && CanStep(s, step) && j < EVENT_NODE_MAX
    ensures |Apply(s, step).nodes| == |s.nodes|
    ensures SlotStep(s, step, j, Apply(s, step).nodes[j])
  {
    match step
    case Timeouts(now) => SweepNode(s, now, EVENT_NODE_MAX, j);
    case EpollWait(_) =>
    case Dispatch(input) => CallNode(s, input, j);
  }

  // ----- connections

  predicate SameIfSameGeneration(n: Node, n': Node) {
    n.generation <= n'.generation &&
    (n.generation == n'.generation && n'.active ==> n.active && n.fd == n'.fd && n.addr == n'.addr)
  }

  lemma SameGeneration(n: Node, m: Node, n': Node)
    requires SameIfSameGeneration(n, m) && SameIfSameGeneration(m, n')
    ensures SameIfSameGeneration(n, n')
  {
  }

  lemma SlotCount(trace: seq<Reactor>, steps: seq<Step>, k: nat)
    requires IsRun(trace, steps) && k < |trace|
    ensures |trace[k].nodes| == EVENT_NODE_MAX + 1
  {
    RunInvariant(trace, steps, k);
  }

  /** A generation of a slot is one connection: it is not resumed once it has ended, and keeps descriptor and block. */
  lemma {:induction false} GenerationIsOneConnection(trace: seq<Reactor>, steps: seq<Step>, i: nat, k: nat, j: nat)
    requires IsRun(trace, steps) && i <= k < |trace| && j < EVENT_NODE_MAX
    ensures |trace[i].nodes| == |trace[k].nodes| == EVENT_NODE_MAX + 1
    ensures SameIfSameGeneration(trace[i].nodes[j], trace[k].nodes[j])
    decreases k
  {
    if i < k {
      GenerationIsOneConnection(trace, steps, i, k - 1, j);
      SlotAt(trace, steps, k - 1, j);
      SameGeneration(trace[i].nodes[j], trace[k - 1].nodes[j], trace[k].nodes[j]);
    } else {
      SlotCount(trace, steps, k);
    }
  }

  lemma SlotAt(trace: seq<Reactor>, steps: seq<Step>, k: nat, j: nat)
    requires IsRun(trace, steps) && k < |steps| && j < EVENT_NODE_MAX
    ensures |trace[k].nodes| == |trace[k + 1].nodes| == EVENT_NODE_MAX + 1
    ensures SameIfSameGeneration(trace[k].nodes[j], trace[k + 1].nodes[j])
  {
    RunInvariant(trace, steps, k);
    StepNode(trace[k], steps[k], j);
    SlotStepSame(trace[k], steps[k], j, trace[k + 1].nodes[j]);
  }

  lemma SlotStepSame(s: Reactor, step: Step, j: nat, n': Node)
    requires j < |s.nodes| && SlotStep(s, step, j, n')
    ensures SameIfSameGeneration(s.nodes[j], n')
  {
  }

  // ----- bytes

  /** Every byte read has been written, or is still in the buffer of the live connection. */
  predicate Settled(n: Node) {
    if n.active then
      n.wIndex + n.bufLen <= |n.buf| && n.sent + n.buf[n.wIndex..n.wIndex + n.bufLen] == n.received
    else n.sent == n.received
  }

  lemma ActiveSettled(s: Reactor, j: nat)
    requires Inv(s) && j < EVENT_NODE_MAX && s.nodes[j].active
    ensures Settled(s.nodes[j])
    ensures s.nodes[j].callback.DoReadLoop? ==> s.nodes[j].bufLen == 0
    ensures s.nodes[j].sent == s.nodes[j].received <==> s.nodes[j].bufLen == 0
  {
    assert ClientOk(s.nodes[j], j, s.addrs);
    var n := s.nodes[j];
    var rest := n.buf[n.wIndex..n.wIndex + n.bufLen];
    assert |n.sent + rest| == |n.sent| + n.bufLen;
  }

  /** The two ways to lose bytes, both seen before the step. */
  ghost predicate LosesBytes(s: Reactor, step: Step, j: nat) {
    (Expires(s, step, j) && s.nodes[j].bufLen > 0) || DropsBurst(s, step, j)
  }

  /** The first event of a batch that ends a stream belongs to a live connection. */
  lemma EndsStreamActive(s: Reactor, step: Step, j: nat)
    requires Inv(s) && EndsStream(s, step, j) && j < EVENT_NODE_MAX
    ensures s.nodes[j].active && s.nodes[j].bufLen == 0 && s.nodes[j].sent == s.nodes[j].received
  {
    FirstEvent(s);
    ActiveSettled(s, j);
  }

  /** When a connection ends, its bytes are all echoed exactly if none is in the buffer and its last burst is empty. */
  lemma ClosedEchoedIff(s: Reactor, step: Step, j: nat)
    requires Inv(s) && CanStep(s, step) && j < EVENT_NODE_MAX && s.nodes[j].active
    requires j < |Apply(s, step).nodes| && !Apply(s, step).nodes[j].active
    ensures var n' := Apply(s, step).nodes[j];
      n'.sent == n'.received <==> s.nodes[j].bufLen == 0 && !DropsBurst(s, step, j)
  {
    StepNode(s, step, j);
    ActiveSettled(s, j);
    EndedEchoedIff(s, step, j, Apply(s, step).nodes[j]);
  }

  lemma EndedEchoedIff(s: Reactor, step: Step, j: nat, n': Node)
    requires Inv(s) && j < EVENT_NODE_MAX && SlotStep(s, step, j, n') && s.nodes[j].active && !n'.active
    ensures n'.sent == n'.received <==> s.nodes[j].bufLen == 0 && !DropsBurst(s, step, j)
    ensures LosesBytes(s, step, j) <==> !(s.nodes[j].bufLen == 0 && !DropsBurst(s, step, j))
  {
    ActiveSettled(s, j);
    if EndsStream(s, step, j) {
      EndsStreamActive(s, step, j);
      assert |n'.received| == |s.nodes[j].received| + |Burst(step.input.script)|;
    }
  }

  /** Exactly these steps leave a byte behind, from whatever state in which none is. */
  lemma SettledIff(s: Reactor, step: Step, j: nat)
    requires Inv(s) && CanStep(s, step) && j < EVENT_NODE_MAX && Settled(s.nodes[j])
    ensures |Apply(s, step).nodes| == |s.nodes|
    ensures Settled(Apply(s, step).nodes[j]) <==> !LosesBytes(s, step, j)
  {
    StepNode(s, step, j);
    StepKeeps(s, step);
    SlotSettledIff(s, step, j, Apply(s, step));
  }

  lemma SlotSettledIff(s: Reactor, step: Step, j: nat, s': Reactor)
    requires Inv(s) && Inv(s') && j < EVENT_NODE_MAX && SlotStep(s, step, j, s'.nodes[j]) && Settled(s.nodes[j])
    ensures Settled(s'.nodes[j]) <==> !LosesBytes(s, step, j)
  {
    if EndsStream(s, step, j) {
      EndsStreamActive(s, step, j);
    }
    if s'.nodes[j].active {
      ActiveSettled(s', j);
    } else if s.nodes[j].active {
      EndedEchoedIff(s, step, j, s'.nodes[j]);
    }
  }

  /** In runs without such a step every byte that a slot's connections have sent is written back, or still can be. */
  lemma {:induction false} NothingIsLost(trace: seq<Reactor>, steps: seq<Step>, i: nat, j: nat)
    requires IsRun(trace, steps) && i < |trace| && j < EVENT_NODE_MAX
    requires forall k | 0 <= k < i :: !LosesBytes(trace[k], steps[k], j)
    ensures |trace[i].nodes| == EVENT_NODE_MAX + 1 && Settled(trace[i].nodes[j])
    decreases i
  {
    if i > 0 {
      NothingIsLost(trace, steps, i - 1, j);
      SettledAt(trace, steps, i - 1, j);
    }
  }

  lemma SettledAt(trace: seq<Reactor>, steps: seq<Step>, k: nat, j: nat)
    requires IsRun(trace, steps) && k < |steps| && j < EVENT_NODE_MAX
    ensures |trace[k].nodes| == |trace[k + 1].nodes| == EVENT_NODE_MAX + 1
    ensures Settled(trace[k].nodes[j]) ==> (Settled(trace[k + 1].nodes[j]) <==> !LosesBytes(trace[k], steps[k], j))
  {
    RunInvariant(trace, steps, k);
    if Settled(trace[k].nodes[j]) {
      SettledIff(trace[k], steps[k], j);
    } else {
      StepNode(trace[k], steps[k], j);
    }
  }
}
