/**
 The reactor in every reachable state: events reach the connection they were registered
 for, no descriptor or address block is used after it was closed or freed, and what a live
 connection has been sent back is a prefix of what was read on it.
 */
module ReactorProofs {
  import opened Basics
  import opened ReactorProtocol

  // ----- the invariant

  /** Callback, node mask and buffer of a connection agree; what is not yet sent is what the buffer still holds. */
  ghost predicate ConnectionOk(node: Node) {
    node.wIndex + node.bufLen <= |node.buf| &&
    node.sent + node.buf[node.wIndex..node.wIndex + node.bufLen] == node.got && node.received == node.got &&
    if node.callback.DoReadLoop? then node.event == InEdge && node.bufLen == 0
    else node.callback == DoWrite && node.event == Out
  }

  /** An active slot is registered under its descriptor, with its own mask. */
  ghost predicate SlotOk(node: Node, i: nat, kernel: map<int, Registration>) {
    node.active ==> node.fd in kernel && kernel[node.fd] == Registration(i, node.event)
  }

  ghost predicate ClientOk(node: Node, i: nat, addrs: map<nat, nat>) {
    if node.active then ConnectionOk(node) && node.addr.Some? && node.addr.value in addrs && addrs[node.addr.value] == i
    else node.addr == None
  }

  ghost predicate ListenerOk(node: Node) {
    node.active && node.event == In && node.callback == DoAccept && node.addr == None
  }

  ghost predicate NodesOk(nodes: seq<Node>, kernel: map<int, Registration>, addrs: map<nat, nat>) {
    |nodes| == EVENT_NODE_MAX + 1 &&
    (forall i | 0 <= i < |nodes| :: |nodes[i].buf| == MAX_SEGMENT_LENGTH && SlotOk(nodes[i], i, kernel)) &&
    (forall i | 0 <= i < EVENT_NODE_MAX :: ClientOk(nodes[i], i, addrs)) &&
    ListenerOk(nodes[EVENT_NODE_MAX])
  }

  /** Registered descriptors are open and lead to a live slot with that descriptor. */
  ghost predicate KernelOk(nodes: seq<Node>, kernel: map<int, Registration>, open: set<int>) {
    forall fd | fd in kernel ::
      fd in open && kernel[fd].slot < |nodes| && nodes[kernel[fd].slot].active && nodes[kernel[fd].slot].fd == fd
  }

  /** Allocated address blocks belong to live connections. */
  ghost predicate AddrsOk(nodes: seq<Node>, addrs: map<nat, nat>) {
    forall a | a in addrs ::
      addrs[a] < EVENT_NODE_MAX < |nodes| && nodes[addrs[a]].active && nodes[addrs[a]].addr == Some(a)
  }

  /** The slot of the event still has the connection that it had when the batch was made. */
  predicate SameConnection(nodes: seq<Node>, e: Event) {
    e.slot < |nodes| && nodes[e.slot].active && nodes[e.slot].fd == e.fd && nodes[e.slot].generation == e.generation
  }

  /** Pending events lead to distinct slots and their own connections. */
  ghost predicate PendingOk(nodes: seq<Node>, pending: seq<Event>) {
    (forall k | 0 <= k < |pending| :: SameConnection(nodes, pending[k])) &&
    forall j, k | 0 <= j < k < |pending| :: pending[j].slot != pending[k].slot
  }

  ghost predicate Inv(s: Reactor) {
    NodesOk(s.nodes, s.kernel, s.addrs) && KernelOk(s.nodes, s.kernel, s.open) && AddrsOk(s.nodes, s.addrs) &&
    PendingOk(s.nodes, s.pending) && s.errors == 0
  }

  // ----- one slot changes

  /** The slot stays live with its descriptor and block. */
  lemma ChangeKeeps(s: Reactor, i: nat, node: Node)
    requires Inv(s) && i < EVENT_NODE_MAX && s.nodes[i].active
    requires node.active && node.fd == s.nodes[i].fd && node.addr == s.nodes[i].addr
    requires node.generation == s.nodes[i].generation
    requires |node.buf| == MAX_SEGMENT_LENGTH && ConnectionOk(node)
    ensures Inv(s.(nodes := s.nodes[i := node], kernel := s.kernel[node.fd := Registration(i, node.event)]))
  {
    var nodes, kernel := s.nodes[i := node], s.kernel[node.fd := Registration(i, node.event)];
    forall j | 0 <= j < |nodes| ensures SlotOk(nodes[j], j, kernel) {
      assert SlotOk(s.nodes[j], j, s.kernel) && SlotOk(s.nodes[i], i, s.kernel);
    }
    forall j | 0 <= j < EVENT_NODE_MAX ensures ClientOk(nodes[j], j, s.addrs) {
      assert ClientOk(s.nodes[j], j, s.addrs);
    }
  }

  /** Slot `i` without its connection, whose node was last `node`. */
  function Closed(s: Reactor, i: nat, node: Node): Reactor
    requires i < |s.nodes| && node.addr.Some?
  {
    s.(nodes := s.nodes[i := node.(addr := None, active := false, bufLen := 0, wIndex := 0)],
       kernel := s.kernel - {node.fd}, open := s.open - {node.fd}, addrs := s.addrs - {node.addr.value})
  }

  lemma CloseShape(s: Reactor, i: nat, node: Node)
    requires i < |s.nodes| && node.addr.Some? && node.addr.value in s.addrs && node.fd in s.kernel
    ensures CloseConnection(s.(nodes := s.nodes[i := node]), i) == Closed(s, i, node)
  {
    assert CloseConnection(s.(nodes := s.nodes[i := node]), i).nodes == Closed(s, i, node).nodes;
  }

  /** The connection of the slot ends; what its history and buffer hold is left as it is. */
  lemma CloseKeeps(s: Reactor, i: nat, node: Node)
    requires Inv(s) && i < EVENT_NODE_MAX && s.nodes[i].active
    requires forall k | 0 <= k < |s.pending| :: s.pending[k].slot != i
    requires node.active && node.fd == s.nodes[i].fd && node.addr == s.nodes[i].addr
    requires |node.buf| == MAX_SEGMENT_LENGTH
    ensures Inv(CloseConnection(s.(nodes := s.nodes[i := node]), i))
    ensures CloseConnection(s.(nodes := s.nodes[i := node]), i) == Closed(s, i, node)
  {
    BlockInUse(s, i);
    CloseShape(s, i, node);
    var s' := Closed(s, i, node);
    assert ClientOk(s.nodes[i], i, s.addrs) && SlotOk(s.nodes[i], i, s.kernel);
    forall j | 0 <= j < |s'.nodes| ensures SlotOk(s'.nodes[j], j, s'.kernel) {
      assert SlotOk(s.nodes[j], j, s.kernel);
    }
    forall j | 0 <= j < EVENT_NODE_MAX ensures ClientOk(s'.nodes[j], j, s'.addrs) {
      assert ClientOk(s.nodes[j], j, s.addrs);
    }
  }

  /** A new connection takes an unused slot. */
  lemma OpenKeeps(s: Reactor, i: nat, cfd: int, addr: nat, node: Node)
    requires Inv(s) && i < EVENT_NODE_MAX && !s.nodes[i].active && cfd !in s.open && addr !in s.addrs
    requires node.active && node.fd == cfd && node.addr == Some(addr)
    requires |node.buf| == MAX_SEGMENT_LENGTH && ConnectionOk(node)
    ensures Inv(s.(nodes := s.nodes[i := node], kernel := s.kernel[cfd := Registration(i, node.event)],
                   open := s.open + {cfd}, addrs := s.addrs[addr := i]))
  {
    var nodes, kernel, addrs := s.nodes[i := node], s.kernel[cfd := Registration(i, node.event)], s.addrs[addr := i];
    forall j | 0 <= j < |nodes| ensures SlotOk(nodes[j], j, kernel) {
      assert SlotOk(s.nodes[j], j, s.kernel);
    }
    forall j | 0 <= j < EVENT_NODE_MAX ensures ClientOk(nodes[j], j, addrs) {
      assert ClientOk(s.nodes[j], j, s.addrs);
    }
  }

  /** Only the time of the last access changes. */
  lemma TouchKeeps(s: Reactor, i: nat, now: int)
    requires Inv(s) && i < |s.nodes|
    ensures Inv(Touch(s, i, now))
  {
    var s' := Touch(s, i, now);
    forall j | 0 <= j < |s'.nodes| ensures SlotOk(s'.nodes[j], j, s'.kernel) {
      assert SlotOk(s.nodes[j], j, s.kernel);
    }
    forall j | 0 <= j < EVENT_NODE_MAX ensures ClientOk(s'.nodes[j], j, s'.addrs) {
      assert ClientOk(s.nodes[j], j, s.addrs);
    }
  }

  // ----- the callbacks

  /** The node of a new connection in a slot that was `node`. */
  function NewNode(node: Node, now: int, cfd: int, addr: nat): Node {
    SetEventNode(node, cfd, InEdge, DoReadLoop, Some(addr), now).(
      active := true, bufLen := 0, wIndex := 0, received := [], got := [], sent := [],
      generation := node.generation + 1)
  }

  lemma AcceptShape(s: Reactor, now: int, cfd: int, addr: nat, i: nat)
    requires EVENT_NODE_MAX < |s.nodes| && cfd !in s.kernel
    requires i == FindUnuseNode(Touch(s, EVENT_NODE_MAX, now).nodes, EVENT_NODE_MAX) < EVENT_NODE_MAX
    ensures var s0 := Touch(s, EVENT_NODE_MAX, now);
      Accept(s, EVENT_NODE_MAX, now, cfd, addr) ==
      s0.(nodes := s0.nodes[i := NewNode(s0.nodes[i], now, cfd, addr)],
          kernel := s0.kernel[cfd := Registration(i, InEdge)], open := s0.open + {cfd}, addrs := s0.addrs[addr := i])
  {
    var s0 := Touch(s, EVENT_NODE_MAX, now);
    assert Accept(s, EVENT_NODE_MAX, now, cfd, addr).nodes == s0.nodes[i := NewNode(s0.nodes[i], now, cfd, addr)];
  }

  lemma AcceptKeeps(s: Reactor, now: int, cfd: int, addr: nat)
    requires Inv(s) && cfd !in s.open && addr !in s.addrs
    ensures Inv(Accept(s, EVENT_NODE_MAX, now, cfd, addr))
  {
    TouchKeeps(s, EVENT_NODE_MAX, now);
    var s0 := Touch(s, EVENT_NODE_MAX, now);
    var i := FindUnuseNode(s0.nodes, EVENT_NODE_MAX);
    if i < EVENT_NODE_MAX {
      AcceptShape(s, now, cfd, addr, i);
      OpenKeeps(s0, i, cfd, addr, NewNode(s0.nodes[i], now, cfd, addr));
    }
  }

  /** The node after a read loop that did not end the connection. */
  function BurstNode(node: Node, now: int, data: seq<byte>): Node
    requires |data| <= |node.buf|
  {
    Reading(node, data).(bufLen := |data|, wIndex := 0, got := node.got + data,
                         event := Out, callback := DoWrite, lastAccess := now)
  }

  lemma BlockInUse(s: Reactor, i: nat)
    requires Inv(s) && i < EVENT_NODE_MAX && s.nodes[i].active
    ensures s.nodes[i].addr.Some? && s.nodes[i].addr.value in s.addrs
    ensures s.nodes[i].fd in s.kernel && s.kernel[s.nodes[i].fd] == Registration(i, s.nodes[i].event)
  {
    assert ClientOk(s.nodes[i], i, s.addrs) && SlotOk(s.nodes[i], i, s.kernel);
  }

  lemma BurstShape(s: Reactor, i: nat, now: int, script: seq<ReadResult>)
    requires i < |s.nodes| && s.nodes[i].active && script != [] && |Burst(script)| <= |s.nodes[i].buf|
    requires s.nodes[i].addr.Some? && s.nodes[i].addr.value in s.addrs && s.nodes[i].fd in s.kernel
    requires !script[|script| - 1].EndOfFile?
    ensures var node := BurstNode(s.nodes[i], now, Burst(script));
      ReadLoop(s, i, now, script) ==
      s.(nodes := s.nodes[i := node], kernel := s.kernel[node.fd := Registration(i, Out)])
  {
    var node := BurstNode(s.nodes[i], now, Burst(script));
    assert ReadLoop(s, i, now, script).nodes == s.nodes[i := node];
  }

  lemma EndShape(s: Reactor, i: nat, now: int, script: seq<ReadResult>)
    requires Inv(s) && i < EVENT_NODE_MAX && s.nodes[i].active && PossibleReads(script)
    requires script[|script| - 1].EndOfFile?
    ensures var node := Reading(s.nodes[i], Burst(script)).(lastAccess := now);
      ReadLoop(s, i, now, script) == CloseConnection(s.(nodes := s.nodes[i := node]), i)
  {
    var node := Reading(s.nodes[i], Burst(script)).(lastAccess := now);
    assert Touch(s, i, now).nodes[i := node] == s.nodes[i := node];
  }

  lemma ReadLoopKeeps(s: Reactor, i: nat, now: int, script: seq<ReadResult>)
    requires Inv(s) && i < EVENT_NODE_MAX && s.nodes[i].active && s.nodes[i].callback == DoReadLoop &&
      PossibleReads(script)
    requires forall k | 0 <= k < |s.pending| :: s.pending[k].slot != i
    ensures Inv(ReadLoop(s, i, now, script))
  {
    assert ClientOk(s.nodes[i], i, s.addrs) && SlotOk(s.nodes[i], i, s.kernel);
    var data := Burst(script);
    if script[|script| - 1].EndOfFile? {
      EndShape(s, i, now, script);
      CloseKeeps(s, i, Reading(s.nodes[i], data).(lastAccess := now));
    } else {
      BlockInUse(s, i);
      BurstShape(s, i, now, script);
      var node := BurstNode(s.nodes[i], now, data);
      assert node.buf[0..|data|] == data;
      assert node.sent == s.nodes[i].got;
      ChangeKeeps(s, i, node);
    }
  }

  /** The node after a write of `cnt` bytes. */
  function WrittenNode(node: Node, now: int, cnt: nat): Node
    requires cnt <= node.bufLen && node.wIndex + cnt <= |node.buf|
  {
    var moved := node.(bufLen := node.bufLen - cnt, wIndex := node.wIndex + cnt, lastAccess := now,
                       sent := node.sent + node.buf[node.wIndex..node.wIndex + cnt]);
    if moved.bufLen == 0 then moved.(event := InEdge, callback := DoReadLoop) else moved
  }

  lemma WriteShape(s: Reactor, i: nat, now: int, cnt: nat)
    requires Inv(s) && i < EVENT_NODE_MAX && s.nodes[i].active && cnt <= s.nodes[i].bufLen
    requires s.nodes[i].wIndex + cnt <= |s.nodes[i].buf| && s.nodes[i].event == Out && s.nodes[i].callback == DoWrite
    ensures var node := WrittenNode(s.nodes[i], now, cnt);
      Write(s, i, now, cnt) ==
      s.(nodes := s.nodes[i := node], kernel := s.kernel[node.fd := Registration(i, node.event)])
  {
    assert ClientOk(s.nodes[i], i, s.addrs) && SlotOk(s.nodes[i], i, s.kernel);
    var node := WrittenNode(s.nodes[i], now, cnt);
    assert Write(s, i, now, cnt).nodes == s.nodes[i := node];
    if node.bufLen > 0 {
      assert s.kernel[node.fd := Registration(i, node.event)] == s.kernel;
    }
  }

  lemma WriteKeeps(s: Reactor, i: nat, now: int, cnt: nat)
    requires Inv(s) && i < EVENT_NODE_MAX && s.nodes[i].active && s.nodes[i].callback == DoWrite &&
      cnt <= s.nodes[i].bufLen
    ensures s.nodes[i].wIndex + cnt <= |s.nodes[i].buf|
    ensures Inv(Write(s, i, now, cnt))
  {
    assert ClientOk(s.nodes[i], i, s.addrs);
    var before := s.nodes[i];
    var node := WrittenNode(before, now, cnt);
    WriteShape(s, i, now, cnt);
    assert before.buf[before.wIndex..before.wIndex + before.bufLen] ==
           before.buf[before.wIndex..before.wIndex + cnt] + before.buf[node.wIndex..node.wIndex + node.bufLen];
    ChangeKeeps(s, i, node);
  }

  lemma {:induction false} SweepKeeps(s: Reactor, now: int, n: nat)
    requires Inv(s) && s.pending == [] && n <= EVENT_NODE_MAX
    ensures Inv(Sweep(s, now, n)) && Sweep(s, now, n).pending == []
  {
    if n > 0 {
      SweepKeeps(s, now, n - 1);
      var s' := Sweep(s, now, n - 1);
      if Expired(s'.nodes[n - 1], now) {
        assert s'.nodes[n - 1 := s'.nodes[n - 1]] == s'.nodes;
        CloseKeeps(s', n - 1, s'.nodes[n - 1]);
      }
    }
  }

  /** The first event of the batch leads to a live slot; its callback is the one its registration stands for. */
  lemma FirstEvent(s: Reactor)
    requires Inv(s) && s.pending != []
    ensures var e := s.pending[0];
      SameConnection(s.nodes, e) &&
      (s.nodes[e.slot].callback.DoAccept? <==> e.slot == EVENT_NODE_MAX) &&
      e.fd in s.kernel && s.kernel[e.fd] == Registration(e.slot, s.nodes[e.slot].event)
    ensures Inv(s.(pending := s.pending[1..]))
    ensures forall k | 0 <= k < |s.pending[1..]| :: s.pending[1..][k].slot != s.pending[0].slot
  {
    var e := s.pending[0];
    assert SlotOk(s.nodes[e.slot], e.slot, s.kernel);
    if e.slot < EVENT_NODE_MAX {
      assert ClientOk(s.nodes[e.slot], e.slot, s.addrs);
    }
  }

  lemma DispatchKeeps(s: Reactor, input: Input)
    requires Inv(s) && CanStep(s, Dispatch(input))
    ensures Inv(Apply(s, Dispatch(input)))
  {
    FirstEvent(s);
    var slot := s.pending[0].slot;
    var s' := s.(pending := s.pending[1..]);
    match s.nodes[slot].callback
    case DoAccept => AcceptKeeps(s', input.now, input.cfd, input.addr);
    case DoReadLoop => ReadLoopKeeps(s', slot, input.now, input.script);
    case DoWrite => WriteKeeps(s', slot, input.now, input.cnt);
  }

  lemma WaitKeeps(s: Reactor, ready: seq<int>)
    requires Inv(s) && CanStep(s, EpollWait(ready))
    ensures Inv(Apply(s, EpollWait(ready)))
  {
  }

  lemma StepKeeps(s: Reactor, step: Step)
    requires Inv(s) && CanStep(s, step)
    ensures Inv(Apply(s, step))
  {
    match step
    case Timeouts(now) => SweepKeeps(s, now, EVENT_NODE_MAX);
    case EpollWait(ready) => WaitKeeps(s, ready);
    case Dispatch(input) => DispatchKeeps(s, input);
  }

  lemma {:induction false} RunInvariant(trace: seq<Reactor>, steps: seq<Step>, i: nat)
    requires IsRun(trace, steps) && i < |trace|
    ensures Inv(trace[i])
    decreases i
  {
    if i > 0 {
      RunInvariant(trace, steps, i - 1);
      StepKeeps(trace[i - 1], steps[i - 1]);
    }
  }

  // ----- dispatch safety

  /** Every event reaches the connection that was ready when the batch was made. */
  lemma DispatchReachesItsConnection(trace: seq<Reactor>, steps: seq<Step>, i: nat)
    requires IsRun(trace, steps) && i < |steps| && steps[i].Dispatch?
    ensures var s, e := trace[i], trace[i].pending[0];
      SameConnection(s.nodes, e) &&
      e.fd in s.kernel && s.kernel[e.fd] == Registration(e.slot, s.nodes[e.slot].event) &&
      (s.nodes[e.slot].callback.DoAccept? <==> e.slot == EVENT_NODE_MAX)
  {
    RunInvariant(trace, steps, i);
    FirstEvent(trace[i]);
  }

  /** No block is freed twice or used dead, and the kernel refuses no registration. */
  lemma NothingGoesWrong(trace: seq<Reactor>, steps: seq<Step>, i: nat)
    requires IsRun(trace, steps) && i < |trace|
    ensures trace[i].errors == 0
    ensures forall fd | fd in trace[i].kernel :: fd in trace[i].open
  {
    RunInvariant(trace, steps, i);
  }

  /** Live slots have distinct descriptors and blocks. */
  lemma ResourcesAreDistinct(trace: seq<Reactor>, steps: seq<Step>, i: nat, j: nat, k: nat)
    requires IsRun(trace, steps) && i < |trace| && j < k < EVENT_NODE_MAX && k < |trace[i].nodes|
    requires trace[i].nodes[j].active && trace[i].nodes[k].active
    ensures trace[i].nodes[j].fd != trace[i].nodes[k].fd && trace[i].nodes[j].addr != trace[i].nodes[k].addr
  {
    RunInvariant(trace, steps, i);
    var s := trace[i];
    assert SlotOk(s.nodes[j], j, s.kernel) && SlotOk(s.nodes[k], k, s.kernel);
    assert ClientOk(s.nodes[j], j, s.addrs) && ClientOk(s.nodes[k], k, s.addrs);
  }

  /** Callback, node mask and kernel mask of a connection always agree. */
  lemma MasksAgree(trace: seq<Reactor>, steps: seq<Step>, i: nat, j: nat)
    requires IsRun(trace, steps) && i < |trace| && j < EVENT_NODE_MAX && j < |trace[i].nodes| &&
      trace[i].nodes[j].active
    ensures var n := trace[i].nodes[j];
      n.fd in trace[i].kernel && trace[i].kernel[n.fd] == Registration(j, n.event) &&
      ((n.callback == DoReadLoop && n.event == InEdge) || (n.callback == DoWrite && n.event == Out))
  {
    RunInvariant(trace, steps, i);
    assert SlotOk(trace[i].nodes[j], j, trace[i].kernel) && ClientOk(trace[i].nodes[j], j, trace[i].addrs);
  }

  /** A block is allocated exactly while a connection has it. */
  lemma BlocksMatchConnections(trace: seq<Reactor>, steps: seq<Step>, i: nat, a: nat)
    requires IsRun(trace, steps) && i < |trace|
    ensures a in trace[i].addrs <==>
            exists j :: 0 <= j < |trace[i].nodes| && trace[i].nodes[j].active && trace[i].nodes[j].addr == Some(a)
  {
    RunInvariant(trace, steps, i);
    var s := trace[i];
    if a in s.addrs {
      assert s.nodes[s.addrs[a]].addr == Some(a);
    }
    if j :| 0 <= j < |s.nodes| && s.nodes[j].active && s.nodes[j].addr == Some(a) {
      assert j < EVENT_NODE_MAX;
      assert ClientOk(s.nodes[j], j, s.addrs);
    }
  }

  /** The listener's slot is never given away or expired. */
  lemma ListenerStays(trace: seq<Reactor>, steps: seq<Step>, i: nat)
    requires IsRun(trace, steps) && i < |trace|
    ensures |trace[i].nodes| == EVENT_NODE_MAX + 1
    ensures var l := trace[i].nodes[EVENT_NODE_MAX];
      l.active && l.callback == DoAccept && l.fd in trace[i].kernel &&
      trace[i].kernel[l.fd] == Registration(EVENT_NODE_MAX, In)
  {
    RunInvariant(trace, steps, i);
    assert SlotOk(trace[i].nodes[EVENT_NODE_MAX], EVENT_NODE_MAX, trace[i].kernel);
  }

  // ----- echo fidelity

  /** Output is a prefix of input; the rest is in the buffer; back in read mode they are equal. */
  lemma EchoFidelity(trace: seq<Reactor>, steps: seq<Step>, i: nat, j: nat)
    requires IsRun(trace, steps) && i < |trace| && j < EVENT_NODE_MAX && j < |trace[i].nodes| &&
      trace[i].nodes[j].active
    ensures var n := trace[i].nodes[j];
      n.wIndex + n.bufLen <= |n.buf| && n.sent + n.buf[n.wIndex..n.wIndex + n.bufLen] == n.got && n.sent <= n.got &&
      n.received == n.got && (n.callback == DoReadLoop ==> n.sent == n.got)
  {
    RunInvariant(trace, steps, i);
    assert ClientOk(trace[i].nodes[j], j, trace[i].addrs);
  }
}
