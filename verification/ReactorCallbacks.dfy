/**
 What each callback, the timeout loop and the wait do to connections, the kernel and the
 sockets, field by field: when a connection expires, which slot a new one gets, how a
 connection changes between reading and writing, and that no socket is left open.
 */
module ReactorCallbacks {
  import opened Basics
  import opened ReactorProtocol
  import opened ReactorProofs
  import opened ReactorEcho

  // ----- the timeout loop

  /** A connection survives the timeout loop, untouched, exactly if it has been used in the last 60 seconds. */
  lemma TimeoutKeepsIff(s: Reactor, now: int, j: nat)
    requires Inv(s) && CanStep(s, Timeouts(now)) && j < EVENT_NODE_MAX && s.nodes[j].active
    ensures var s' := Apply(s, Timeouts(now));
      |s'.nodes| == |s.nodes| && (s'.nodes[j].active <==> now - s.nodes[j].lastAccess <= 60) &&
      (s'.nodes[j].active ==> s'.nodes[j] == s.nodes[j])
  {
    SweepNode(s, now, EVENT_NODE_MAX, j);
  }

  /** The step runs a callback of slot `j`, or gives the slot a new connection. */
  ghost predicate Uses(s: Reactor, step: Step, s': Reactor, j: nat) {
    step.Dispatch? && s.pending != [] && j < |s.nodes| && j < |s'.nodes| &&
    (s.pending[0].slot == j || (!s.nodes[j].active && s'.nodes[j].active))
  }

  lemma AcceptUses(s: Reactor, now: int, cfd: int, addr: nat, j: nat)
    requires Inv(s) && cfd !in s.open && addr !in s.addrs && j < EVENT_NODE_MAX
    ensures var s' := Accept(s, EVENT_NODE_MAX, now, cfd, addr);
      |s'.nodes| == |s.nodes| &&
      s'.nodes[j].lastAccess == if !s.nodes[j].active && s'.nodes[j].active then now else s.nodes[j].lastAccess
  {
    var i := FindUnuseNode(Touch(s, EVENT_NODE_MAX, now).nodes, EVENT_NODE_MAX);
    if i < EVENT_NODE_MAX {
      AcceptShape(s, now, cfd, addr, i);
    }
  }

  lemma ReadUses(s: Reactor, i: nat, now: int, script: seq<ReadResult>, j: nat)
    requires Inv(s) && i < EVENT_NODE_MAX && s.nodes[i].active && PossibleReads(script) && j < EVENT_NODE_MAX
    ensures var s' := ReadLoop(s, i, now, script);
      |s'.nodes| == |s.nodes| && s'.nodes[j].lastAccess == if i == j then now else s.nodes[j].lastAccess
    ensures j != i ==> ReadLoop(s, i, now, script).nodes[j].active == s.nodes[j].active
  {
    BlockInUse(s, i);
    if script[|script| - 1].EndOfFile? {
      EndShape(s, i, now, script);
      CloseNodes(s.(nodes := s.nodes[i := Reading(s.nodes[i], Burst(script)).(lastAccess := now)]), i);
    } else {
      BurstShape(s, i, now, script);
    }
  }

  lemma WriteUses(s: Reactor, i: nat, now: int, cnt: nat, j: nat)
    requires Inv(s) && i < EVENT_NODE_MAX && s.nodes[i].active && s.nodes[i].callback == DoWrite && j < EVENT_NODE_MAX
    requires cnt <= s.nodes[i].bufLen && s.nodes[i].wIndex + cnt <= |s.nodes[i].buf|
    ensures var s' := Write(s, i, now, cnt);
      |s'.nodes| == |s.nodes| && s'.nodes[j].lastAccess == if i == j then now else s.nodes[j].lastAccess
    ensures j != i ==> Write(s, i, now, cnt).nodes[j].active == s.nodes[j].active
  {
    assert ClientOk(s.nodes[i], i, s.addrs);
    WriteShape(s, i, now, cnt);
  }

  lemma DispatchUses(s: Reactor, input: Input, j: nat)
    requires Inv(s) && CanStep(s, Dispatch(input)) && j < EVENT_NODE_MAX
    ensures var s' := Apply(s, Dispatch(input));
      |s'.nodes| == |s.nodes| &&
      s'.nodes[j].lastAccess == if Uses(s, Dispatch(input), s', j) then input.now else s.nodes[j].lastAccess
  {
    FirstEvent(s);
    var slot := s.pending[0].slot;
    var s0 := s.(pending := s.pending[1..]);
    match s.nodes[slot].callback
    case DoAccept => AcceptUses(s0, input.now, input.cfd, input.addr, j);
    case DoReadLoop => ReadUses(s0, slot, input.now, input.script, j);
    case DoWrite => WriteUses(s0, slot, input.now, input.cnt, j);
  }

  lemma StepUses(s: Reactor, step: Step, j: nat)
    requires Inv(s) && CanStep(s, step) && j < EVENT_NODE_MAX
    ensures var s' := Apply(s, step);
      |s'.nodes| == |s.nodes| &&
      s'.nodes[j].lastAccess == if Uses(s, step, s', j) then step.input.now else s.nodes[j].lastAccess
  {
    match step
    case Timeouts(now) => SweepNode(s, now, EVENT_NODE_MAX, j);
    case EpollWait(_) =>
    case Dispatch(input) => DispatchUses(s, input, j);
  }

  /** The clock of the last such step before pool `i`. */
  ghost function LastUse(trace: seq<Reactor>, steps: seq<Step>, i: nat, j: nat): int
    requires |trace| == |steps| + 1 && i < |trace| && j < |trace[0].nodes|
  {
    if i == 0 then trace[0].nodes[j].lastAccess
    else if Uses(trace[i - 1], steps[i - 1], trace[i], j) then steps[i - 1].input.now
    else LastUse(trace, steps, i - 1, j)
  }

  lemma {:induction false} LastAccessIsLastUse(trace: seq<Reactor>, steps: seq<Step>, i: nat, j: nat)
    requires IsRun(trace, steps) && i < |trace| && j < EVENT_NODE_MAX
    ensures |trace[i].nodes| == EVENT_NODE_MAX + 1 && trace[i].nodes[j].lastAccess == LastUse(trace, steps, i, j)
    decreases i
  {
    if i > 0 {
      LastAccessIsLastUse(trace, steps, i - 1, j);
      UsesAt(trace, steps, i - 1, j);
    }
  }

  lemma UsesAt(trace: seq<Reactor>, steps: seq<Step>, k: nat, j: nat)
    requires IsRun(trace, steps) && k < |steps| && j < EVENT_NODE_MAX
    ensures |trace[k + 1].nodes| == |trace[k].nodes| == EVENT_NODE_MAX + 1
    ensures trace[k + 1].nodes[j].lastAccess ==
            if Uses(trace[k], steps[k], trace[k + 1], j) then steps[k].input.now else trace[k].nodes[j].lastAccess
  {
    RunInvariant(trace, steps, k);
    StepUses(trace[k], steps[k], j);
  }

  /** So the timeout loop closes a connection exactly when none of its callbacks has run for more than 60 seconds. */
  lemma ClosedAfterSilence(trace: seq<Reactor>, steps: seq<Step>, i: nat, j: nat)
    requires IsRun(trace, steps) && i < |steps| && steps[i].Timeouts? && j < EVENT_NODE_MAX
    requires |trace[i].nodes| == EVENT_NODE_MAX + 1 && trace[i].nodes[j].active
    ensures |trace[i + 1].nodes| == EVENT_NODE_MAX + 1
    ensures trace[i + 1].nodes[j].active <==> steps[i].now - LastUse(trace, steps, i, j) <= 60
  {
    RunInvariant(trace, steps, i);
    LastAccessIsLastUse(trace, steps, i, j);
    TimeoutKeepsIff(trace[i], steps[i].now, j);
  }

  // ----- the wait

  /** A batch has one event for each ready descriptor, in their order, and nothing else changes. */
  lemma WaitListsReady(s: Reactor, ready: seq<int>)
    requires Inv(s) && CanStep(s, EpollWait(ready))
    ensures |ready| <= 20
    ensures var s' := Apply(s, EpollWait(ready));
      |s'.pending| == |ready| && (forall k | 0 <= k < |ready| :: s'.pending[k].fd == ready[k]) &&
      s' == s.(pending := s'.pending)
  {
  }

  /** Every event can be served, with any fresh descriptor and block, any reads, any write of at most 40 bytes. */
  lemma EventCanBeServed(s: Reactor, input: Input)
    requires Inv(s) && s.pending != [] && input.cfd !in s.open && input.addr !in s.addrs && PossibleReads(input.script)
    requires input.cnt <= 40 && input.cnt <= s.nodes[s.pending[0].slot].bufLen
    ensures CanStep(s, Dispatch(input))
  {
    FirstEvent(s);
    if s.pending[0].slot < EVENT_NODE_MAX {
      assert ClientOk(s.nodes[s.pending[0].slot], s.pending[0].slot, s.addrs);
    }
  }

  /** Between batches any 20 registered descriptors may turn out ready, and any time may have passed. */
  lemma AnythingMayBeReady(s: Reactor, ready: seq<int>, now: int)
    requires Inv(s) && s.pending == [] && |ready| <= 20 && forall k | 0 <= k < |ready| :: ready[k] in s.kernel
    requires forall j, k | 0 <= j < k < |ready| :: ready[j] != ready[k]
    ensures CanStep(s, EpollWait(ready)) && CanStep(s, Timeouts(now))
  {
  }

  /** The sizes that the source fixes: slots, buffers, and the longest single read. */
  lemma Sizes(s: Reactor, script: seq<ReadResult>, k: nat)
    requires Inv(s) && PossibleReads(script) && k < |script| && script[k].Bytes?
    ensures |s.nodes| == 1025 && |Burst(script)| <= 32767 && |script[k].data| <= 100
    ensures forall j | 0 <= j < |s.nodes| :: |s.nodes[j].buf| == 32767
  {
  }

  // ----- the callbacks

  /** Slot `i` has the new connection `cfd` with block `addr`, and is to be read. */
  predicate IsNew(n: Node, now: int, cfd: int, addr: nat) {
    n.active && n.fd == cfd && n.addr == Some(addr) && n.callback == DoReadLoop && n.event == InEdge && n.bufLen == 0 &&
    n.received == [] && n.sent == [] && n.lastAccess == now
  }

  /** What accepting did, when `i` is the first free slot, or the number of slots. */
  ghost predicate Opens(s: Reactor, s': Reactor, i: nat, now: int, cfd: int, addr: nat)
    requires i <= EVENT_NODE_MAX < |s.nodes| == |s'.nodes|
  {
    (forall j | 0 <= j < EVENT_NODE_MAX && j != i :: s'.nodes[j] == s.nodes[j]) &&
    if i < EVENT_NODE_MAX then
      IsNew(s'.nodes[i], now, cfd, addr) && s'.kernel == s.kernel[cfd := Registration(i, InEdge)] &&
      s'.open == s.open + {cfd} && s'.addrs == s.addrs[addr := i]
    else
      s'.kernel == s.kernel && s'.open == s.open && s'.addrs == s.addrs
  }

  lemma AcceptFills(s: Reactor, now: int, cfd: int, addr: nat, i: nat)
    requires EVENT_NODE_MAX < |s.nodes| && cfd !in s.kernel
    requires i == FindUnuseNode(Touch(s, EVENT_NODE_MAX, now).nodes, EVENT_NODE_MAX)
    ensures var s' := Accept(s, EVENT_NODE_MAX, now, cfd, addr);
      |s'.nodes| == |s.nodes| && s'.pending == s.pending && Opens(s, s', i, now, cfd, addr)
  {
    if i < EVENT_NODE_MAX {
      AcceptShape(s, now, cfd, addr, i);
    }
  }

  /** An accepted connection gets the first free slot; without one it is not accepted yet, and stays in the backlog. */
  lemma AcceptOpens(s: Reactor, input: Input) returns (i: nat)
    requires Inv(s) && CanStep(s, Dispatch(input)) && s.pending[0].slot == EVENT_NODE_MAX
    ensures i <= EVENT_NODE_MAX < |s.nodes| && (forall j | 0 <= j < i :: s.nodes[j].active)
    ensures i < EVENT_NODE_MAX ==> !s.nodes[i].active
    ensures var s' := Apply(s, Dispatch(input));
      |s'.nodes| == |s.nodes| && s'.pending == s.pending[1..] && Opens(s, s', i, input.now, input.cfd, input.addr)
  {
    FirstEvent(s);
    var s0 := s.(pending := s.pending[1..]);
    var touched := Touch(s0, EVENT_NODE_MAX, input.now).nodes;
    i := FindUnuseNode(touched, EVENT_NODE_MAX);
    assert forall j | 0 <= j < EVENT_NODE_MAX :: touched[j] == s.nodes[j];
    AcceptFills(s0, input.now, input.cfd, input.addr, i);
  }

  /** The event of slot `j` is next, and the slot has callback `callback`. */
  ghost predicate Next(s: Reactor, input: Input, j: nat, callback: Callback) {
    Inv(s) && CanStep(s, Dispatch(input)) && j < EVENT_NODE_MAX && s.pending[0].slot == j &&
    s.nodes[j].callback == callback
  }

  /** A read loop that runs dry, even at once, hands its whole burst to the write callback. */
  lemma ReadTurnsToWrite(s: Reactor, input: Input, j: nat)
    requires Next(s, input, j, DoReadLoop) && input.script[|input.script| - 1].WouldBlock?
    ensures var s', burst := Apply(s, Dispatch(input)), Burst(input.script);
      |s'.nodes| == |s.nodes| && var n, n' := s.nodes[j], s'.nodes[j];
      n'.active && n'.callback == DoWrite && n'.event == Out && n'.fd == n.fd && n'.addr == n.addr &&
      n'.wIndex == 0 && n'.bufLen == |burst| <= |n'.buf| && n'.buf[..|burst|] == burst &&
      n'.received == n.received + burst && n'.sent == n.sent &&
      s'.kernel == s.kernel[n.fd := Registration(j, Out)] && s'.open == s.open && s'.addrs == s.addrs
  {
    FirstEvent(s);
    var s0 := s.(pending := s.pending[1..]);
    BlockInUse(s0, j);
    BurstShape(s0, j, input.now, input.script);
  }

  /** A read loop that meets the end of the stream gives descriptor, registration and block back. */
  lemma ReadCloses(s: Reactor, input: Input, j: nat)
    requires Next(s, input, j, DoReadLoop) && input.script[|input.script| - 1].EndOfFile?
    ensures var s', n := Apply(s, Dispatch(input)), s.nodes[j];
      |s'.nodes| == |s.nodes| && !s'.nodes[j].active && s'.nodes[j].addr == None && n.addr.Some? &&
      s'.open == s.open - {n.fd} && s'.kernel == s.kernel - {n.fd} && s'.addrs == s.addrs - {n.addr.value} &&
      s'.nodes[j].sent == n.sent
  {
    FirstEvent(s);
    var s0 := s.(pending := s.pending[1..]);
    BlockInUse(s0, j);
    EndShape(s0, j, input.now, input.script);
    CloseShape(s0, j, Reading(s0.nodes[j], Burst(input.script)).(lastAccess := input.now));
  }

  /** A write sends the next bytes, at most 40; after the last one, and only then, the connection is read again. */
  lemma WriteTurnsToRead(s: Reactor, input: Input, j: nat)
    requires Next(s, input, j, DoWrite)
    ensures s.nodes[j].wIndex + s.nodes[j].bufLen <= |s.nodes[j].buf|
    ensures input.cnt <= 40 && input.cnt <= s.nodes[j].bufLen
    ensures var s', n := Apply(s, Dispatch(input)), s.nodes[j];
      |s'.nodes| == |s.nodes| && var n' := s'.nodes[j];
      n'.active && n'.fd == n.fd && n'.addr == n.addr && n'.received == n.received && n'.buf == n.buf &&
      n'.sent == n.sent + n.buf[n.wIndex..n.wIndex + input.cnt] &&
      n'.wIndex == n.wIndex + input.cnt && n'.bufLen == n.bufLen - input.cnt &&
      (if input.cnt == n.bufLen then n'.callback == DoReadLoop && s'.kernel == s.kernel[n.fd := Registration(j, InEdge)]
       else n'.callback == DoWrite && s'.kernel == s.kernel) &&
      s'.open == s.open && s'.addrs == s.addrs
  {
    FirstEvent(s);
    assert ClientOk(s.nodes[j], j, s.addrs) && SlotOk(s.nodes[j], j, s.kernel);
    var s0 := s.(pending := s.pending[1..]);
    WriteShape(s0, j, input.now, input.cnt);
    assert s.kernel[s.nodes[j].fd := Registration(j, Out)] == s.kernel;
  }

  /** No callback touches another client's slot, but accept when it fills a free one. */
  lemma OthersUntouched(s: Reactor, input: Input, j: nat)
    requires Inv(s) && CanStep(s, Dispatch(input)) && j < EVENT_NODE_MAX && s.pending[0].slot != j && s.nodes[j].active
    ensures |Apply(s, Dispatch(input)).nodes| == |s.nodes| && Apply(s, Dispatch(input)).nodes[j] == s.nodes[j]
  {
    FirstEvent(s);
    var slot := s.pending[0].slot;
    var s0 := s.(pending := s.pending[1..]);
    match s.nodes[slot].callback
    case DoAccept => AcceptNode(s0, input.now, input.cfd, input.addr, j);
    case DoReadLoop => ReadNode(s0, slot, input.now, input.script, j);
    case DoWrite => WriteNode(s0, slot, input.now, input.cnt, j);
  }

  // ----- bursts

  /** A burst is what the single calls deliver, one behind the other; calls that deliver nothing leave no gap. */
  lemma {:induction false} BurstConcat(a: seq<ReadResult>, b: seq<ReadResult>)
    ensures Burst(a + b) == Burst(a) + Burst(b)
    decreases |b|
  {
    if b == [] {
      assert a + b == a;
    } else {
      var k := |b| - 1;
      BurstConcat(a, b[..k]);
      DeliveredPrefix(a + b, |a| + k);
      DeliveredPrefix(b, k);
      assert (a + b)[..|a| + k] == a + b[..k];
      assert (a + b)[|a| + k] == b[k];
      var last := if b[k].Bytes? then b[k].data else [];
      Regroup(Burst(a), Burst(b[..k]), last);
    }
  }

  lemma {:induction false} DeliveredPrefix(script: seq<ReadResult>, n: nat)
    requires n <= |script|
    ensures Delivered(script, n) == Burst(script[..n])
    decreases n
  {
    if n > 0 {
      DeliveredPrefix(script, n - 1);
      DeliveredPrefix(script[..n], n - 1);
      assert script[..n][..n - 1] == script[..n - 1];
    }
  }

  lemma SingleCall(call: ReadResult)
    ensures Burst([call]) == if call.Bytes? then call.data else []
  {
    assert Delivered([call], 1) == Delivered([call], 0) + if call.Bytes? then call.data else [];
  }

  // ----- sockets

  /** The open sockets that are not registered, which stay what they were. */
  function Others(s: Reactor): set<int> {
    s.open - s.kernel.Keys
  }

  lemma CloseSockets(s: Reactor, j: nat)
    requires Inv(s) && j < EVENT_NODE_MAX && s.nodes[j].active
    requires forall k | 0 <= k < |s.pending| :: s.pending[k].slot != j
    ensures Inv(CloseConnection(s, j)) && CloseConnection(s, j).pending == s.pending
    ensures Others(CloseConnection(s, j)) == Others(s)
  {
    assert s.nodes[j := s.nodes[j]] == s.nodes;
    CloseKeeps(s, j, s.nodes[j]);
    BlockInUse(s, j);
    var s' := CloseConnection(s, j);
    assert s'.kernel.Keys == s.kernel.Keys - {s.nodes[j].fd};
  }

  lemma {:induction false} SweepSockets(s: Reactor, now: int, n: nat)
    requires Inv(s) && s.pending == [] && n <= EVENT_NODE_MAX
    ensures Others(Sweep(s, now, n)) == Others(s)
  {
    if n > 0 {
      SweepSockets(s, now, n - 1);
      SweepKeeps(s, now, n - 1);
      SweepTurnSockets(s, now, n);
    }
  }

  lemma SweepTurnSockets(s: Reactor, now: int, n: nat)
    requires 0 < n <= EVENT_NODE_MAX <= |s.nodes| && Inv(Sweep(s, now, n - 1)) && Sweep(s, now, n - 1).pending == []
    ensures Others(Sweep(s, now, n)) == Others(Sweep(s, now, n - 1))
  {
    var before := Sweep(s, now, n - 1);
    if before.nodes[n - 1].active {
      CloseSockets(before, n - 1);
    }
  }

  lemma DispatchSockets(s: Reactor, input: Input)
    requires Inv(s) && CanStep(s, Dispatch(input))
    ensures Others(Apply(s, Dispatch(input))) == Others(s)
  {
    FirstEvent(s);
    var j := s.pending[0].slot;
    if j == EVENT_NODE_MAX {
      var _ := AcceptOpens(s, input);
    } else if s.nodes[j].callback == DoWrite {
      WriteTurnsToRead(s, input, j);
    } else if input.script[|input.script| - 1].EndOfFile? {
      ReadCloses(s, input, j);
      assert (s.kernel - {s.nodes[j].fd}).Keys == s.kernel.Keys - {s.nodes[j].fd};
    } else {
      ReadTurnsToWrite(s, input, j);
    }
  }

  lemma StepSockets(s: Reactor, step: Step)
    requires Inv(s) && CanStep(s, step)
    ensures Others(Apply(s, step)) == Others(s)
  {
    match step
    case Timeouts(now) => SweepSockets(s, now, EVENT_NODE_MAX);
    case EpollWait(_) =>
    case Dispatch(input) => DispatchSockets(s, input);
  }

  lemma RegisteredAreOpen(trace: seq<Reactor>, steps: seq<Step>, i: nat)
    requires IsRun(trace, steps) && i < |trace|
    ensures trace[i].kernel.Keys <= trace[i].open
    ensures forall fd | fd in trace[i].kernel ::
              var slot := trace[i].kernel[fd].slot;
              slot < |trace[i].nodes| && trace[i].nodes[slot].active && trace[i].nodes[slot].fd == fd
  {
    RunInvariant(trace, steps, i);
    forall fd | fd in trace[i].kernel.Keys ensures fd in trace[i].open {
      assert fd in trace[i].kernel;
    }
  }

  lemma SocketsAt(trace: seq<Reactor>, steps: seq<Step>, k: nat)
    requires IsRun(trace, steps) && k < |steps|
    ensures Others(trace[k + 1]) == Others(trace[k])
  {
    RunInvariant(trace, steps, k);
    StepSockets(trace[k], steps[k]);
  }

  lemma {:induction false} OthersStay(trace: seq<Reactor>, steps: seq<Step>, i: nat)
    requires IsRun(trace, steps) && i < |trace|
    ensures Others(trace[i]) == Others(trace[0])
    decreases i
  {
    if i > 0 {
      OthersStay(trace, steps, i - 1);
      SocketsAt(trace, steps, i - 1);
    }
  }

  /** In every run the open sockets are those from before and the registered ones, each of which has a live slot. */
  lemma NoSocketLeaks(trace: seq<Reactor>, steps: seq<Step>, i: nat)
    requires IsRun(trace, steps) && i < |trace|
    ensures trace[i].open == Others(trace[0]) + trace[i].kernel.Keys
    ensures forall fd | fd in trace[i].kernel ::
              var slot := trace[i].kernel[fd].slot;
              slot < |trace[i].nodes| && trace[i].nodes[slot].active && trace[i].nodes[slot].fd == fd
  {
    RegisteredAreOpen(trace, steps, i);
    OthersStay(trace, steps, i);
  }
}
