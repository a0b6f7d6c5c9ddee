/**
 The epoll reactor: a table of event nodes, the kernel's table of registered descriptors,
 and the callbacks that the event loop dispatches. The environment chooses which
 registered descriptors are ready, what `accept` and `malloc` return (never something in
 use), how each `read` is cut, and how much each `write` takes.
 */
module ReactorProtocol {
  import opened Basics

  const EVENT_NODE_MAX: nat := 1024
  const EVENTS_MAX: nat := 20
  const MAX_WRITE_BYTE: nat := 40
  const READ_SIZE: nat := 100
  const NODE_LIVE_SECONDS: int := 60
  const MAX_SEGMENT_LENGTH: nat := 32767

  datatype Option<T> = None | Some(value: T)

  datatype Callback = DoAccept | DoReadLoop | DoWrite

  /** EPOLLIN, EPOLLIN | EPOLLET and EPOLLOUT. */
  datatype Mask = In | InEdge | Out

  /**
   `received`, `got` and `sent` are the history of the connection: all bytes read, the bytes
   of all read loops that went on to write, and all bytes written. `generation` counts the
   connections that the slot has had.
   */
  datatype Node = Node(
    fd: int, buf: seq<byte>, bufLen: nat, wIndex: nat, event: Mask, callback: Callback, addr: Option<nat>,
    active: bool, lastAccess: int, received: seq<byte>, got: seq<byte>, sent: seq<byte>, generation: nat)

  /** What the kernel keeps for a registered descriptor: the node behind `data.ptr`, and the mask. */
  datatype Registration = Registration(slot: nat, mask: Mask)

  /** An event of a batch, with the connection that the slot had when the batch was made. */
  datatype Event = Event(slot: nat, fd: int, generation: nat)

  /**
   `addrs` are the address blocks that are allocated, with the slot they were made for;
   `errors` counts failing epoll_ctl calls, frees of dead blocks and uses of a null block.
   */
  datatype Reactor = Reactor(
    nodes: seq<Node>, kernel: map<int, Registration>, open: set<int>, addrs: map<nat, nat>,
    pending: seq<Event>, errors: nat)

  // ----- nodes

  function FindUnuseNode(nodes: seq<Node>, n: nat): (i: nat)
    requires n <= |nodes|
    ensures i <= n
    ensures i < n ==> !nodes[i].active
    ensures forall j | 0 <= j < i :: nodes[j].active
    decreases n
  {
    if n == 0 then 0
    else
      var i := FindUnuseNode(nodes, n - 1);
      if i < n - 1 || !nodes[n - 1].active then i else n
  }

  function SetEventNode(node: Node, fd: int, event: Mask, callback: Callback, addr: Option<nat>, now: int): Node {
    node.(fd := fd, event := event, callback := callback, addr := addr, lastAccess := now)
  }

  // ----- registration

  /** EventAdd; a new connection starts a new history. */
  function EventAdd(s: Reactor, i: nat): Reactor
    requires i < |s.nodes|
  {
    var node := s.nodes[i].(active := true, bufLen := 0, wIndex := 0, received := [], got := [], sent := [],
                            generation := s.nodes[i].generation + 1);
    var s' := s.(nodes := s.nodes[i := node]);
    if node.fd in s.kernel then s'.(errors := s.errors + 1)
    else s'.(kernel := s.kernel[node.fd := Registration(i, node.event)])
  }

  function EventDel(s: Reactor, i: nat): Reactor
    requires i < |s.nodes|
  {
    var node := s.nodes[i].(active := false, bufLen := 0, wIndex := 0);
    var s' := s.(nodes := s.nodes[i := node]);
    if node.fd !in s.kernel then s'.(errors := s.errors + 1)
    else s'.(kernel := s.kernel - {node.fd})
  }

  function EventMod(s: Reactor, i: nat): Reactor
    requires i < |s.nodes|
  {
    var node := s.nodes[i].(active := true);
    var s' := s.(nodes := s.nodes[i := node]);
    if node.fd !in s.kernel then s'.(errors := s.errors + 1)
    else s'.(kernel := s.kernel[node.fd := Registration(i, node.event)])
  }

  /** The node gives its address block back, if it has one. */
  function FreeAddr(s: Reactor, i: nat): Reactor
    requires i < |s.nodes|
  {
    match s.nodes[i].addr
    case None => s
    case Some(a) =>
      var s' := s.(nodes := s.nodes[i := s.nodes[i].(addr := None)]);
      if a in s.addrs then s'.(addrs := s.addrs - {a}) else s'.(errors := s.errors + 1)
  }

  function CloseFd(s: Reactor, fd: int): Reactor {
    s.(open := s.open - {fd})
  }

  /** What both the read callback and the timeout do with a connection. */
  function CloseConnection(s: Reactor, i: nat): Reactor
    requires i < |s.nodes|
  {
    CloseFd(EventDel(FreeAddr(s, i), i), s.nodes[i].fd)
  }

  function Touch(s: Reactor, i: nat, now: int): Reactor
    requires i < |s.nodes|
  {
    s.(nodes := s.nodes[i := s.nodes[i].(lastAccess := now)])
  }

  /** PrintAddr reads the address block of the node. */
  function UseAddr(s: Reactor, i: nat): Reactor
    requires i < |s.nodes|
  {
    match s.nodes[i].addr
    case None => s.(errors := s.errors + 1)
    case Some(a) => if a in s.addrs then s else s.(errors := s.errors + 1)
  }

  // ----- callbacks

  function Accept(s: Reactor, listener: nat, now: int, cfd: int, addr: nat): Reactor
    requires listener < |s.nodes| && EVENT_NODE_MAX < |s.nodes|
  {
    var s0 := Touch(s, listener, now);
    var i := FindUnuseNode(s0.nodes, EVENT_NODE_MAX);
    if i >= EVENT_NODE_MAX then s0
    else
      var node := SetEventNode(s0.nodes[i], cfd, InEdge, DoReadLoop, Some(addr), now);
      EventAdd(s0.(nodes := s0.nodes[i := node], open := s0.open + {cfd}, addrs := s0.addrs[addr := i]), i)
  }

  datatype ReadResult = Bytes(data: seq<byte>) | WouldBlock | Interrupted | EndOfFile

  /** Calls of read up to the one that ends the loop. A burst fits the buffer, as the source demands. */
  ghost predicate PossibleReads(script: seq<ReadResult>) {
    script != [] && (script[|script| - 1].WouldBlock? || script[|script| - 1].EndOfFile?) &&
    (forall k | 0 <= k < |script| - 1 ::
      script[k].Interrupted? || (script[k].Bytes? && 0 < |script[k].data| <= READ_SIZE)) &&
    |Burst(script)| <= MAX_SEGMENT_LENGTH
  }

  /** The bytes that the first `n` calls deliver, in order. */
  function Delivered(script: seq<ReadResult>, n: nat): seq<byte>
    requires n <= |script|
  {
    if n == 0 then []
    else Delivered(script, n - 1) + (if script[n - 1].Bytes? then script[n - 1].data else [])
  }

  function Burst(script: seq<ReadResult>): seq<byte> {
    Delivered(script, |script|)
  }

  function Overwrite(buf: seq<byte>, data: seq<byte>): seq<byte>
    requires |data| <= |buf|
  {
    data + buf[|data|..]
  }

  /** The node when its read loop has delivered `data`. */
  function Reading(node: Node, data: seq<byte>): Node
    requires |data| <= |node.buf|
  {
    node.(buf := Overwrite(node.buf, data), received := node.received + data)
  }

  function ReadLoop(s: Reactor, i: nat, now: int, script: seq<ReadResult>): Reactor
    requires i < |s.nodes| && script != [] && |Burst(script)| <= |s.nodes[i].buf|
  {
    var s0 := Touch(s, i, now);
    var data := Burst(script);
    var node := Reading(s0.nodes[i], data);
    var s1 := s0.(nodes := s0.nodes[i := node]);
    if script[|script| - 1].EndOfFile? then
      CloseConnection(s1, i)
    else
      var s2 := UseAddr(s1, i);
      var filled := node.(bufLen := |data|, wIndex := 0, got := node.got + data);
      var ready := SetEventNode(filled, node.fd, Out, DoWrite, node.addr, now);
      EventMod(s2.(nodes := s2.nodes[i := ready]), i)
  }

  function Write(s: Reactor, i: nat, now: int, cnt: nat): Reactor
    requires i < |s.nodes| && cnt <= s.nodes[i].bufLen && s.nodes[i].wIndex + cnt <= |s.nodes[i].buf|
  {
    var s0 := UseAddr(Touch(s, i, now), i);
    var before := s0.nodes[i];
    var node := before.(bufLen := before.bufLen - cnt, wIndex := before.wIndex + cnt,
                     sent := before.sent + before.buf[before.wIndex..before.wIndex + cnt]);
    var s1 := s0.(nodes := s0.nodes[i := node]);
    if node.bufLen <= 0 then
      EventMod(s1.(nodes := s1.nodes[i := SetEventNode(node, node.fd, InEdge, DoReadLoop, node.addr, now)]), i)
    else s1
  }

  // ----- the loop

  predicate Expired(node: Node, now: int) {
    node.active && now - NODE_LIVE_SECONDS > node.lastAccess
  }

  /** The first `n` slots have been looked at for timeouts. */
  function Sweep(s: Reactor, now: int, n: nat): (s': Reactor)
    requires n <= |s.nodes|
    ensures |s'.nodes| == |s.nodes|
  {
    if n == 0 then s
    else
      var s' := Sweep(s, now, n - 1);
      if Expired(s'.nodes[n - 1], now) then CloseConnection(s', n - 1) else s'
  }

  /** What the callback of the next event meets: the clock, a connection to accept, its reads, its write. */
  datatype Input = Input(now: int, cfd: int, addr: nat, script: seq<ReadResult>, cnt: nat)

  datatype Step =
    | Timeouts(now: int)
    | EpollWait(ready: seq<int>)
    | Dispatch(input: Input)

  ghost predicate CanDispatch(s: Reactor, slot: nat, input: Input) {
    slot < |s.nodes| && EVENT_NODE_MAX < |s.nodes| &&
    match s.nodes[slot].callback
    case DoAccept => input.cfd !in s.open && input.addr !in s.addrs
    case DoReadLoop => PossibleReads(input.script) && |s.nodes[slot].buf| == MAX_SEGMENT_LENGTH
    case DoWrite =>
      input.cnt <= Min(s.nodes[slot].bufLen, MAX_WRITE_BYTE) && s.nodes[slot].wIndex + input.cnt <= |s.nodes[slot].buf|
  }

  ghost predicate CanStep(s: Reactor, step: Step) {
    match step
    case Timeouts(_) => s.pending == [] && EVENT_NODE_MAX <= |s.nodes|
    case EpollWait(ready) =>
      s.pending == [] && |ready| <= EVENTS_MAX && (forall k | 0 <= k < |ready| :: ready[k] in s.kernel) &&
      forall j, k | 0 <= j < k < |ready| :: ready[j] != ready[k]
    case Dispatch(input) => s.pending != [] && CanDispatch(s, s.pending[0].slot, input)
  }

  function EventOf(nodes: seq<Node>, slot: nat, fd: int): Event {
    Event(slot, fd, if slot < |nodes| then nodes[slot].generation else 0)
  }

  /** The callback of the node behind an event of the batch. */
  ghost function Call(s: Reactor, slot: nat, input: Input): Reactor
    requires CanDispatch(s, slot, input)
  {
    match s.nodes[slot].callback
    case DoAccept => Accept(s, slot, input.now, input.cfd, input.addr)
    case DoReadLoop => ReadLoop(s, slot, input.now, input.script)
    case DoWrite => Write(s, slot, input.now, input.cnt)
  }

  ghost function Apply(s: Reactor, step: Step): Reactor
    requires CanStep(s, step)
  {
    match step
    case Timeouts(now) => Sweep(s, now, EVENT_NODE_MAX)
    case EpollWait(ready) =>
      s.(pending := seq(|ready|, k requires 0 <= k < |ready| => EventOf(s.nodes, s.kernel[ready[k]].slot, ready[k])))
    case Dispatch(input) => Call(s.(pending := s.pending[1..]), s.pending[0].slot, input)
  }

  /** After the listener has been registered, before the loop: all client slots are unused. */
  ghost predicate Init(s: Reactor) {
    |s.nodes| == EVENT_NODE_MAX + 1 && s.pending == [] && s.addrs == map[] && s.errors == 0 &&
    (forall i | 0 <= i < |s.nodes| :: |s.nodes[i].buf| == MAX_SEGMENT_LENGTH && s.nodes[i].addr == None) &&
    (forall i | 0 <= i < |s.nodes| :: s.nodes[i].received == s.nodes[i].sent) &&
    (forall i | 0 <= i < EVENT_NODE_MAX :: !s.nodes[i].active) &&
    var listener := s.nodes[EVENT_NODE_MAX];
    listener.active && listener.event == In && listener.callback == DoAccept &&
    s.kernel == map[listener.fd := Registration(EVENT_NODE_MAX, In)] && listener.fd in s.open
  }

  ghost predicate IsRun(trace: seq<Reactor>, steps: seq<Step>) {
    |trace| == |steps| + 1 && Init(trace[0]) &&
    forall i {:trigger steps[i]} | 0 <= i < |steps| ::
      CanStep(trace[i], steps[i]) && trace[i + 1] == Apply(trace[i], steps[i])
  }
}
