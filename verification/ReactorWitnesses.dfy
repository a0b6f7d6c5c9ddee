/** Runs of the reactor in which a connection ends and not all of its bytes have been echoed: see SettledIff. */
module ReactorWitnesses {
  import opened Basics
  import opened ReactorProtocol
  import opened ReactorProofs
  import opened ReactorEcho

  ghost predicate Reachable(s: Reactor) {
    exists trace, steps :: IsRun(trace, steps) && trace[|steps|] == s
  }

  lemma ReachStep(s: Reactor, step: Step) returns (s': Reactor)
    requires Reachable(s) && CanStep(s, step)
    ensures s' == Apply(s, step) && Reachable(s')
  {
    s' := Apply(s, step);
    var trace, steps :| IsRun(trace, steps) && trace[|steps|] == s;
    assert IsRun(trace + [s'], steps + [step]);
  }

  lemma ReachableInv(s: Reactor)
    requires Reachable(s)
    ensures Inv(s)
  {
    var trace, steps :| IsRun(trace, steps) && trace[|steps|] == s;
    RunInvariant(trace, steps, |steps|);
  }

  // ----- a connection that is about to be read

  function UnusedNode(): Node {
    Node(0, seq(MAX_SEGMENT_LENGTH, _ => 0), 0, 0, In, DoAccept, None, false, 0, [], [], [], 0)
  }

  function Listener(): Node {
    UnusedNode().(fd := 3, active := true)
  }

  function Nodes(): (nodes: seq<Node>)
    ensures |nodes| == EVENT_NODE_MAX + 1 && nodes[EVENT_NODE_MAX] == Listener()
    ensures forall i | 0 <= i < EVENT_NODE_MAX :: nodes[i] == UnusedNode()
  {
    seq(EVENT_NODE_MAX, _ => UnusedNode()) + [Listener()]
  }

  /** The listener has descriptor 3. */
  function Listening(pending: seq<Event>): Reactor {
    Reactor(Nodes(), map[3 := Registration(EVENT_NODE_MAX, In)], {3}, map[], pending, 0)
  }

  lemma ListeningInit()
    ensures Init(Listening([]))
  {
    var nodes := Nodes();
    forall i | 0 <= i < |nodes|
      ensures |nodes[i].buf| == MAX_SEGMENT_LENGTH && nodes[i].addr == None && nodes[i].received == nodes[i].sent
    {
      assert nodes[i] == UnusedNode() || nodes[i] == Listener();
    }
  }

  lemma ListenerReady()
    ensures Reachable(Listening([Event(EVENT_NODE_MAX, 3, 0)]))
  {
    ListeningInit();
    assert IsRun([Listening([])], []);
    var s := ReachStep(Listening([]), EpollWait([3]));
    assert s.pending == [Event(EVENT_NODE_MAX, 3, 0)];
  }

  lemma SlotZeroIsFree()
    ensures FindUnuseNode(Touch(Listening([]), EVENT_NODE_MAX, 0).nodes, EVENT_NODE_MAX) == 0
  {
    assert !Touch(Listening([]), EVENT_NODE_MAX, 0).nodes[0].active;
  }

  /** Slot 0 has the connection with descriptor 4, accepted at time 0 and not used since. */
  predicate Connected(s: Reactor) {
    |s.nodes| == EVENT_NODE_MAX + 1 && 4 in s.kernel && s.kernel[4].slot == 0 &&
    s.nodes[0].active && s.nodes[0].callback == DoReadLoop && s.nodes[0].received == [] && s.nodes[0].sent == []
  }

  lemma AcceptConnects()
    ensures Connected(Accept(Listening([]), EVENT_NODE_MAX, 0, 4, 1))
    ensures Accept(Listening([]), EVENT_NODE_MAX, 0, 4, 1).pending == []
  {
    SlotZeroIsFree();
    AcceptShape(Listening([]), 0, 4, 1, 0);
  }

  lemma DispatchAccepts()
    ensures var s0, step := Listening([Event(EVENT_NODE_MAX, 3, 0)]), Dispatch(Input(0, 4, 1, [], 0));
      CanStep(s0, step) && Apply(s0, step) == Accept(Listening([]), EVENT_NODE_MAX, 0, 4, 1)
  {
    var s0 := Listening([Event(EVENT_NODE_MAX, 3, 0)]);
    assert s0.nodes[EVENT_NODE_MAX].callback == DoAccept;
    assert s0.pending[1..] == [];
  }

  lemma ClientAccepted() returns (s: Reactor)
    ensures Reachable(s) && Connected(s) && s.pending == []
  {
    ListenerReady();
    DispatchAccepts();
    AcceptConnects();
    s := ReachStep(Listening([Event(EVENT_NODE_MAX, 3, 0)]), Dispatch(Input(0, 4, 1, [], 0)));
  }

  lemma ClientReady() returns (s: Reactor)
    ensures Reachable(s) && Connected(s) && |s.pending| == 1 && s.pending[0].slot == 0
  {
    var s0 := ClientAccepted();
    s := ReachStep(s0, EpollWait([4]));
  }

  // ----- the two ways to lose what it sends

  lemma OneByte(last: ReadResult)
    requires last.WouldBlock? || last.EndOfFile?
    ensures Burst([Bytes([65]), last]) == [65] && PossibleReads([Bytes([65]), last])
  {
    var script := [Bytes([65]), last];
    assert Delivered(script, 1) == [] + [65] && Delivered(script, 2) == Delivered(script, 1) + [];
  }

  /** The client has sent a byte and closed its end before the read: the byte is not sent back. */
  lemma LastBytesAreDropped() returns (s: Reactor)
    ensures Reachable(s) && |s.nodes| == EVENT_NODE_MAX + 1 && !s.nodes[0].active
    ensures s.nodes[0].received == [65] && s.nodes[0].sent == []
  {
    var s0 := ClientReady();
    var step := Dispatch(Input(0, 0, 0, [Bytes([65]), EndOfFile], 0));
    OneByte(EndOfFile);
    ReachableInv(s0);
    s := ReachStep(s0, step);
    StepNode(s0, step, 0);
  }

  /** The byte has been read, and waits to be written. */
  lemma ByteWaits() returns (s: Reactor)
    ensures Reachable(s) && s.pending == [] && |s.nodes| == EVENT_NODE_MAX + 1
    ensures s.nodes[0].active && s.nodes[0].lastAccess == 0 && s.nodes[0].received == [65] && s.nodes[0].sent == []
  {
    var s0 := ClientReady();
    var script := [Bytes([65]), WouldBlock];
    OneByte(WouldBlock);
    ReachableInv(s0);
    FirstEvent(s0);
    BlockInUse(s0, 0);
    BurstShape(s0.(pending := []), 0, 0, script);
    assert s0.pending[1..] == [];
    s := ReachStep(s0, Dispatch(Input(0, 0, 0, script, 0)));
  }

  /** The client does not read, so nothing can be written, and the connection expires with the byte in its buffer. */
  lemma UnreadBytesExpire() returns (s: Reactor)
    ensures Reachable(s) && |s.nodes| == EVENT_NODE_MAX + 1 && !s.nodes[0].active
    ensures s.nodes[0].received == [65] && s.nodes[0].sent == []
  {
    var s0 := ByteWaits();
    s := ReachStep(s0, Timeouts(NODE_LIVE_SECONDS + 1));
    SweepNode(s0, NODE_LIVE_SECONDS + 1, EVENT_NODE_MAX, 0);
  }
}
