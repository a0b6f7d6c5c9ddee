/**
 The reactor's code over its table of nodes. Every function of the source is a method
 that is proved to compute the function of the protocol with its name.
 */
module EpollReactor {
  import opened Basics
  import opened ReactorProtocol
  import opened ReactorProofs

  /** The bytes of the first calls are no more than those of all. */
  lemma {:induction false} DeliveredGrows(script: seq<ReadResult>, k: nat)
    requires k <= |script|
    ensures |Delivered(script, k)| <= |Burst(script)|
    decreases |script| - k
  {
    if k < |script| {
      DeliveredGrows(script, k + 1);
    }
  }

  lemma LastCallDeliversNothing(script: seq<ReadResult>, k: nat)
    requires k + 1 == |script| && !script[k].Bytes?
    ensures Burst(script) == Delivered(script, k)
  {
    assert Delivered(script, k) + [] == Delivered(script, k);
  }

  class EventTable {
    const nodeList: array<Node>
    var kernel: map<int, Registration>
    var open: set<int>
    var addrs: map<nat, nat>
    var pending: seq<Event>
    var errors: nat

    ghost function Abs(): Reactor
      reads this, nodeList
    {
      Reactor(nodeList[..], kernel, open, addrs, pending, errors)
    }

    /** The table after the listener has been registered in main. */
    constructor (lfd: int, others: set<int>, now: int)
      ensures Init(Abs()) && nodeList[EVENT_NODE_MAX].fd == lfd && open == others + {lfd} && fresh(nodeList)
    {
      var unused := Node(0, seq(MAX_SEGMENT_LENGTH, _ => 0), 0, 0, In, DoAccept, None, false, 0, [], [], [], 0);
      nodeList := new Node[EVENT_NODE_MAX + 1](_ => unused);
      kernel, open, addrs, pending, errors := map[], others + {lfd}, map[], [], 0;
      new;
      nodeList[EVENT_NODE_MAX] := SetEventNode(nodeList[EVENT_NODE_MAX], lfd, In, DoAccept, None, now);
      RunEventAdd(EVENT_NODE_MAX);
    }

    method RunFindUnuseNode() returns (i: nat)
      requires EVENT_NODE_MAX <= nodeList.Length
      ensures i == FindUnuseNode(nodeList[..], EVENT_NODE_MAX)
    {
      i := 0;
      while i < EVENT_NODE_MAX
        invariant 0 <= i <= EVENT_NODE_MAX
        invariant forall j | 0 <= j < i :: nodeList[j].active
      {
        if !nodeList[i].active {
          break;
        }
        i := i + 1;
      }
      ghost var first := FindUnuseNode(nodeList[..], EVENT_NODE_MAX);
      assert first < EVENT_NODE_MAX ==> !nodeList[first].active;
    }

    method RunEventAdd(i: nat)
      requires i < nodeList.Length
      modifies this`kernel, this`errors, nodeList
      ensures Abs() == EventAdd(old(Abs()), i)
    {
      nodeList[i] := nodeList[i].(active := true, bufLen := 0, wIndex := 0, received := [], got := [], sent := [],
                                  generation := nodeList[i].generation + 1);
      assert nodeList[..] == EventAdd(old(Abs()), i).nodes;
      if nodeList[i].fd in kernel {
        errors := errors + 1;
      } else {
        kernel := kernel[nodeList[i].fd := Registration(i, nodeList[i].event)];
      }
    }

    method RunEventDel(i: nat)
      requires i < nodeList.Length
      modifies this`kernel, this`errors, nodeList
      ensures Abs() == EventDel(old(Abs()), i)
    {
      nodeList[i] := nodeList[i].(active := false, bufLen := 0, wIndex := 0);
      assert nodeList[..] == EventDel(old(Abs()), i).nodes;
      if nodeList[i].fd !in kernel {
        errors := errors + 1;
      } else {
        kernel := kernel - {nodeList[i].fd};
      }
    }

    method RunEventMod(i: nat)
      requires i < nodeList.Length
      modifies this`kernel, this`errors, nodeList
      ensures Abs() == EventMod(old(Abs()), i)
    {
      nodeList[i] := nodeList[i].(active := true);
      assert nodeList[..] == EventMod(old(Abs()), i).nodes;
      if nodeList[i].fd !in kernel {
        errors := errors + 1;
      } else {
        kernel := kernel[nodeList[i].fd := Registration(i, nodeList[i].event)];
      }
    }

    method RunFree(i: nat)
      requires i < nodeList.Length
      modifies this`addrs, this`errors, nodeList
      ensures Abs() == FreeAddr(old(Abs()), i)
    {
      var addr := nodeList[i].addr;
      if addr == None {
        return;
      }
      if addr.value in addrs {
        addrs := addrs - {addr.value};
      } else {
        errors := errors + 1;
      }
      nodeList[i] := nodeList[i].(addr := None);
      assert nodeList[..] == FreeAddr(old(Abs()), i).nodes;
    }

    method RunClose(i: nat)
      requires i < nodeList.Length
      modifies this, nodeList
      ensures Abs() == CloseConnection(old(Abs()), i)
    {
      var fd := nodeList[i].fd;
      RunFree(i);
      RunEventDel(i);
      open := open - {fd};
    }

    method RunTouch(i: nat, now: int)
      requires i < nodeList.Length
      modifies nodeList
      ensures Abs() == Touch(old(Abs()), i, now)
    {
      nodeList[i] := nodeList[i].(lastAccess := now);
      assert nodeList[..] == Touch(old(Abs()), i, now).nodes;
    }

    method RunUseAddr(i: nat)
      requires i < nodeList.Length
      modifies this`errors
      ensures Abs() == UseAddr(old(Abs()), i)
    {
      if nodeList[i].addr == None || nodeList[i].addr.value !in addrs {
        errors := errors + 1;
      }
    }

    method RunAccept(listener: nat, now: int, cfd: int, addr: nat)
      requires EVENT_NODE_MAX < nodeList.Length && listener < nodeList.Length
      modifies this, nodeList
      ensures Abs() == Accept(old(Abs()), listener, now, cfd, addr)
    {
      RunTouch(listener, now);
      var index := RunFindUnuseNode();
      if index >= EVENT_NODE_MAX {
        return;
      }
      ghost var before := Abs();
      addrs := addrs[addr := index];
      open := open + {cfd};
      nodeList[index] := SetEventNode(nodeList[index], cfd, InEdge, DoReadLoop, Some(addr), now);
      assert nodeList[..] == before.nodes[index := nodeList[index]];
      RunEventAdd(index);
    }

    /** One read behind the `total` bytes of this burst, which are `head`. */
    method StoreBytes(i: nat, total: nat, data: seq<byte>, ghost before: Node, ghost head: seq<byte>)
      requires i < nodeList.Length && total == |head| && |head| + |data| <= |before.buf|
      requires nodeList[i] == Reading(before, head)
      modifies nodeList
      ensures nodeList[i] == Reading(before, head + data)
      ensures forall j | 0 <= j < nodeList.Length && j != i :: nodeList[j] == old(nodeList[j])
    {
      var node := nodeList[i];
      AppendOverwrite(before.buf, head, data);
      assert before.received + (head + data) == before.received + head + data;
      nodeList[i] := node.(buf := node.buf[..total] + data + node.buf[total + |data|..],
                           received := node.received + data);
    }

    /** The calls of read up to the end of the stream or to EAGAIN; the buffer takes what they deliver. */
    method RunReads(i: nat, script: seq<ReadResult>) returns (total: nat, eof: bool)
      requires i < nodeList.Length && PossibleReads(script) && |nodeList[i].buf| == MAX_SEGMENT_LENGTH
      modifies nodeList
      ensures total == |Burst(script)| && eof == script[|script| - 1].EndOfFile?
      ensures var node := old(nodeList[i]);
        nodeList[..] == old(nodeList[..])[i := Reading(node, Burst(script))]
    {
      ghost var node := nodeList[i];
      total, eof := 0, false;
      assert Overwrite(node.buf, []) == node.buf && node.received + [] == node.received;
      var k := 0;
      while true
        invariant 0 <= k < |script| && total == |Delivered(script, k)| <= MAX_SEGMENT_LENGTH
        invariant nodeList[i] == Reading(node, Delivered(script, k))
        invariant forall j | 0 <= j < nodeList.Length && j != i :: nodeList[j] == old(nodeList[j])
        decreases |script| - k
      {
        DeliveredGrows(script, k + 1);
        match script[k]
        case WouldBlock => break;
        case Interrupted =>
          k := k + 1;
        case EndOfFile =>
          eof := true;
          break;
        case Bytes(data) =>
          StoreBytes(i, total, data, node, Delivered(script, k));
          total := total + |data|;
          k := k + 1;
      }
      LastCallDeliversNothing(script, k);
      assert nodeList[..] == old(nodeList[..])[i := nodeList[i]];
    }

    static lemma AppendOverwrite(buf: seq<byte>, head: seq<byte>, data: seq<byte>)
      requires |head| + |data| <= |buf|
      ensures Overwrite(buf, head)[..|head|] + data + Overwrite(buf, head)[|head| + |data|..] ==
        Overwrite(buf, head + data)
    {
    }

    method RunReadLoop(i: nat, now: int, script: seq<ReadResult>)
      requires i < nodeList.Length && PossibleReads(script) && |nodeList[i].buf| == MAX_SEGMENT_LENGTH
      modifies this, nodeList
      ensures Abs() == ReadLoop(old(Abs()), i, now, script)
    {
      RunTouch(i, now);
      var total, eof := RunReads(i, script);
      if eof {
        RunClose(i);
        return;
      }
      RunUseAddr(i);
      RunSwitchToWrite(i, now, total, Burst(script));
    }

    /** `data` is what the loop has just stored at the start of the buffer. */
    method RunSwitchToWrite(i: nat, now: int, total: nat, ghost data: seq<byte>)
      requires i < nodeList.Length && total == |data| <= |nodeList[i].buf| && nodeList[i].buf[..total] == data
      modifies this, nodeList
      ensures var s, node := old(Abs()), old(nodeList[i]);
        Abs() == EventMod(s.(nodes := s.nodes[i := SetEventNode(
          node.(bufLen := total, wIndex := 0, got := node.got + data), node.fd, Out, DoWrite, node.addr, now)]), i)
    {
      var node := nodeList[i];
      node := node.(bufLen := total, wIndex := 0, got := node.got + node.buf[..total]);
      nodeList[i] := SetEventNode(node, node.fd, Out, DoWrite, node.addr, now);
      assert nodeList[..] == old(nodeList[..])[i := nodeList[i]];
      RunEventMod(i);
    }

    /** write takes `cnt` of the bytes that DoWrite offers: at most MAX_WRITE_BYTE. */
    method RunWrite(i: nat, now: int, cnt: nat)
      requires i < nodeList.Length && cnt <= Min(nodeList[i].bufLen, MAX_WRITE_BYTE)
      requires nodeList[i].wIndex + cnt <= |nodeList[i].buf|
      modifies this, nodeList
      ensures Abs() == Write(old(Abs()), i, now, cnt)
    {
      RunTouch(i, now);
      var node := nodeList[i];
      node := node.(bufLen := node.bufLen - cnt, wIndex := node.wIndex + cnt,
                    sent := node.sent + node.buf[node.wIndex..node.wIndex + cnt]);
      RunUseAddr(i);
      ghost var before := Abs();
      nodeList[i] := node;
      assert nodeList[..] == before.nodes[i := node];
      if node.bufLen <= 0 {
        nodeList[i] := SetEventNode(node, node.fd, InEdge, DoReadLoop, node.addr, now);
        assert nodeList[..] == before.nodes[i := node][i := nodeList[i]];
        RunEventMod(i);
      }
    }

    /** The callback that the node names. */
    method RunCallback(slot: nat, input: Input)
      requires CanDispatch(Abs(), slot, input)
      modifies this, nodeList
      ensures Abs() == Call(old(Abs()), slot, input)
    {
      match nodeList[slot].callback
      case DoAccept => RunAccept(slot, input.now, input.cfd, input.addr);
      case DoReadLoop => RunReadLoop(slot, input.now, input.script);
      case DoWrite => RunWrite(slot, input.now, input.cnt);
    }

    /** The loop that closes connections without traffic. */
    method RunTimeouts(now: int)
      requires CanStep(Abs(), Timeouts(now))
      modifies this, nodeList
      ensures Abs() == Apply(old(Abs()), Timeouts(now))
    {
      var i := 0;
      while i < EVENT_NODE_MAX
        invariant 0 <= i <= EVENT_NODE_MAX
        invariant Abs() == Sweep(old(Abs()), now, i)
      {
        if nodeList[i].active {
          if now - NODE_LIVE_SECONDS > nodeList[i].lastAccess {
            RunClose(i);
          }
        }
        i := i + 1;
      }
    }

    /** One turn of the loop over the batch. */
    method RunDispatch(input: Input)
      requires CanStep(Abs(), Dispatch(input))
      modifies this, nodeList
      ensures Abs() == Apply(old(Abs()), Dispatch(input))
    {
      var event := pending[0];
      pending := pending[1..];
      RunCallback(event.slot, input);
    }

    /** Every step of the protocol, with what the kernel does in epoll_wait. No step breaks the invariant. */
    method Perform(step: Step)
      requires Inv(Abs()) && CanStep(Abs(), step)
      modifies this, nodeList
      ensures Abs() == Apply(old(Abs()), step) && Inv(Abs())
      ensures forall k | 0 <= k < |pending| :: pending[k].slot < nodeList.Length &&
                nodeList[pending[k].slot].active && nodeList[pending[k].slot].fd == pending[k].fd &&
                nodeList[pending[k].slot].generation == pending[k].generation
    {
      ReactorProofs.StepKeeps(Abs(), step);
      match step
      case Timeouts(now) => RunTimeouts(now);
      case EpollWait(ready) =>
        var nodes := nodeList[..];
        pending := seq(|ready|, k requires 0 <= k < |ready| && ready[k] in kernel reads this`kernel =>
          EventOf(nodes, kernel[ready[k]].slot, ready[k]));
      case Dispatch(input) => RunDispatch(input);
    }
  }
}
