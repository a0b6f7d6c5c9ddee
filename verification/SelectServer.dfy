/**
 The descriptor table of the select server: which descriptors a round handles, and how
 the client table, the descriptor set and the ready count stay in agreement.
 */
module SelectServer {
  import opened Basics

  const MAX_TCP_CLIENT: nat := 1024

  /** What `read` on a connection may report, and how much the `write` takes; other errors end the program. */
  datatype Read = Interrupted | Reset | Eof | Data(bytes: seq<byte>, taken: nat)

  /**
   The listeners (0: not opened), the descriptor set, the client table (-1: free), and the
   sockets of the server that are open.
   */
  datatype Table = Table(
    tcp: nat, udp: nat, rset: set<int>, maxFd: int, clients: seq<int>, maxIdx: int, open: set<int>)

  function Listeners(t: Table): set<int> {
    (if t.tcp != 0 then {t.tcp} else {}) + (if t.udp != 0 then {t.udp} else {})
  }

  function ClientFds(clients: seq<int>): set<int> {
    set fd | fd in clients && fd >= 0
  }

  ghost predicate DistinctClients(clients: seq<int>) {
    forall i, j | 0 <= i < j < |clients| && clients[i] >= 0 :: clients[i] != clients[j]
  }

  /**
   The set is the listeners plus the distinct clients, all within `maxIdx` and `maxFd`;
   exactly these are open.
   */
  ghost predicate Inv(t: Table) {
    |t.clients| == MAX_TCP_CLIENT && -1 <= t.maxIdx < MAX_TCP_CLIENT &&
    (t.tcp != 0 ==> t.tcp != t.udp) && (t.tcp == 0 ==> ClientFds(t.clients) == {}) &&
    t.rset == Listeners(t) + ClientFds(t.clients) && Listeners(t) !! ClientFds(t.clients) && t.open == t.rset &&
    DistinctClients(t.clients) &&
    (forall i | t.maxIdx < i < |t.clients| :: t.clients[i] < 0) &&
    forall fd | fd in t.rset :: 0 <= fd <= t.maxFd
  }

  // ----- what one round does

  /** The first free index, the length when the table is full. */
  function FirstFree(clients: seq<int>): (idx: nat)
    ensures idx <= |clients|
    ensures idx < |clients| ==> clients[idx] < 0
    ensures forall i | 0 <= i < idx :: clients[i] >= 0
  {
    if clients == [] || clients[0] < 0 then 0 else
      var rest := FirstFree(clients[1..]);
      assert forall i | 0 < i < rest + 1 :: clients[i] == clients[1..][i - 1];
      rest + 1
  }

  /** A new connection takes the first free entry; with a full table it is closed at once. */
  function Connect(t: Table, cfd: int): Table {
    var idx := FirstFree(t.clients);
    if idx >= |t.clients| then t
    else t.(clients := t.clients[idx := cfd], maxIdx := Max(t.maxIdx, idx),
            rset := t.rset + {cfd}, maxFd := Max(t.maxFd, cfd), open := t.open + {cfd})
  }

  function Disconnect(t: Table, gone: set<int>): Table {
    t.(clients := seq(|t.clients|, i requires 0 <= i < |t.clients| =>
         if t.clients[i] in gone then -1 else t.clients[i]),
       rset := t.rset - gone, open := t.open - gone)
  }

  predicate Closes(read: Read) { read.Reset? || read.Eof? }

  /** What goes back on a connection: the one write that is made may be short. */
  function EchoOf(read: Read): (echo: seq<byte>)
    ensures read.Data? ==> echo <= read.bytes
  {
    if read.Data? then read.bytes[..Min(read.taken, |read.bytes|)] else []
  }

  function Echoes(fds: seq<int>, outcome: int -> Read): seq<seq<byte>> {
    seq(|fds|, i requires 0 <= i < |fds| => EchoOf(outcome(fds[i])))
  }

  lemma EchoesSnoc(fds: seq<int>, fd: int, outcome: int -> Read)
    ensures Echoes(fds + [fd], outcome) == Echoes(fds, outcome) + [EchoOf(outcome(fd))]
  {
  }

  /** A connection that is read gets back the first of its bytes, as many as the write takes, and others get nothing. */
  lemma EchoedInFullIff(fds: seq<int>, outcome: int -> Read, i: nat)
    requires i < |fds|
    ensures |Echoes(fds, outcome)| == |fds|
    ensures var read, echo := outcome(fds[i]), Echoes(fds, outcome)[i];
      if read.Data? then
        echo <= read.bytes && (echo == read.bytes <==> read.taken >= |read.bytes|) &&
        (read.taken <= |read.bytes| ==> |echo| == read.taken)
      else echo == []
  {
    var read := outcome(fds[i]);
    if read.Data? {
      assert |EchoOf(read)| == Min(read.taken, |read.bytes|);
    }
  }

  function Accepted(t: Table, ready: set<int>, cfd: int): Table {
    if t.tcp != 0 && t.tcp in ready then Connect(t, cfd) else t
  }

  /** The ready connections whose read ends them. */
  function Gone(t: Table, ready: set<int>, outcome: int -> Read): set<int> {
    set fd | fd in ready && fd in t.clients && fd >= 0 && Closes(outcome(fd))
  }

  function Round(t: Table, ready: set<int>, cfd: int, outcome: int -> Read): Table {
    Disconnect(Accepted(t, ready, cfd), Gone(t, ready, outcome))
  }

  /** The ready connections among the first `n` entries, by index. */
  function ReadyClients(clients: seq<int>, ready: set<int>, n: nat): seq<int>
    requires n <= |clients|
  {
    if n == 0 then []
    else
      var fd := clients[n - 1];
      ReadyClients(clients, ready, n - 1) + (if fd >= 0 && fd in ready then [fd] else [])
  }

  function One(fd: int, ready: set<int>): seq<int> {
    if fd != 0 && fd in ready then [fd] else []
  }

  /** The order of a round: the listening socket, the connections by index, the datagram socket. */
  function HandlingOrder(t: Table, ready: set<int>): seq<int> {
    One(t.tcp, ready) + ReadyClients(t.clients, ready, |t.clients|) + One(t.udp, ready)
  }

  // ----- every ready descriptor is handled exactly once

  ghost predicate NoDuplicates(s: seq<int>) {
    forall i, j | 0 <= i < j < |s| :: s[i] != s[j]
  }

  lemma {:induction false} ReadyClientsOnce(clients: seq<int>, ready: set<int>, n: nat)
    requires n <= |clients| && DistinctClients(clients)
    ensures NoDuplicates(ReadyClients(clients, ready, n))
    ensures forall fd :: fd in ReadyClients(clients, ready, n) <==> fd >= 0 && fd in ready && fd in clients[..n]
  {
    if n > 0 {
      ReadyClientsOnce(clients, ready, n - 1);
      assert clients[..n] == clients[..n - 1] + [clients[n - 1]];
      if clients[n - 1] >= 0 {
        assert forall i | 0 <= i < n - 1 && clients[i] >= 0 :: clients[i] != clients[n - 1];
        assert clients[n - 1] !in clients[..n - 1];
      }
    }
  }

  lemma {:induction false} DistinctCount(s: seq<int>, ready: set<int>)
    requires NoDuplicates(s) && ready == set fd | fd in s
    ensures |s| == |ready|
  {
    if s != [] {
      var last, rest := s[|s| - 1], s[..|s| - 1];
      assert s == rest + [last];
      assert last !in rest;
      DistinctCount(rest, ready - {last});
    }
  }

  /** Nothing is skipped and nothing is handled twice. */
  lemma EachReadyOnce(t: Table, ready: set<int>)
    requires Inv(t) && ready <= t.rset
    ensures NoDuplicates(HandlingOrder(t, ready))
    ensures forall fd :: fd in HandlingOrder(t, ready) <==> fd in ready
    ensures |HandlingOrder(t, ready)| == |ready|
  {
    ReadyClientsOnce(t.clients, ready, |t.clients|);
    assert t.clients[..|t.clients|] == t.clients;
    var middle := ReadyClients(t.clients, ready, |t.clients|);
    assert forall fd | fd in middle :: fd in ClientFds(t.clients);
    assert forall fd | fd in Listeners(t) :: fd !in middle;
    DistinctCount(HandlingOrder(t, ready), ready);
  }

  /** Entries behind `maxIdx` are free, so the scan may stop there. */
  lemma {:induction false} ScanToMaxIdx(clients: seq<int>, ready: set<int>, n: nat, m: nat)
    requires n <= m <= |clients| && forall i | n <= i < m :: clients[i] < 0
    ensures ReadyClients(clients, ready, m) == ReadyClients(clients, ready, n)
    decreases m
  {
    if n < m {
      ScanToMaxIdx(clients, ready, n, m - 1);
    }
  }

  /** A connection accepted in this round is not ready in this round. */
  lemma {:induction false} NewConnectionNotRead(clients: seq<int>, ready: set<int>, idx: nat, cfd: int, n: nat)
    requires n <= |clients| && idx < |clients| && clients[idx] < 0 && cfd !in ready
    ensures ReadyClients(clients[idx := cfd], ready, n) == ReadyClients(clients, ready, n)
    decreases n
  {
    if n > 0 {
      NewConnectionNotRead(clients, ready, idx, cfd, n - 1);
    }
  }

  // ----- the table stays consistent

  /** A free entry takes a new descriptor. */
  lemma EntryTaken(clients: seq<int>, idx: nat, cfd: int)
    requires idx < |clients| && clients[idx] < 0 && cfd >= 0 && cfd !in clients && DistinctClients(clients)
    ensures ClientFds(clients[idx := cfd]) == ClientFds(clients) + {cfd}
    ensures DistinctClients(clients[idx := cfd])
  {
    var taken := clients[idx := cfd];
    assert taken[idx] == cfd;
    forall fd | fd in ClientFds(clients) ensures fd in ClientFds(taken) {
      var i :| 0 <= i < |clients| && clients[i] == fd;
      assert taken[i] == fd;
    }
  }

  lemma ConnectKeeps(t: Table, cfd: int)
    requires Inv(t) && t.tcp != 0 && cfd >= 0 && cfd !in t.open
    ensures Inv(Connect(t, cfd))
  {
    var idx := FirstFree(t.clients);
    if idx < |t.clients| {
      assert cfd !in ClientFds(t.clients);
      EntryTaken(t.clients, idx, cfd);
    }
  }

  lemma DisconnectKeeps(t: Table, gone: set<int>)
    requires Inv(t) && gone <= ClientFds(t.clients)
    ensures Inv(Disconnect(t, gone))
  {
    var clients := Disconnect(t, gone).clients;
    assert ClientFds(clients) == ClientFds(t.clients) - gone by {
      forall fd | fd in ClientFds(t.clients) - gone ensures fd in ClientFds(clients) {
        var i :| 0 <= i < |t.clients| && t.clients[i] == fd;
        assert clients[i] == fd;
      }
      forall fd | fd in ClientFds(clients) ensures fd in ClientFds(t.clients) - gone {
        var i :| 0 <= i < |clients| && clients[i] == fd;
        assert t.clients[i] == fd;
      }
    }
  }

  /** What the kernel may report: members of the set, and a new descriptor for a new connection. */
  predicate PossibleRound(t: Table, ready: set<int>, cfd: int) {
    ready <= t.rset && cfd >= 0 && cfd !in t.open
  }

  lemma RoundKeeps(t: Table, ready: set<int>, cfd: int, outcome: int -> Read)
    requires Inv(t) && PossibleRound(t, ready, cfd)
    ensures Inv(Round(t, ready, cfd, outcome))
  {
    if t.tcp != 0 && t.tcp in ready {
      ConnectKeeps(t, cfd);
    }
    var accepted := Accepted(t, ready, cfd);
    forall fd | fd in Gone(t, ready, outcome) ensures fd in ClientFds(accepted.clients) {
      assert fd in ClientFds(t.clients);
      var i :| 0 <= i < |t.clients| && t.clients[i] == fd;
      assert accepted.clients[i] == fd;
    }
    DisconnectKeeps(accepted, Gone(t, ready, outcome));
  }

  // ----- whom a round accepts and whom it ends

  /** A connection is open, and in the table, after a round unless it was ready and its end or its reset was read. */
  lemma RoundEnds(t: Table, ready: set<int>, cfd: int, outcome: int -> Read, fd: int)
    requires Inv(t) && PossibleRound(t, ready, cfd) && fd in ClientFds(t.clients)
    ensures var t', ended := Round(t, ready, cfd, outcome), fd in ready && (outcome(fd).Eof? || outcome(fd).Reset?);
      (fd in t'.open <==> !ended) && (fd in t'.rset <==> !ended) && (fd in t'.clients <==> !ended)
  {
    var i :| 0 <= i < |t.clients| && t.clients[i] == fd;
    RoundKeeps(t, ready, cfd, outcome);
    var t' := Round(t, ready, cfd, outcome);
    assert t'.clients[i] == if fd in Gone(t, ready, outcome) then -1 else fd;
    assert fd in t'.clients <==> fd in ClientFds(t'.clients);
  }

  /** No round moves a connection to another entry, and the only entry it fills is the first free one. */
  lemma RoundEntries(t: Table, ready: set<int>, cfd: int, outcome: int -> Read, i: nat)
    requires Inv(t) && PossibleRound(t, ready, cfd) && i < |t.clients|
    ensures |Round(t, ready, cfd, outcome).clients| == |t.clients|
    ensures var fd, fd' := t.clients[i], Round(t, ready, cfd, outcome).clients[i];
      if fd >= 0 then fd' == fd || fd' == -1
      else if t.tcp != 0 && t.tcp in ready && (forall j | 0 <= j < i :: t.clients[j] >= 0) then fd' == cfd
      else fd' < 0
  {
    var free := FirstFree(t.clients);
    assert cfd !in Gone(t, ready, outcome);
  }

  /** A connection that is accepted is kept exactly if the table had a free entry; `maxFd` grows to it. */
  lemma RoundAccepts(t: Table, ready: set<int>, cfd: int, outcome: int -> Read)
    requires Inv(t) && PossibleRound(t, ready, cfd)
    ensures |t.clients| == 1024
    ensures var t' := Round(t, ready, cfd, outcome);
      var kept := t.tcp != 0 && t.tcp in ready && exists i :: 0 <= i < 1024 && t.clients[i] < 0;
      (cfd in t'.open <==> kept) && (cfd in t'.rset <==> kept) && (cfd in t'.clients <==> kept) &&
      t'.maxFd == (if kept && cfd > t.maxFd then cfd else t.maxFd) &&
      t'.tcp == t.tcp && t'.udp == t.udp
  {
    var t' := Round(t, ready, cfd, outcome);
    var free := FirstFree(t.clients);
    assert cfd !in ClientFds(t.clients) && cfd !in Gone(t, ready, outcome);
    if t.tcp != 0 && t.tcp in ready && free < |t.clients| {
      assert t.clients[free] < 0 && t'.clients[free] == cfd;
    }
  }

  /** The highest entry in use so far is what bounds the scan. */
  lemma RoundScans(t: Table, ready: set<int>, cfd: int, outcome: int -> Read)
    requires Inv(t) && PossibleRound(t, ready, cfd)
    ensures var t' := Round(t, ready, cfd, outcome);
      t.maxIdx <= t'.maxIdx &&
      (t'.maxIdx != t.maxIdx ==> t'.clients[t'.maxIdx] == cfd && forall j | 0 <= j < t'.maxIdx :: t.clients[j] >= 0)
  {
    RoundKeeps(t, ready, cfd, outcome);
    var free := FirstFree(t.clients);
    assert cfd !in Gone(t, ready, outcome);
  }

  /** The listener is handled first and the datagram socket last. */
  lemma ListenersAtTheEnds(t: Table, ready: set<int>, k: nat)
    requires Inv(t) && ready <= t.rset && k < |HandlingOrder(t, ready)|
    ensures HandlingOrder(t, ready)[k] == t.tcp != 0 ==> k == 0
    ensures HandlingOrder(t, ready)[k] == t.udp != 0 ==> k == |HandlingOrder(t, ready)| - 1
  {
    EachReadyOnce(t, ready);
    var order := HandlingOrder(t, ready);
    assert order[k] in order;
    if order[k] == t.tcp != 0 {
      assert order[0] == t.tcp;
    }
    if order[k] == t.udp != 0 {
      assert order[|order| - 1] == t.udp;
    }
  }

  /** The connections are handled in the order of their entries. */
  lemma ConnectionsInOrder(t: Table, ready: set<int>, i: nat, j: nat, a: nat, b: nat)
    requires Inv(t) && i < j < |t.clients| && 0 <= t.clients[i] && 0 <= t.clients[j]
    requires a < |ReadyClients(t.clients, ready, |t.clients|)| && b < |ReadyClients(t.clients, ready, |t.clients|)|
    requires ReadyClients(t.clients, ready, |t.clients|)[a] == t.clients[i]
    requires ReadyClients(t.clients, ready, |t.clients|)[b] == t.clients[j]
    ensures a < b
  {
    if b < a {
      ReadyClientsInOrder(t.clients, ready, |t.clients|, b, a);
    }
  }

  lemma {:induction false} ReadyClientsInOrder(clients: seq<int>, ready: set<int>, n: nat, a: nat, b: nat)
    requires n <= |clients| && a < b < |ReadyClients(clients, ready, n)|
    ensures var order := ReadyClients(clients, ready, n);
      exists i, j :: 0 <= i < j < n && clients[i] == order[a] && clients[j] == order[b]
  {
    var before := ReadyClients(clients, ready, n - 1);
    if b < |before| {
      ReadyClientsInOrder(clients, ready, n - 1, a, b);
    } else {
      var i := EntryOf(clients, ready, n - 1, a);
      assert clients[n - 1] == ReadyClients(clients, ready, n)[b];
    }
  }

  lemma {:induction false} EntryOf(clients: seq<int>, ready: set<int>, n: nat, a: nat) returns (i: nat)
    requires n <= |clients| && a < |ReadyClients(clients, ready, n)|
    ensures i < n && clients[i] == ReadyClients(clients, ready, n)[a]
  {
    if a < |ReadyClients(clients, ready, n - 1)| {
      i := EntryOf(clients, ready, n - 1, a);
    } else {
      i := n - 1;
    }
  }

  datatype Input = Input(ready: set<int>, cfd: int, outcome: int -> Read)

  ghost predicate IsRun(trace: seq<Table>, inputs: seq<Input>) {
    |trace| == |inputs| + 1 && Inv(trace[0]) &&
    forall i {:trigger inputs[i]} | 0 <= i < |inputs| ::
      PossibleRound(trace[i], inputs[i].ready, inputs[i].cfd) &&
      trace[i + 1] == Round(trace[i], inputs[i].ready, inputs[i].cfd, inputs[i].outcome)
  }

  /** In every round of every run, each ready descriptor is handled exactly once, and no socket leaks. */
  lemma {:induction false} EveryRoundIsExact(trace: seq<Table>, inputs: seq<Input>, i: nat)
    requires IsRun(trace, inputs) && i < |trace|
    ensures Inv(trace[i]) && trace[i].open == Listeners(trace[i]) + ClientFds(trace[i].clients)
    ensures i < |inputs| ==> var order := HandlingOrder(trace[i], inputs[i].ready);
              NoDuplicates(order) && (forall fd :: fd in order <==> fd in inputs[i].ready) && inputs[i].cfd !in order
    decreases i
  {
    if i > 0 {
      EveryRoundIsExact(trace, inputs, i - 1);
      RoundKeeps(trace[i - 1], inputs[i - 1].ready, inputs[i - 1].cfd, inputs[i - 1].outcome);
    }
    if i < |inputs| {
      EachReadyOnce(trace[i], inputs[i].ready);
    }
  }

  // ----- the code

  class Server {
    const tcpSocket: nat
    const udpSocket: nat
    const clientList: array<int>
    var allRSet: set<int>
    var maxFd: int
    var maxIdx: int
    var open: set<int>

    ghost function Abs(): Table
      reads this, clientList
    {
      Table(tcpSocket, udpSocket, allRSet, maxFd, clientList[..], maxIdx, open)
    }

    /** main up to its loop, with the listening sockets that the options opened. */
    constructor (tcp: nat, udp: nat)
      requires tcp != 0 ==> tcp != udp
      ensures tcpSocket == tcp && udpSocket == udp && fresh(clientList)
      ensures maxIdx == -1 && maxFd == Max(if tcp != 0 then tcp else -1, if udp != 0 then udp else -1)
      ensures Inv(Abs()) && allRSet == Listeners(Abs()) && forall i | 0 <= i < clientList.Length :: clientList[i] == -1
    {
      tcpSocket, udpSocket := tcp, udp;
      clientList := new int[MAX_TCP_CLIENT](_ => -1);
      allRSet, maxFd, maxIdx := {}, -1, -1;
      open := (if tcp != 0 then {tcp} else {}) + (if udp != 0 then {udp} else {});
      new;
      if tcp != 0 {
        AddToFdSet(tcp);
      }
      if udp != 0 {
        AddToFdSet(udp);
      }
    }

    method AddToFdSet(fd: int)
      modifies this`allRSet, this`maxFd
      ensures allRSet == old(allRSet) + {fd} && maxFd == Max(old(maxFd), fd)
    {
      allRSet := allRSet + {fd};
      if fd > maxFd {
        maxFd := fd;
      }
    }

    method HandlerTcpNewConnect(cfd: int)
      requires clientList.Length == MAX_TCP_CLIENT
      requires cfd !in open
      modifies this, clientList
      ensures Abs() == Connect(old(Abs()), cfd)
    {
      open := open + {cfd};
      var idx := 0;
      while idx < MAX_TCP_CLIENT
        invariant 0 <= idx <= MAX_TCP_CLIENT
        invariant forall i | 0 <= i < idx :: clientList[i] >= 0
      {
        if clientList[idx] < 0 {
          break;
        }
        idx := idx + 1;
      }
      assert idx == FirstFree(clientList[..]);
      if idx >= MAX_TCP_CLIENT {
        open := open - {cfd};
        return;
      }
      clientList[idx] := cfd;
      if idx > maxIdx {
        maxIdx := idx;
      }
      AddToFdSet(cfd);
      assert clientList[..] == old(clientList[..])[idx := cfd];
    }

    method CloseTcpConnect(cfd: int)
      requires cfd >= 0 && DistinctClients(clientList[..])
      modifies this`allRSet, this`open, clientList
      ensures Abs() == Disconnect(old(Abs()), {cfd})
    {
      allRSet := allRSet - {cfd};
      var idx := 0;
      while idx < clientList.Length
        invariant 0 <= idx <= clientList.Length
        invariant clientList[..] == old(clientList[..])
        invariant cfd !in clientList[..idx]
      {
        if cfd == clientList[idx] {
          clientList[idx] := -1;
          break;
        }
        idx := idx + 1;
      }
      open := open - {cfd};
      assert clientList[..] == Disconnect(old(Abs()), {cfd}).clients;
    }

    method HandlerTcpRead(cfd: int, read: Read) returns (echo: seq<byte>)
      requires cfd >= 0 && DistinctClients(clientList[..])
      modifies this`allRSet, this`open, clientList
      ensures Abs() == if Closes(read) then Disconnect(old(Abs()), {cfd}) else old(Abs())
      ensures echo == EchoOf(read)
    {
      echo := [];
      match read
      case Interrupted => return;
      case Reset => CloseTcpConnect(cfd);
      case Eof => CloseTcpConnect(cfd);
      case Data(bytes, taken) => echo := bytes[..Min(taken, |bytes|)];
    }

    /** The connections that have been read among the first `n` entries of `t`. */
    static ghost function GoneSoFar(t: Table, ready: set<int>, outcome: int -> Read, n: nat): set<int>
      requires n <= |t.clients|
    {
      set i | 0 <= i < n && t.clients[i] >= 0 && t.clients[i] in ready && Closes(outcome(t.clients[i])) :: t.clients[i]
    }

    /** Entries not yet scanned are as they were, because clients are distinct. */
    static lemma UnscannedUntouched(t: Table, ready: set<int>, outcome: int -> Read, n: nat)
      requires Inv(t) && n <= |t.clients|
      ensures var d := Disconnect(t, GoneSoFar(t, ready, outcome, n));
        DistinctClients(d.clients) && forall i | n <= i < |t.clients| :: d.clients[i] == t.clients[i]
    {
    }

    static lemma GoneSoFarStep(t: Table, ready: set<int>, outcome: int -> Read, n: nat)
      requires Inv(t) && n < |t.clients|
      ensures var fd, gone := t.clients[n], GoneSoFar(t, ready, outcome, n);
        Disconnect(t, GoneSoFar(t, ready, outcome, n + 1)) ==
        if fd >= 0 && fd in ready && Closes(outcome(fd)) then Disconnect(Disconnect(t, gone), {fd})
        else Disconnect(t, gone)
    {
      var fd, gone := t.clients[n], GoneSoFar(t, ready, outcome, n);
      if fd >= 0 && fd in ready && Closes(outcome(fd)) {
        assert GoneSoFar(t, ready, outcome, n + 1) == gone + {fd};
        assert Disconnect(t, gone + {fd}).clients == Disconnect(Disconnect(t, gone), {fd}).clients;
      } else {
        assert GoneSoFar(t, ready, outcome, n + 1) == gone;
      }
    }

    static lemma GoneInTheEnd(t: Table, ready: set<int>, outcome: int -> Read, n: nat)
      requires Inv(t) && t.maxIdx + 1 == n
      ensures GoneSoFar(t, ready, outcome, n) == Gone(t, ready, outcome)
    {
    }

    /** The loop over the connections. `nreadys` loses one for each that is handled. */
    method ReadConnections(ready: set<int>, outcome: int -> Read, count: int)
      returns (nreadys: int, handled: seq<int>, echoes: seq<seq<byte>>)
      requires Inv(Abs())
      modifies this`allRSet, this`open, clientList
      ensures handled == ReadyClients(old(clientList[..]), ready, MAX_TCP_CLIENT)
      ensures nreadys == count - |handled| && echoes == Echoes(handled, outcome)
      ensures Abs() == Disconnect(old(Abs()), Gone(old(Abs()), ready, outcome))
    {
      ghost var t := Abs();
      nreadys, handled, echoes := count, [], [];
      var idx := 0;
      assert Disconnect(t, GoneSoFar(t, ready, outcome, 0)).clients == t.clients;
      while idx <= maxIdx
        invariant 0 <= idx <= maxIdx + 1
        invariant handled == ReadyClients(t.clients, ready, idx) && nreadys == count - |handled|
        invariant echoes == Echoes(handled, outcome)
        invariant Abs() == Disconnect(t, GoneSoFar(t, ready, outcome, idx))
      {
        UnscannedUntouched(t, ready, outcome, idx);
        GoneSoFarStep(t, ready, outcome, idx);
        var cfd := clientList[idx];
        assert cfd == Abs().clients[idx] == t.clients[idx];
        if cfd >= 0 && cfd in ready {
          nreadys := nreadys - 1;
          EchoesSnoc(handled, cfd, outcome);
          handled := handled + [cfd];
          var echo := HandlerTcpRead(cfd, outcome(cfd));
          echoes := echoes + [echo];
        }
        idx := idx + 1;
      }
      GoneInTheEnd(t, ready, outcome, idx);
      ScanToMaxIdx(t.clients, ready, idx, MAX_TCP_CLIENT);
    }

    /** The start of a round: the listening socket. */
    method AcceptReady(ready: set<int>, cfd: int, count: int) returns (nreadys: int, handled: seq<int>)
      requires clientList.Length == MAX_TCP_CLIENT && cfd !in open
      modifies this, clientList
      ensures Abs() == Accepted(old(Abs()), ready, cfd)
      ensures handled == One(tcpSocket, ready) && nreadys == count - |handled|
    {
      nreadys, handled := count, [];
      if tcpSocket != 0 && tcpSocket in ready {
        nreadys := nreadys - 1;
        handled := [tcpSocket];
        HandlerTcpNewConnect(cfd);
      }
    }

    /** The rest of a round, when `count` ready descriptors are left: the connections, and the datagram socket. */
    method ServeRest(ready: set<int>, outcome: int -> Read, count: int)
      returns (nreadys: int, handled: seq<int>, echoes: seq<seq<byte>>)
      requires Inv(Abs())
      requires count == |ReadyClients(clientList[..], ready, MAX_TCP_CLIENT)| + |One(udpSocket, ready)|
      modifies this`allRSet, this`open, clientList
      ensures nreadys == 0
      ensures handled == ReadyClients(old(clientList[..]), ready, MAX_TCP_CLIENT) + One(udpSocket, ready)
      ensures echoes == Echoes(ReadyClients(old(clientList[..]), ready, MAX_TCP_CLIENT), outcome)
      ensures Abs() == Disconnect(old(Abs()), Gone(old(Abs()), ready, outcome))
    {
      NoneReadyNoneGone(Abs(), Abs(), ready, outcome);
      nreadys, handled, echoes := count, [], [];
      if nreadys <= 0 {
        return;
      }
      if tcpSocket != 0 {
        nreadys, handled, echoes := ReadConnections(ready, outcome, nreadys);
      }
      if nreadys <= 0 {
        return;
      }
      if udpSocket != 0 && udpSocket in ready {
        nreadys := nreadys - 1;
        handled := handled + [udpSocket];
      }
    }

    /**
     One round of the main loop, for the ready set that select returned. The count reaches
     0 exactly when every ready descriptor has been handled, so leaving early skips none.
     */
    method ServeRound(ready: set<int>, cfd: int, outcome: int -> Read)
      returns (nreadys: int, handled: seq<int>, echoes: seq<seq<byte>>)
      requires Inv(Abs()) && PossibleRound(Abs(), ready, cfd)
      modifies this, clientList
      ensures handled == HandlingOrder(old(Abs()), ready) && nreadys == 0
      ensures echoes == Echoes(ReadyClients(old(clientList[..]), ready, MAX_TCP_CLIENT), outcome)
      ensures Abs() == Round(old(Abs()), ready, cfd, outcome) && Inv(Abs())
    {
      RoundFacts(Abs(), ready, cfd, outcome);
      nreadys, handled := AcceptReady(ready, cfd, |ready|);
      var rest;
      nreadys, rest, echoes := ServeRest(ready, outcome, nreadys);
      handled := handled + rest;
    }

    /** The descriptors of a round by kind, and the table after it, from the table after the accept. */
    static lemma RoundFacts(t: Table, ready: set<int>, cfd: int, outcome: int -> Read)
      requires Inv(t) && PossibleRound(t, ready, cfd)
      ensures var u, connections := Accepted(t, ready, cfd), ReadyClients(t.clients, ready, |t.clients|);
        |ready| == |One(t.tcp, ready)| + |connections| + |One(t.udp, ready)| &&
        HandlingOrder(t, ready) == One(t.tcp, ready) + connections + One(t.udp, ready) &&
        Inv(u) && ReadyClients(u.clients, ready, |u.clients|) == connections &&
        Round(t, ready, cfd, outcome) == Disconnect(u, Gone(u, ready, outcome))
      ensures Inv(Round(t, ready, cfd, outcome))
    {
      EachReadyOnce(t, ready);
      RoundKeeps(t, ready, cfd, outcome);
      AcceptedRound(t, ready, cfd, outcome);
    }

    /** After the accept the table is consistent, and the same connections are ready. */
    static lemma AcceptedRound(t: Table, ready: set<int>, cfd: int, outcome: int -> Read)
      requires Inv(t) && PossibleRound(t, ready, cfd)
      ensures var u := Accepted(t, ready, cfd);
        Inv(u) && ReadyClients(u.clients, ready, |u.clients|) == ReadyClients(t.clients, ready, |t.clients|) &&
        Gone(u, ready, outcome) == Gone(t, ready, outcome)
    {
      if t.tcp != 0 && t.tcp in ready {
        ConnectKeeps(t, cfd);
        ConnectSameReady(t, ready, cfd, outcome);
      }
    }

    static lemma ConnectSameReady(t: Table, ready: set<int>, cfd: int, outcome: int -> Read)
      requires Inv(t) && PossibleRound(t, ready, cfd)
      ensures var u := Connect(t, cfd);
        ReadyClients(u.clients, ready, |u.clients|) == ReadyClients(t.clients, ready, |t.clients|) &&
        Gone(u, ready, outcome) == Gone(t, ready, outcome)
    {
      var u := Connect(t, cfd);
      var idx := FirstFree(t.clients);
      if idx < |t.clients| {
        NewConnectionNotRead(t.clients, ready, idx, cfd, |t.clients|);
        forall fd | fd in t.clients && fd >= 0 ensures fd in u.clients {
          var i :| 0 <= i < |t.clients| && t.clients[i] == fd;
          assert u.clients[i] == fd;
        }
      }
    }

    static lemma NoneReadyNoneGone(t: Table, u: Table, ready: set<int>, outcome: int -> Read)
      requires Inv(t)
      ensures ReadyClients(t.clients, ready, |t.clients|) == [] ==> Disconnect(u, Gone(t, ready, outcome)) == u
      ensures t.tcp == 0 ==> ReadyClients(t.clients, ready, |t.clients|) == []
    {
      ReadyClientsOnce(t.clients, ready, |t.clients|);
      assert t.clients[..|t.clients|] == t.clients;
      var connections := ReadyClients(t.clients, ready, |t.clients|);
      if connections == [] {
        assert Gone(t, ready, outcome) == {};
        assert Disconnect(u, {}).clients == u.clients;
      } else {
        assert connections[0] in connections;
        assert connections[0] in ClientFds(t.clients);
      }
    }
  }
}
