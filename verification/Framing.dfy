/**
 Messages with a fixed header over a byte stream (test_struct_client.c and
 test_struct_server.c): one byte of type, three of padding, the length as a little-endian
 32-bit number, and the body.
 */
module Framing {
  import opened Basics
  import opened StreamIO
  import opened CStrings

  const HEADER_SIZE: nat := 8
  const TYPE_ECHO: byte := 1
  const TYPE_CALL: byte := 2
  const INT_RANGE: nat := 0x8000_0000
  const INBUF_SIZE: nat := 1024

  /** What the padding holds is left over from the stack. */
  datatype Message = Message(kind: byte, padding: seq<byte>, body: seq<byte>)

  /** What the server has read of one message: its type and its body. */
  datatype Request = Request(kind: byte, body: seq<byte>)

  /** Why the server's loop ends: the stream is over, or it exits with an error. */
  datatype Ending = Closed | ShortHeader | BadType | BadSize

  datatype Outcome = Outcome(requests: seq<Request>, ending: Ending)

  // ----- numbers

  function ToLittleEndian(n: nat): (b: seq<byte>)
    requires n < 0x1_0000_0000
    ensures |b| == 4
  {
    [(n % 0x100) as byte, (n / 0x100 % 0x100) as byte, (n / 0x1_0000 % 0x100) as byte, (n / 0x100_0000) as byte]
  }

  function FromLittleEndian(b: seq<byte>): (n: nat)
    requires |b| == 4
    ensures n < 0x1_0000_0000
  {
    b[0] as nat + 0x100 * (b[1] as nat) + 0x1_0000 * (b[2] as nat) + 0x100_0000 * (b[3] as nat)
  }

  lemma NumberRoundTrip(n: nat)
    requires n < 0x1_0000_0000
    ensures FromLittleEndian(ToLittleEndian(n)) == n
  {
    var q1, q2, q3 := n / 0x100, n / 0x1_0000, n / 0x100_0000;
    assert q2 == q1 / 0x100 && q3 == q2 / 0x100;
    assert n == n % 0x100 + 0x100 * q1;
    assert q1 == q1 % 0x100 + 0x100 * q2;
    assert q2 == q2 % 0x100 + 0x100 * q3;
  }

  // ----- the client's bytes

  predicate KnownType(kind: byte) { kind == TYPE_ECHO || kind == TYPE_CALL }

  predicate Sendable(m: Message) {
    KnownType(m.kind) && |m.padding| == 3 && |m.body| < INT_RANGE
  }

  function Header(kind: byte, padding: seq<byte>, size: nat): (h: seq<byte>)
    requires |padding| == 3 && size < 0x1_0000_0000
    ensures |h| == HEADER_SIZE
  {
    [kind] + padding + ToLittleEndian(size)
  }

  function Frame(m: Message): seq<byte>
    requires Sendable(m)
  {
    Header(m.kind, m.padding, |m.body|) + m.body
  }

  function Frames(ms: seq<Message>): seq<byte>
    requires forall m | m in ms :: Sendable(m)
  {
    if ms == [] then [] else Frame(ms[0]) + Frames(ms[1..])
  }

  // ----- the server's reading

  /** One turn of the server's loop: it stops, or reads one message and leaves the rest of the stream. */
  datatype Turn = Stop(ending: Ending) | Skip(rest: seq<byte>) | Handle(request: Request, rest: seq<byte>)

  function NextTurn(s: seq<byte>): (turn: Turn)
    ensures turn.Stop? || |turn.rest| < |s|
  {
    if s == [] then Stop(Closed)
    else if |s| < HEADER_SIZE then Stop(ShortHeader)
    else if !KnownType(s[0]) then Stop(BadType)
    else
      var size, rest := FromLittleEndian(s[4..8]), s[HEADER_SIZE..];
      if size >= INT_RANGE then Stop(BadSize)
      else if size == 0 then Skip(rest)
      else if |rest| < size then Skip([])
      else Handle(Request(s[0], rest[..size]), rest[size..])
  }

  /** The server's loop on a stream of bytes that ends. */
  function Parse(s: seq<byte>): Outcome
    decreases |s|
  {
    match NextTurn(s)
    case Stop(ending) => Outcome([], ending)
    case Skip(rest) => Parse(rest)
    case Handle(request, rest) => Outcome([request] + Parse(rest).requests, Parse(rest).ending)
  }

  /** What the server should see: types and bodies, without the empty ones. */
  function Requests(ms: seq<Message>): seq<Request> {
    if ms == [] then []
    else (if ms[0].body == [] then [] else [Request(ms[0].kind, ms[0].body)]) + Requests(ms[1..])
  }

  lemma ParseFrame(m: Message, rest: seq<byte>)
    requires Sendable(m)
    ensures var tail := Parse(rest);
      Parse(Frame(m) + rest) ==
      if m.body == [] then tail else Outcome([Request(m.kind, m.body)] + tail.requests, tail.ending)
  {
    var s := Frame(m) + rest;
    NumberRoundTrip(|m.body|);
    assert s[4..8] == ToLittleEndian(|m.body|);
    assert s[HEADER_SIZE..] == m.body + rest;
    assert (m.body + rest)[..|m.body|] == m.body;
    assert (m.body + rest)[|m.body|..] == rest;
  }

  /** The server recovers exactly the types and bodies sent, skipping empty bodies. */
  lemma {:induction false} RoundTrip(ms: seq<Message>)
    requires forall m | m in ms :: Sendable(m)
    ensures Parse(Frames(ms)) == Outcome(Requests(ms), Closed)
  {
    if ms != [] {
      RoundTrip(ms[1..]);
      ParseFrame(ms[0], Frames(ms[1..]));
    }
  }

  /** Where the fields of a message lie in its bytes; the length is least significant byte first. */
  lemma FrameLayout(m: Message)
    requires Sendable(m)
    ensures var f := Frame(m);
      |f| == 8 + |m.body| && f[0] == m.kind && f[1..4] == m.padding && f[8..] == m.body &&
      |m.body| == f[4] as int + 256 * (f[5] as int + 256 * (f[6] as int + 256 * f[7] as int))
  {
    NumberRoundTrip(|m.body|);
    assert Frame(m)[4..8] == ToLittleEndian(|m.body|);
  }

  /** The length field of any header, valid or not. */
  function SizeField(s: seq<byte>): nat
    requires |s| >= 8
  {
    s[4] as nat + 256 * (s[5] as nat + 256 * (s[6] as nat + 256 * s[7] as nat))
  }

  /** One turn on any stream: which header stops the server, which message is passed over, which one handled. */
  lemma TurnOnAnyStream(s: seq<byte>)
    ensures s == [] ==> Parse(s) == Outcome([], Closed)
    ensures 0 < |s| < 8 ==> Parse(s) == Outcome([], ShortHeader)
    ensures |s| >= 8 && s[0] != 1 && s[0] != 2 ==> Parse(s) == Outcome([], BadType)
    ensures |s| >= 8 && (s[0] == 1 || s[0] == 2) && SizeField(s) > 0x7FFF_FFFF ==> Parse(s) == Outcome([], BadSize)
    ensures |s| >= 8 && (s[0] == 1 || s[0] == 2) && SizeField(s) == 0 ==> Parse(s) == Parse(s[8..])
    ensures |s| >= 8 && (s[0] == 1 || s[0] == 2) && |s| - 8 < SizeField(s) <= 0x7FFF_FFFF ==>
              Parse(s) == Outcome([], Closed)
    ensures |s| >= 8 && (s[0] == 1 || s[0] == 2) && 0 < SizeField(s) <= 0x7FFF_FFFF && SizeField(s) <= |s| - 8 ==>
              Parse(s).requests == [Request(s[0], s[8..8 + SizeField(s)])] + Parse(s[8 + SizeField(s)..]).requests &&
              Parse(s).ending == Parse(s[8 + SizeField(s)..]).ending
  {
    if |s| >= 8 {
      assert FromLittleEndian(s[4..8]) == SizeField(s);
      if SizeField(s) <= |s| - 8 {
        assert s[8..][..SizeField(s)] == s[8..8 + SizeField(s)] && s[8..][SizeField(s)..] == s[8 + SizeField(s)..];
      }
    }
  }

  /** The server never handles an empty body, whatever is sent. */
  lemma {:induction false} NoEmptyRequests(s: seq<byte>)
    ensures forall r | r in Parse(s).requests :: r.body != [] && (r.kind == 1 || r.kind == 2)
    decreases |s|
  {
    match NextTurn(s)
    case Stop(_) =>
    case Skip(rest) => NoEmptyRequests(rest);
    case Handle(_, rest) => NoEmptyRequests(rest);
  }

  /** One message that is cut off is dropped: nothing of it is handled. */
  lemma CutFrame(m: Message, k: nat)
    requires Sendable(m) && k < |Frame(m)|
    ensures Parse(Frame(m)[..k]) == Outcome([], if 0 < k < HEADER_SIZE then ShortHeader else Closed)
  {
    var s := Frame(m)[..k];
    if k >= HEADER_SIZE {
      NumberRoundTrip(|m.body|);
      assert s[4..8] == ToLittleEndian(|m.body|);
      assert NextTurn(s) == Skip([]);
    }
  }

  lemma CutConcat(f: seq<byte>, rest: seq<byte>, k: nat)
    requires k <= |f| + |rest|
    ensures (f + rest)[..k] == if k < |f| then f[..k] else f + rest[..k - |f|]
  {
  }

  /** Wherever the stream is cut, whole messages are handled, in order, and nothing is misread as a header. */
  lemma {:induction false} CutStream(ms: seq<Message>, k: nat)
    requires forall m | m in ms :: Sendable(m)
    requires k <= |Frames(ms)|
    ensures Parse(Frames(ms)[..k]).requests <= Requests(ms)
    ensures !Parse(Frames(ms)[..k]).ending.BadType? && !Parse(Frames(ms)[..k]).ending.BadSize?
  {
    if ms == [] {
      assert Frames(ms)[..k] == [];
    } else {
      var f, rest := Frame(ms[0]), Frames(ms[1..]);
      CutConcat(f, rest, k);
      if k < |f| {
        CutFrame(ms[0], k);
      } else {
        CutStream(ms[1..], k - |f|);
        ParseFrame(ms[0], rest[..k - |f|]);
      }
    }
  }

  /** What the n-th command writes to the connection, which is its standard output while it runs. */
  type Run = (nat, seq<byte>) -> seq<byte>

  /** What goes back to the client: the body of an ECHO request, the output of the command of a CALL request. */
  function Reply(n: nat, r: Request, run: Run): seq<byte> {
    if r.kind == TYPE_ECHO then r.body
    else if r.kind == TYPE_CALL then run(n, UpToNul(r.body, 0))
    else []
  }

  function Replies(rs: seq<Request>, run: Run): seq<byte> {
    if rs == [] then []
    else
      var last := |rs| - 1;
      Replies(rs[..last], run) + Reply(last, rs[last], run)
  }

  lemma {:induction false} EchoesAreBodies(rs: seq<Request>, run: Run)
    requires forall r | r in rs :: r.kind == TYPE_ECHO
    ensures Replies(rs, run) == Bodies(rs)
  {
    if rs != [] {
      EchoesAreBodies(rs[..|rs| - 1], run);
      BodiesSnoc(rs[..|rs| - 1], rs[|rs| - 1]);
      assert rs == rs[..|rs| - 1] + [rs[|rs| - 1]];
    }
  }

  /** The bodies, one behind the other. */
  function Bodies(rs: seq<Request>): seq<byte> {
    if rs == [] then [] else rs[0].body + Bodies(rs[1..])
  }

  lemma {:induction false} BodiesSnoc(rs: seq<Request>, r: Request)
    ensures Bodies(rs + [r]) == Bodies(rs) + r.body
    decreases |rs|
  {
    if rs == [] {
      assert [r][1..] == [];
    } else {
      BodiesSnoc(rs[1..], r);
      assert (rs + [r])[1..] == rs[1..] + [r];
      Regroup(rs[0].body, Bodies(rs[1..]), r.body);
    }
  }

  lemma CommandText(body: seq<byte>, k: nat)
    requires k <= |body| && 0 !in body[..k] && (k < |body| ==> body[k] == 0)
    ensures UpToNul(body, 0) == body[..k]
  {
  }

  /** An ECHO request adds its body to what goes back, and runs no command. */
  lemma EchoAdds(rs: seq<Request>, r: Request, run: Run)
    requires r.kind == 1
    ensures Replies(rs + [r], run) == Replies(rs, run) + r.body
  {
    assert (rs + [r])[..|rs|] == rs;
  }

  /** The n-th request, if a CALL, adds the output of the n-th command: the body up to its first NUL. */
  lemma CallAdds(rs: seq<Request>, r: Request, run: Run, k: nat)
    requires r.kind == 2 && k <= |r.body| && 0 !in r.body[..k] && (k < |r.body| ==> r.body[k] == 0)
    ensures Replies(rs + [r], run) == Replies(rs, run) + run(|rs|, r.body[..k])
  {
    assert (rs + [r])[..|rs|] == rs;
    CommandText(r.body, k);
  }

  // ----- the client's input

  /** What is typed at the prompt: a number, and a line, which is only read when the number is a type. */
  datatype Entry = Entry(kind: int, padding: seq<byte>, line: seq<byte>)

  predicate KnownEntry(e: Entry) { e.kind == TYPE_CALL as int || e.kind == TYPE_ECHO as int }

  /** fgets leaves at most 1023 characters; the padding is whatever the stack held. */
  predicate Typed(e: Entry) {
    |e.padding| == 3 && |e.line| < INBUF_SIZE && 0 !in e.line
  }

  function WithoutNewline(line: seq<byte>): (text: seq<byte>)
    ensures text <= line
  {
    if line != [] && line[|line| - 1] == NEWLINE then line[..|line| - 1] else line
  }

  function MessageOf(e: Entry): (m: Message)
    requires Typed(e) && KnownEntry(e)
    ensures Sendable(m)
  {
    Message(e.kind as byte, e.padding, WithoutNewline(e.line))
  }

  /** The messages of a session: entries with another number are asked for again. */
  function Messages(es: seq<Entry>): (ms: seq<Message>)
    requires forall e | e in es :: Typed(e)
    ensures forall m | m in ms :: Sendable(m)
  {
    if es == [] then []
    else (if KnownEntry(es[0]) then [MessageOf(es[0])] else []) + Messages(es[1..])
  }

  // ----- the client's code

  /** fgets, for a line that fits. */
  method FillInput(inbuf: array<byte>, line: seq<byte>)
    requires |line| < inbuf.Length && 0 !in line
    modifies inbuf
    ensures IsText(inbuf[..], line, 0)
  {
    forall i | 0 <= i < |line| {
      inbuf[i] := line[i];
    }
    inbuf[|line|] := 0;
    assert inbuf[..|line|] == line;
  }

  /** The end of DoInput: the newline that fgets has kept is cut off; the length is what goes into the header. */
  method TrimInput(inbuf: array<byte>, ghost line: seq<byte>) returns (size: nat)
    requires IsText(inbuf[..], line, 0)
    modifies inbuf
    ensures IsText(inbuf[..], WithoutNewline(line), 0) && size == |WithoutNewline(line)|
  {
    var len := StrLen(inbuf, 0, line);
    if len > 0 {
      if inbuf[len - 1] == NEWLINE {
        inbuf[len - 1] := 0;
      }
    }
    ghost var trimmed := WithoutNewline(line);
    assert inbuf[..|trimmed|] == trimmed;
    size := StrLen(inbuf, 0, trimmed);
  }

  /** The header for a message whose padding is already there. */
  method FillHeader(header: array<byte>, kind: byte, size: nat)
    requires header.Length == HEADER_SIZE && size < 0x1_0000_0000
    modifies header
    ensures header[..] == Header(kind, old(header[1..4]), size)
  {
    header[0] := kind;
    var length := ToLittleEndian(size);
    header[4], header[5], header[6], header[7] := length[0], length[1], length[2], length[3];
  }

  /** The client's two writes: first the header, then the body. */
  method SendMessage(output: OutStream, header: array<byte>, inbuf: array<byte>, ghost m: Message)
    requires header != inbuf && header.Length == HEADER_SIZE && Full !in output.script
    requires Sendable(m) && header[..] == Header(m.kind, m.padding, |m.body|) && IsText(inbuf[..], m.body, 0)
    modifies output
    ensures output.written == old(output.written) + Frame(m) && Full !in output.script
  {
    var sent := WriteCount(output, header, HEADER_SIZE);
    var size := StrLen(inbuf, 0, m.body);
    sent := WriteCount(output, inbuf, size);
  }

  // ----- the server's code

  /** The header and body of the next message, for every fragmentation of the reads. */
  method ReadMessage(input: InStream) returns (turn: Turn)
    modifies input
    ensures turn == NextTurn(old(input.pending))
    ensures !turn.Stop? ==> input.pending == turn.rest
  {
    ghost var s := input.pending;
    var pto := new byte[HEADER_SIZE];
    var cnt := ReadCount(input, pto, HEADER_SIZE);
    if cnt <= 0 {
      return Stop(Closed);
    }
    if cnt != HEADER_SIZE {
      return Stop(ShortHeader);
    }
    assert pto[..] == s[..HEADER_SIZE];
    assert pto[4..8] == s[4..8];
    if pto[0] != TYPE_ECHO && pto[0] != TYPE_CALL {
      return Stop(BadType);
    }
    var size := FromLittleEndian(pto[4..8]);
    if size >= INT_RANGE {
      return Stop(BadSize);
    }
    if size == 0 {
      return Skip(input.pending);
    }
    var tmp := new byte[size + 1];
    cnt := ReadCount(input, tmp, size);
    if cnt != size {
      return Skip([]);
    }
    return Handle(Request(pto[0], tmp[..size]), input.pending);
  }

  /** The outcome when `done` has been handled and `s` is still to come. */
  function Resume(done: seq<Request>, s: seq<byte>): Outcome {
    Outcome(done + Parse(s).requests, Parse(s).ending)
  }

  lemma ResumeTurn(done: seq<Request>, s: seq<byte>)
    ensures match NextTurn(s)
            case Stop(ending) => Resume(done, s) == Outcome(done, ending)
            case Skip(rest) => Resume(done, s) == Resume(done, rest)
            case Handle(request, rest) => Resume(done, s) == Resume(done + [request], rest)
  {
    match NextTurn(s)
    case Stop(_) =>
    case Skip(_) =>
    case Handle(request, rest) =>
      assert done + ([request] + Parse(rest).requests) == (done + [request]) + Parse(rest).requests;
  }

  /** The replies to `done` have been written behind `start`. */
  ghost predicate Replied(start: seq<byte>, written: seq<byte>, done: seq<Request>, run: Run) {
    written == start + Replies(done, run)
  }

  lemma RepliedMore(start: seq<byte>, written: seq<byte>, done: seq<Request>, r: Request, run: Run)
    requires Replied(start, written, done, run)
    ensures Replied(start, written + Reply(|done|, r, run), done + [r], run)
  {
    assert (done + [r])[..|done|] == done;
    Regroup(start, Replies(done, run), Reply(|done|, r, run));
  }

  /**
   The server's loop. Whatever the fragmentation, it handles what `Parse` says, and it
   writes back the bodies of the ECHO requests and the output of the CALL requests.
   */
  method DoReadWrite(input: InStream, output: OutStream, run: Run) returns (outcome: Outcome)
    requires Full !in output.script
    modifies input, output
    ensures outcome == Parse(old(input.pending))
    ensures output.written == old(output.written) + Replies(outcome.requests, run)
  {
    ghost var stream, start := input.pending, output.written;
    var done: seq<Request> := [];
    while true
      invariant Full !in output.script
      invariant Resume(done, input.pending) == Parse(stream)
      invariant Replied(start, output.written, done, run)
      decreases |input.pending|
    {
      ResumeTurn(done, input.pending);
      var turn := ReadMessage(input);
      if turn.Stop? {
        return Outcome(done, turn.ending);
      }
      if turn.Handle? {
        RepliedMore(start, output.written, done, turn.request, run);
        HandleRequest(output, |done|, turn.request, run);
        done := done + [turn.request];
      }
    }
  }

  /** The n-th request. While a command runs, the connection is its output. */
  method HandleRequest(output: OutStream, n: nat, request: Request, run: Run)
    requires Full !in output.script
    modifies output
    ensures output.written == old(output.written) + Reply(n, request, run) && Full !in output.script
  {
    if request.kind == TYPE_ECHO {
      EchoBody(output, request.body);
    } else if request.kind == TYPE_CALL {
      output.written := output.written + run(n, UpToNul(request.body, 0));
    }
  }

  method EchoBody(output: OutStream, body: seq<byte>)
    requires Full !in output.script
    modifies output
    ensures output.written == old(output.written) + body && Full !in output.script
  {
    var tmp := new byte[|body|](i requires 0 <= i < |body| => body[i]);
    assert tmp[..] == body;
    var sent := WriteCount(output, tmp, |body|);
  }

  // ----- both ends together

  /** The frames of the entries from `i` on. */
  function Remaining(es: seq<Entry>, i: nat): seq<byte>
    requires i <= |es| && forall e | e in es :: Typed(e)
  {
    Frames(Messages(es[i..]))
  }

  function FrameOf(e: Entry): seq<byte>
    requires Typed(e)
  {
    if KnownEntry(e) then Frame(MessageOf(e)) else []
  }

  lemma RemainingStep(es: seq<Entry>, i: nat)
    requires i < |es| && forall e | e in es :: Typed(e)
    ensures Remaining(es, i) == FrameOf(es[i]) + Remaining(es, i + 1)
  {
    var rest := Messages(es[i + 1..]);
    assert es[i..][1..] == es[i + 1..];
    if KnownEntry(es[i]) {
      assert Messages(es[i..]) == [MessageOf(es[i])] + rest;
    } else {
      assert Messages(es[i..]) == rest;
    }
  }

  /** What has been written and what is still to come make up the session. */
  ghost predicate Session(written: seq<byte>, es: seq<Entry>, i: nat, all: seq<byte>)
    requires i <= |es| && forall e | e in es :: Typed(e)
  {
    written + Remaining(es, i) == all
  }

  lemma SessionStep(written: seq<byte>, es: seq<Entry>, i: nat, all: seq<byte>)
    requires i < |es| && (forall e | e in es :: Typed(e)) && Session(written, es, i, all)
    ensures Session(written + FrameOf(es[i]), es, i + 1, all)
  {
    RemainingStep(es, i);
    Regroup(written, FrameOf(es[i]), Remaining(es, i + 1));
  }

  lemma SessionEnds(written: seq<byte>, es: seq<Entry>, all: seq<byte>)
    requires (forall e | e in es :: Typed(e)) && Session(written, es, |es|, all)
    ensures written == all
  {
    assert es[|es|..] == [];
  }

  /** One entry: nothing is sent for an unknown number, else the frame of its message. */
  method SendEntry(output: OutStream, inbuf: array<byte>, e: Entry)
    requires Typed(e) && inbuf.Length == INBUF_SIZE && Full !in output.script
    modifies output, inbuf
    ensures Full !in output.script
    ensures output.written == old(output.written) + FrameOf(e)
  {
    if e.kind != TYPE_CALL as int && e.kind != TYPE_ECHO as int {
      return;
    }
    FillInput(inbuf, e.line);
    var size := TrimInput(inbuf, e.line);
    var pto := new byte[HEADER_SIZE](i requires 0 <= i < HEADER_SIZE => if 1 <= i < 4 then e.padding[i - 1] else 0);
    assert pto[1..4] == e.padding;
    FillHeader(pto, e.kind as byte, size);
    SendMessage(output, pto, inbuf, MessageOf(e));
  }

  /** The client's main loop over what is typed. */
  method SendAll(output: OutStream, es: seq<Entry>)
    requires Full !in output.script && forall e | e in es :: Typed(e)
    modifies output
    ensures output.written == old(output.written) + Frames(Messages(es))
  {
    var inbuf := new byte[INBUF_SIZE](_ => 0);
    ghost var start := output.written;
    ghost var all := start + Frames(Messages(es));
    assert es[0..] == es;
    for i := 0 to |es|
      invariant Full !in output.script
      invariant Session(output.written, es, i, all)
    {
      SessionStep(output.written, es, i, all);
      SendEntry(output, inbuf, es[i]);
    }
    SessionEnds(output.written, es, all);
  }

  /**
   Client, stream and server, for every fragmentation of the writes and of the reads: what
   was typed, without newlines and empty lines, is what the server handles.
   */
  method Exchange(es: seq<Entry>, writes: seq<WriteEvent>, reading: seq<ReadEvent>, run: Run)
    returns (outcome: Outcome, replies: seq<byte>)
    requires Full !in writes && forall e | e in es :: Typed(e)
    ensures outcome == Outcome(Requests(Messages(es)), Closed)
    ensures replies == Replies(Requests(Messages(es)), run)
  {
    var upstream := new OutStream(writes);
    SendAll(upstream, es);
    assert [] + Frames(Messages(es)) == Frames(Messages(es));
    var input := new InStream(upstream.written, reading);
    var downstream := new OutStream([]);
    outcome := DoReadWrite(input, downstream, run);
    replies := downstream.written;
    RoundTrip(Messages(es));
  }

  /** The requests, straight from what is typed. */
  lemma {:induction false} RequestsOfEntries(es: seq<Entry>)
    requires forall e | e in es :: Typed(e) && KnownEntry(e) && WithoutNewline(e.line) != []
    ensures |Requests(Messages(es))| == |es|
    ensures forall i | 0 <= i < |es| :: KnownEntry(es[i]) &&
              Requests(Messages(es))[i] == Request(es[i].kind as byte, WithoutNewline(es[i].line))
  {
    if es != [] {
      RequestsOfEntries(es[1..]);
      assert Messages(es)[1..] == Messages(es[1..]);
    }
  }

  /** A line loses its newline and nothing else; entries with another number leave no trace. */
  lemma WhatIsTyped(text: seq<byte>)
    ensures WithoutNewline(text + [10]) == text
    ensures text == [] || text[|text| - 1] != 10 ==> WithoutNewline(text) == text
  {
  }

  /** Any line that fgets can leave may be typed: up to 1023 characters, without NUL. */
  lemma AnythingMayBeTyped(e: Entry)
    requires |e.padding| == 3
    ensures Typed(e) <==> |e.line| <= 1023 && 0 !in e.line
  {
  }

  lemma {:induction false} UnknownLeavesNoTrace(a: seq<Entry>, e: Entry, b: seq<Entry>)
    requires Typed(e) && (forall x | x in a :: Typed(x)) && (forall x | x in b :: Typed(x))
    requires e.kind != 1 && e.kind != 2
    ensures Messages(a + [e] + b) == Messages(a + b)
    decreases |a|
  {
    if a == [] {
      assert ([] + [e] + b)[1..] == b && [] + b == b;
    } else {
      UnknownLeavesNoTrace(a[1..], e, b);
      assert (a + [e] + b)[1..] == a[1..] + [e] + b && (a + b)[1..] == a[1..] + b;
    }
  }

  /** The lines that were typed for ECHO, without their newlines, one behind the other. */
  function Texts(es: seq<Entry>): seq<byte> {
    if es == [] then [] else WithoutNewline(es[0].line) + Texts(es[1..])
  }

  lemma RequestsOfFirst(e: Entry, es: seq<Entry>)
    requires Typed(e) && e.kind == 1 && forall x | x in es :: Typed(x)
    ensures var text, rest := WithoutNewline(e.line), Requests(Messages(es));
      Requests(Messages([e] + es)) == (if text == [] then [] else [Request(TYPE_ECHO, text)]) + rest
  {
    assert ([e] + es)[1..] == es;
    assert Messages([e] + es)[1..] == Messages(es);
  }

  lemma BodiesOfFirst(text: seq<byte>, rest: seq<Request>)
    ensures Bodies((if text == [] then [] else [Request(TYPE_ECHO, text)]) + rest) == text + Bodies(rest)
  {
    if text == [] {
      assert [] + rest == rest;
    } else {
      assert ([Request(TYPE_ECHO, text)] + rest)[1..] == rest;
    }
  }

  lemma {:induction false} BodiesAreTexts(es: seq<Entry>)
    requires forall e | e in es :: Typed(e) && e.kind == 1
    ensures Bodies(Requests(Messages(es))) == Texts(es)
    ensures forall r | r in Requests(Messages(es)) :: r.kind == TYPE_ECHO
  {
    if es != [] {
      BodiesAreTexts(es[1..]);
      RequestsOfFirst(es[0], es[1..]);
      BodiesOfFirst(WithoutNewline(es[0].line), Requests(Messages(es[1..])));
      assert es == [es[0]] + es[1..];
    }
  }

  /** A session of ECHO lines gets exactly its texts back, for every fragmentation, and runs no command. */
  method EchoSession(es: seq<Entry>, writes: seq<WriteEvent>, reading: seq<ReadEvent>, run: Run)
    returns (replies: seq<byte>)
    requires Full !in writes && forall e | e in es :: Typed(e) && e.kind == 1
    ensures replies == Texts(es)
  {
    var outcome;
    outcome, replies := Exchange(es, writes, reading, run);
    BodiesAreTexts(es);
    EchoesAreBodies(outcome.requests, run);
  }
}
