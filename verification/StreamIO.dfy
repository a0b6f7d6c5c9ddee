/**
 Blocking loops around read and write (wrap.c). A stream carries the bytes that are still
 to be delivered and a finite script of what the next system calls do: how much they move
 at most, or that they are interrupted. After the script, calls move all they can. Every
 execution that ends makes finitely many calls, so every fragmentation is some script.
 */
module StreamIO {
  import opened Basics

  const NEWLINE: byte := 10

  datatype ReadEvent = ReadAgain | ReadInterrupted | Deliver(max: nat)
  datatype WriteEvent = WriteAgain | WriteInterrupted | Accept(max: nat) | Full

  /** `buf` with `data` in place of what it held from `offset` on. */
  function Splice(buf: seq<byte>, offset: nat, data: seq<byte>): seq<byte>
    requires offset + |data| <= |buf|
  {
    buf[..offset] + data + buf[offset + |data|..]
  }

  /** The reading end: all bytes until the peer closes, and the script of the kernel. */
  class InStream {
    var pending: seq<byte>
    var script: seq<ReadEvent>

    constructor (bytes: seq<byte>, script: seq<ReadEvent>)
      ensures pending == bytes && this.script == script
    {
      this.pending, this.script := bytes, script;
    }

    /** read(2): -1 for EAGAIN or EINTR, 0 at the end of the stream, else at least one byte. */
    method Read(buf: array<byte>, offset: nat, left: nat) returns (cnt: int)
      requires left > 0 && offset + left <= buf.Length
      modifies this, buf
      ensures -1 <= cnt <= left && cnt <= |old(pending)|
      ensures cnt == 0 ==> old(pending) == []
      ensures cnt <= 0 ==> pending == old(pending) && buf[..] == old(buf[..])
      ensures cnt > 0 ==> pending == old(pending)[cnt..]
      ensures cnt > 0 ==> buf[..] == Splice(old(buf[..]), offset, old(pending)[..cnt])
      ensures cnt != 0 ==> |pending| + |script| < old(|pending| + |script|)
    {
      var limit := |pending|;
      if script != [] {
        var event := script[0];
        script := script[1..];
        match event
        case ReadAgain => return -1;
        case ReadInterrupted => return -1;
        case Deliver(max) => limit := if max == 0 then 1 else max;
      }
      cnt := Min(left, Min(limit, |pending|));
      forall i | 0 <= i < cnt {
        buf[offset + i] := pending[i];
      }
      pending := pending[cnt..];
    }
  }

  /** The writing end: what the kernel has taken so far. */
  class OutStream {
    var written: seq<byte>
    var script: seq<WriteEvent>

    constructor (script: seq<WriteEvent>)
      ensures written == [] && this.script == script
    {
      this.written, this.script := [], script;
    }

    /** write(2): -1 for EAGAIN or EINTR, 0 when nothing can be taken, else at least one byte. */
    method Write(buf: array<byte>, offset: nat, left: nat) returns (cnt: int)
      requires left > 0 && offset + left <= buf.Length
      modifies this
      ensures -1 <= cnt <= left
      ensures cnt < 0 ==> written == old(written)
      ensures cnt >= 0 ==> written == old(written) + buf[offset..offset + cnt]
      ensures cnt == 0 ==> Full in old(script)
      ensures cnt != 0 ==> left - (if cnt > 0 then cnt else 0) + |script| < left + |old(script)|
      ensures forall e | e in script :: e in old(script)
    {
      var limit := left;
      if script != [] {
        var event := script[0];
        script := script[1..];
        match event
        case WriteAgain => return -1;
        case WriteInterrupted => return -1;
        case Accept(max) => limit := if max == 0 then 1 else max;
        case Full => return 0;
      }
      cnt := Min(left, limit);
      written := written + buf[offset..offset + cnt];
    }
  }

  /** `index` bytes of the stream have gone to the start of the buffer; `now` and `pending` are what there is. */
  ghost predicate ReadSoFar(before: seq<byte>, stream: seq<byte>, now: seq<byte>, pending: seq<byte>, index: nat) {
    index <= |stream| && index <= |before| &&
    now == Splice(before, 0, stream[..index]) && pending == stream[index..]
  }

  lemma ReadNothing(before: seq<byte>, stream: seq<byte>)
    ensures ReadSoFar(before, stream, before, stream, 0)
  {
  }

  lemma ReadMore(before: seq<byte>, stream: seq<byte>, now: seq<byte>, pending: seq<byte>, index: nat, cnt: nat)
    requires ReadSoFar(before, stream, now, pending, index) && cnt <= |pending| && index + cnt <= |before|
    ensures |now| == |before|
    ensures ReadSoFar(before, stream, Splice(now, index, pending[..cnt]), pending[cnt..], index + cnt)
  {
  }

  /** Reads `count` bytes, or all there are before the end of the stream. */
  method ReadCount(fd: InStream, buf: array<byte>, count: nat) returns (index: nat)
    requires count <= buf.Length
    modifies fd, buf
    ensures index == Min(count, |old(fd.pending)|)
    ensures fd.pending == old(fd.pending)[index..]
    ensures buf[..] == Splice(old(buf[..]), 0, old(fd.pending)[..index])
  {
    ghost var stream, before := fd.pending, buf[..];
    var left := count;
    index := 0;
    ReadNothing(before, stream);
    while left > 0
      invariant 0 <= left <= count && index == count - left
      invariant ReadSoFar(before, stream, buf[..], fd.pending, index)
      decreases |fd.pending| + |fd.script|
    {
      ghost var now, pending := buf[..], fd.pending;
      var cnt := fd.Read(buf, index, left);
      if cnt == 0 {
        break;
      } else if cnt == -1 {
        continue;
      }
      ReadMore(before, stream, now, pending, index, cnt);
      left := left - cnt;
      index := index + cnt;
    }
  }

  /** Writes all bytes, unless the kernel reports that it takes no more. */
  method WriteCount(fd: OutStream, buf: array<byte>, count: nat) returns (index: nat)
    requires count <= buf.Length
    modifies fd
    ensures index <= count && fd.written == old(fd.written) + buf[..index]
    ensures index < count ==> Full in old(fd.script)
    ensures forall e | e in fd.script :: e in old(fd.script)
  {
    var left := count;
    index := 0;
    while left > 0
      invariant 0 <= left <= count && index == count - left
      invariant fd.written == old(fd.written) + buf[..index]
      invariant forall e | e in fd.script :: e in old(fd.script)
      decreases left + |fd.script|
    {
      var cnt := fd.Write(buf, index, left);
      if cnt == 0 {
        break;
      } else if cnt == -1 {
        continue;
      }
      assert buf[..index] + buf[index..index + cnt] == buf[..index + cnt];
      left := left - cnt;
      index := index + cnt;
    }
  }

  // ----- lines

  /** How long the first line is: up to and with its newline, or the whole of `s`. */
  function LineLength(s: seq<byte>): (n: nat)
    ensures n <= |s|
    ensures NEWLINE !in s[..if n == 0 then 0 else n - 1]
    ensures n < |s| ==> n > 0 && s[n - 1] == NEWLINE
    ensures s != [] ==> n > 0
  {
    if s == [] then 0
    else if s[0] == NEWLINE then 1
    else
      var rest := LineLength(s[1..]);
      assert rest > 0 ==> s[..rest] == [s[0]] + s[1..][..rest - 1];
      rest + 1
  }

  /** The buffer fills up before the line ends. */
  predicate TooLong(s: seq<byte>, size: nat) {
    |s| >= size && NEWLINE !in s[..size]
  }

  lemma {:induction false} LineLengthAt(s: seq<byte>, n: nat)
    requires n <= |s| && NEWLINE !in s[..n]
    requires n < |s| ==> s[n] == NEWLINE
    ensures LineLength(s) == if n < |s| then n + 1 else n
  {
    if n > 0 {
      assert s[0] in s[..n];
      assert s[1..][..n - 1] == s[..n][1..];
      LineLengthAt(s[1..], n - 1);
    }
  }

  /** The scan of `s` has met its first newline at the end of `index` bytes. */
  lemma LineFound(s: seq<byte>, index: nat, size: nat)
    requires 0 < index <= |s| && index <= size && s[index - 1] == NEWLINE && NEWLINE !in s[..index - 1]
    ensures LineLength(s) == index && !TooLong(s, size)
  {
    LineLengthAt(s, index - 1);
    if |s| >= size {
      assert s[..size][index - 1] == NEWLINE;
    }
  }

  /** The scan of `s` has met its end, and no newline. */
  lemma StreamEnded(s: seq<byte>, index: nat, size: nat)
    requires index == |s| && index < size && NEWLINE !in s[..index]
    ensures LineLength(s) == index && !TooLong(s, size)
  {
    LineLengthAt(s, index);
  }

  /** One line, -1 exactly when `size` bytes bring neither a newline nor the end of the stream. */
  method ReadLine(fd: InStream, buf: array<byte>, size: nat) returns (r: int)
    requires size <= buf.Length
    modifies fd, buf
    ensures (r == -1) == TooLong(old(fd.pending), size)
    ensures r != -1 ==> r == LineLength(old(fd.pending)) && r <= size
    ensures r != -1 ==> buf[..r] == old(fd.pending)[..r] && fd.pending == old(fd.pending)[r..]
    ensures r == -1 ==> buf[..size] == old(fd.pending)[..size] && fd.pending == old(fd.pending)[size..]
  {
    var index := 0;
    var ch := new byte[1];
    while true
      invariant 0 <= index <= size && index <= |old(fd.pending)|
      invariant fd.pending == old(fd.pending)[index..] && buf[..index] == old(fd.pending)[..index]
      invariant NEWLINE !in old(fd.pending)[..index]
      decreases |fd.pending| + |fd.script|
    {
      if index >= size {
        return -1;
      }
      var cnt := fd.Read(ch, 0, 1);
      if cnt == 0 {
        StreamEnded(old(fd.pending), index, size);
        break;
      } else if cnt == -1 {
        continue;
      }
      assert ch[..][0] == old(fd.pending)[index];
      buf[index] := ch[0];
      assert old(fd.pending)[..index + 1] == old(fd.pending)[..index] + [ch[0]];
      index := index + 1;
      if ch[0] == NEWLINE {
        LineFound(old(fd.pending), index, size);
        break;
      }
    }
    return index;
  }
}
