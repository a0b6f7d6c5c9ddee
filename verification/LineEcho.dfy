/** Splitting a stream into lines with successive calls of ReadLine, as the echo servers do. */
module LineEcho {
  import opened Basics
  import opened StreamIO

  /** The pieces that ReadLine returns until it reports the end of the stream or fails. */
  function Pieces(s: seq<byte>, size: nat): (ps: seq<seq<byte>>)
    decreases |s|
  {
    if s == [] || TooLong(s, size) then []
    else [s[..LineLength(s)]] + Pieces(s[LineLength(s)..], size)
  }

  function Concat(ps: seq<seq<byte>>): seq<byte> {
    if ps == [] then [] else ps[0] + Concat(ps[1..])
  }

  /** A line begins at position `p`. */
  predicate LineStart(s: seq<byte>, p: nat) {
    p < |s| && (p == 0 || s[p - 1] == NEWLINE)
  }

  /** Every line fits with its newline, and what follows the last newline is shorter than the buffer. */
  ghost predicate EveryLineFits(s: seq<byte>, size: nat) {
    forall p: nat | LineStart(s, p) :: !TooLong(s[p..], size)
  }

  /** A piece ends in its only newline. */
  predicate WholeLine(p: seq<byte>) {
    p != [] && p[|p| - 1] == NEWLINE && NEWLINE !in p[..|p| - 1]
  }

  lemma LineStartLater(s: seq<byte>, n: nat, p: nat)
    requires 0 < n <= |s| && s[n - 1] == NEWLINE && NEWLINE !in s[..n - 1]
    ensures LineStart(s, p) <==> p == 0 || (p >= n && LineStart(s[n..], p - n))
  {
    if 0 < p < n {
      assert s[p - 1] in s[..n - 1];
    }
  }

  lemma FitsLater(s: seq<byte>, n: nat, size: nat)
    requires 0 < n <= |s| && s[n - 1] == NEWLINE && NEWLINE !in s[..n - 1]
    ensures EveryLineFits(s, size) <==> !TooLong(s, size) && EveryLineFits(s[n..], size)
  {
    assert s[0..] == s;
    LineStartLater(s, n, 0);
    if EveryLineFits(s, size) {
      forall p: nat | LineStart(s[n..], p) ensures !TooLong(s[n..][p..], size) {
        LineStartLater(s, n, p + n);
        assert s[n..][p..] == s[p + n..];
      }
    }
    if !TooLong(s, size) && EveryLineFits(s[n..], size) {
      forall p: nat | LineStart(s, p) ensures !TooLong(s[p..], size) {
        LineStartLater(s, n, p);
        if p >= n {
          assert s[n..][p - n..] == s[p..];
        }
      }
    }
  }

  lemma FitsUnterminated(s: seq<byte>, size: nat)
    requires NEWLINE !in s
    ensures EveryLineFits(s, size) <==> s == [] || !TooLong(s, size)
  {
    assert s[0..] == s;
    if s != [] {
      assert LineStart(s, 0);
    }
  }

  /** Behind a first line that fits, the rest decides. */
  lemma FitsRest(s: seq<byte>, size: nat)
    requires s != [] && !TooLong(s, size)
    ensures EveryLineFits(s, size) <==> EveryLineFits(s[LineLength(s)..], size)
  {
    var n := LineLength(s);
    if s[n - 1] == NEWLINE {
      FitsLater(s, n, size);
    } else {
      assert s == s[..n - 1] + [s[n - 1]];
      FitsUnterminated(s, size);
    }
  }

  lemma SameHead(head: seq<byte>, a: seq<byte>, b: seq<byte>)
    ensures head + a == head + b <==> a == b
    ensures a <= b ==> head + a <= head + b
  {
    if head + a == head + b {
      assert a == (head + a)[|head|..] && b == (head + b)[|head|..];
    }
  }

  /** The pieces make up the whole stream exactly when every line fits; else they are a proper prefix. */
  lemma {:induction false} PiecesRebuildIff(s: seq<byte>, size: nat)
    ensures Concat(Pieces(s, size)) == s <==> EveryLineFits(s, size)
    ensures Concat(Pieces(s, size)) <= s
    decreases |s|
  {
    if s == [] {
    } else if TooLong(s, size) {
      assert s[0..] == s;
      assert LineStart(s, 0);
    } else {
      var n := LineLength(s);
      var rest := Pieces(s[n..], size);
      PiecesRebuildIff(s[n..], size);
      FitsRest(s, size);
      SameHead(s[..n], Concat(rest), s[n..]);
      assert s == s[..n] + s[n..] && Pieces(s, size) == [s[..n]] + rest;
    }
  }

  lemma NotTooLongFits(s: seq<byte>, size: nat)
    requires !TooLong(s, size)
    ensures LineLength(s) <= size
  {
  }

  /** Every piece but possibly the last ends in its only newline; the last may also be an unterminated line. */
  lemma {:induction false} PiecesAreLines(s: seq<byte>, size: nat, i: nat)
    requires i < |Pieces(s, size)|
    ensures var p := Pieces(s, size)[i];
      p != [] && |p| <= size && (WholeLine(p) || (i == |Pieces(s, size)| - 1 && NEWLINE !in p))
    decreases |s|
  {
    var n := LineLength(s);
    var rest := Pieces(s[n..], size);
    if i > 0 {
      PiecesAreLines(s[n..], size, i - 1);
    } else {
      assert s[..n][..n - 1] == s[..n - 1];
      assert s[..n] == s[..n - 1] + [s[n - 1]];
      NotTooLongFits(s, size);
    }
  }

  /** One turn of the echo loop: the next piece is read and written back. */
  method EchoOne(input: InStream, output: OutStream, buf: array<byte>, size: nat) returns (cnt: int)
    requires size <= buf.Length && Full !in output.script
    modifies input, output, buf
    ensures Full !in output.script
    ensures cnt <= 0 <==> old(input.pending) == [] || TooLong(old(input.pending), size)
    ensures cnt <= 0 ==> output.written == old(output.written)
    ensures cnt > 0 ==> cnt == LineLength(old(input.pending)) && input.pending == old(input.pending)[cnt..]
    ensures cnt > 0 ==> output.written == old(output.written) + old(input.pending)[..cnt]
  {
    cnt := ReadLine(input, buf, size);
    if cnt > 0 {
      var sent := WriteCount(output, buf, cnt);
    }
  }

  /**
   The echo loop: reads lines into a buffer and writes each back. Whatever the
   fragmentation, it echoes the pieces, as long as the peer takes what is written.
   */
  method EchoLines(input: InStream, output: OutStream, buf: array<byte>, size: nat)
    requires size <= buf.Length && Full !in output.script
    modifies input, output, buf
    ensures output.written == old(output.written) + Concat(Pieces(old(input.pending), size))
  {
    ghost var stream, start := input.pending, output.written;
    while true
      invariant Full !in output.script
      invariant output.written + Concat(Pieces(input.pending, size)) == start + Concat(Pieces(stream, size))
      decreases |input.pending|
    {
      ghost var rest, before := input.pending, output.written;
      var cnt := EchoOne(input, output, buf, size);
      if cnt <= 0 {
        ConcatNothing(before);
        break;
      }
      ConcatStep(before, rest, cnt, size);
    }
  }

  lemma ConcatStep(before: seq<byte>, rest: seq<byte>, cnt: nat, size: nat)
    requires rest != [] && !TooLong(rest, size) && cnt == LineLength(rest)
    ensures before + Concat(Pieces(rest, size)) == before + rest[..cnt] + Concat(Pieces(rest[cnt..], size))
  {
    assert Pieces(rest, size)[1..] == Pieces(rest[cnt..], size);
  }

  lemma ConcatNothing(start: seq<byte>)
    ensures start + Concat([]) == start
  {
  }
}
