/** The bounded FIFO queue of pointers: an array used as a ring. */
module RingQueue {

  /** Position `i` slots after `head` in a ring of `n`. */
  function Wrap(head: nat, i: nat, n: nat): (pos: nat)
    requires head < n && i <= n
    ensures pos < n
  {
    if head + i < n then head + i else head + i - n
  }

  /** The `size` elements of the ring from `head` on, oldest first. */
  function Unroll<T>(ring: seq<T>, head: nat, size: nat): (s: seq<T>)
    requires head < |ring| && size <= |ring|
    ensures |s| == size
  {
    seq(size, i requires 0 <= i < size => ring[Wrap(head, i, |ring|)])
  }

  lemma WrapIsMod(x: nat, n: nat)
    requires 0 < n && x <= n
    ensures x % n == if x == n then 0 else x
  {
  }

  /** Storing behind the last element appends. */
  lemma UnrollPush<T>(ring: seq<T>, head: nat, size: nat, x: T)
    requires head < |ring| && size < |ring|
    ensures Unroll(ring[Wrap(head, size, |ring|) := x], head, size + 1) == Unroll(ring, head, size) + [x]
  {
    var ring' := ring[Wrap(head, size, |ring|) := x];
    forall i | 0 <= i < size + 1
      ensures Unroll(ring', head, size + 1)[i] == (Unroll(ring, head, size) + [x])[i]
    {
    }
  }

  /** Moving the head on drops the oldest element. */
  lemma UnrollPop<T>(ring: seq<T>, head: nat, size: nat)
    requires head < |ring| && 0 < size <= |ring|
    ensures Unroll(ring, head, size)[0] == ring[head]
    ensures Unroll(ring, Wrap(head, 1, |ring|), size - 1) == Unroll(ring, head, size)[1..]
  {
    forall i | 0 <= i < size - 1
      ensures Unroll(ring, Wrap(head, 1, |ring|), size - 1)[i] == Unroll(ring, head, size)[1..][i]
    {
    }
  }

  class Queue<T(0)> {
    var head: nat
    var rear: nat
    var maxSize: nat
    var curSize: nat
    var plist: array<T>

    ghost predicate Valid()
      reads this
    {
      plist.Length == maxSize && head < maxSize && curSize <= maxSize && rear == Wrap(head, curSize, maxSize)
    }

    /** What the queue holds, oldest first. */
    ghost function Contents(): (s: seq<T>)
      requires Valid()
      reads this, plist
      ensures |s| == curSize
    {
      Unroll(plist[..], head, curSize)
    }

    constructor ()
      ensures fresh(plist)
    {
      head, rear, maxSize, curSize := 0, 0, 0, 0;
      plist := new T[0];
    }

    /** queue_init: refuses a size of 0. */
    method Initialize(size: nat) returns (ok: bool)
      modifies this
      ensures ok == (size > 0)
      ensures ok ==> Valid() && fresh(plist) && maxSize == size && Contents() == []
      ensures !ok ==> unchanged(this)
    {
      if size <= 0 {
        return false;
      }
      plist := new T[size];
      head, rear, maxSize, curSize := 0, 0, size, 0;
      return true;
    }

    method IsNotFull() returns (notFull: bool)
      requires Valid()
      ensures notFull == (|Contents()| < maxSize)
    {
      notFull := curSize < maxSize;
    }

    method IsEmpty() returns (empty: bool)
      requires Valid()
      ensures empty == (Contents() == [])
    {
      empty := curSize <= 0;
    }

    method Enqueue(x: T) returns (ok: bool)
      requires Valid()
      modifies this, plist
      ensures Valid() && plist == old(plist) && maxSize == old(maxSize)
      ensures ok == (|old(Contents())| < maxSize)
      ensures Contents() == if ok then old(Contents()) + [x] else old(Contents())
    {
      ok := IsNotFull();
      if !ok {
        return;
      }
      UnrollPush(plist[..], head, curSize, x);
      WrapIsMod(rear + 1, maxSize);
      curSize := curSize + 1;
      plist[rear] := x;
      rear := (rear + 1) % maxSize;
    }

    method Dequeue() returns (ok: bool, x: T)
      requires Valid()
      modifies this
      ensures Valid() && plist == old(plist) && maxSize == old(maxSize)
      ensures ok == (old(Contents()) != [])
      ensures ok ==> [x] + Contents() == old(Contents())
      ensures !ok ==> Contents() == old(Contents())
    {
      var empty := IsEmpty();
      ok := !empty;
      if empty {
        x := *;
        return;
      }
      UnrollPop(plist[..], head, curSize);
      WrapIsMod(head + 1, maxSize);
      curSize := curSize - 1;
      x := plist[head];
      head := (head + 1) % maxSize;
    }
  }
}
