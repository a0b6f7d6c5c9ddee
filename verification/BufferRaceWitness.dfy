/** A run of the bounded buffer in which two calls overlap: an element is lost, and a consumer finds the queue empty. */
module BufferRaceWitness {
  import opened Basics
  import opened BufferRace
  import Atomic = BoundedBuffer

  ghost predicate Reachable(m: Memory) {
    exists trace, steps :: IsRun(trace, steps) && trace[|steps|] == m
  }

  lemma Reach(m: Memory, step: Step, m': Memory)
    requires Reachable(m) && CanStep(m, step) && m' == Apply(m, step)
    ensures Reachable(m')
  {
    var trace, steps :| IsRun(trace, steps) && trace[|steps|] == m;
    assert IsRun(trace + [m'], steps + [step]);
  }

  /** The memory with process `p` at `pc`. */
  function At(m: Memory, p: nat, pc: Pc): Memory {
    m.(procs := m.procs[p := pc])
  }

  lemma AtTwice(m: Memory, p: nat, pc: Pc, pc': Pc)
    ensures m.procs[p := pc][p := pc'] == m.procs[p := pc']
  {
  }

  /** One silent statement of a call. */
  lemma ReachCall(m: Memory, p: nat, pc: Pc, r: Ring, pc': Pc)
    requires Reachable(At(m, p, pc)) && (Inside(pc) || Enters(pc)) && !Refuses(m.ring, pc)
    requires !pc.AddStoreSize? && !pc.PopStoreSize? && RunCall(m.ring, pc) == (r, pc')
    ensures Reachable(At(m.(ring := r, placed := m.placed + PlacedBy(pc), taken := m.taken + TakenBy(pc)), p, pc'))
    ensures !pc.AddStoreRear? && !pc.PopStoreFront? ==> Reachable(At(m.(ring := r), p, pc'))
  {
    AtTwice(m, p, pc, pc');
    var m' := m.(ring := r, placed := m.placed + PlacedBy(pc), taken := m.taken + TakenBy(pc));
    Reach(At(m, p, pc), Atomic.Statement(p), At(m', p, pc'));
    if !pc.AddStoreRear? && !pc.PopStoreFront? {
      assert m' == m.(ring := r);
    }
  }

  lemma AddStarts(m: Memory, p: nat, e: Elem)
    requires Reachable(m) && p !in m.procs && m.space > 0
    ensures Reachable(At(m.(space := m.space - 1), p, AddTest(e)))
  {
    Reach(m, Atomic.Produce(p, e), At(m, p, WaitSpace(e)));
    AtTwice(m, p, WaitSpace(e), AddTest(e));
    Reach(At(m, p, WaitSpace(e)), Atomic.Statement(p), At(m.(space := m.space - 1), p, AddTest(e)));
  }

  function RingWith(r: Ring, e: Elem): Ring {
    r.(arr := r.arr[r.rear := e], rear := Next(r.rear))
  }

  /** A producer runs until it has loaded the size. */
  lemma AddUntilStore(m: Memory, p: nat, e: Elem)
    requires Reachable(m) && p !in m.procs && m.space > 0 && m.ring.size != MAX
    ensures Reachable(At(m.(space := m.space - 1, ring := RingWith(m.ring, e), placed := m.placed + [e]),
                         p, AddStoreSize(e, m.ring.size)))
  {
    AddStarts(m, p, e);
    var m0, r := m.(space := m.space - 1), m.ring;
    var r1 := r.(arr := r.arr[r.rear := e]);
    ReachCall(m0, p, AddTest(e), r, AddCopy(e));
    ReachCall(m0, p, AddCopy(e), r1, AddLoadRear(e));
    ReachCall(m0.(ring := r1), p, AddLoadRear(e), r1, AddStoreRear(e, r.rear));
    AddFromRear(m0, p, e);
  }

  lemma AddFromRear(m: Memory, p: nat, e: Elem)
    requires Reachable(At(m.(ring := m.ring.(arr := m.ring.arr[m.ring.rear := e])), p, AddStoreRear(e, m.ring.rear)))
    ensures Reachable(At(m.(ring := RingWith(m.ring, e), placed := m.placed + [e]), p, AddStoreSize(e, m.ring.size)))
  {
    var r1, r2 := m.ring.(arr := m.ring.arr[m.ring.rear := e]), RingWith(m.ring, e);
    ReachCall(m.(ring := r1), p, AddStoreRear(e, m.ring.rear), r2, AddLoadSize(e));
    ReachCall(m.(ring := r2, placed := m.placed + [e]), p, AddLoadSize(e), r2, AddStoreSize(e, m.ring.size));
  }

  /** A producer stores the size it has loaded before, and posts. */
  lemma AddEnds(m: Memory, p: nat, e: Elem, seen: Word)
    requires p in m.procs && m.procs[p] == AddStoreSize(e, seen) && seen < MAX && Reachable(m)
    ensures Reachable(m.(ring := m.ring.(size := seen + 1), added := m.added + [e], product := m.product + 1,
                         procs := m.procs - {p}))
  {
    var m1 := m.(ring := m.ring.(size := seen + 1), added := m.added + [e]);
    Reach(m, Atomic.Statement(p), At(m1, p, PostProduct));
    assert m.procs[p := PostProduct] - {p} == m.procs - {p};
    Reach(At(m1, p, PostProduct), Atomic.Statement(p), m1.(product := m.product + 1, procs := m.procs - {p}));
  }

  lemma PopStarts(m: Memory, p: nat)
    requires Reachable(m) && m.procs == map[] && m.product > 0
    ensures Reachable(m.(product := m.product - 1, procs := map[p := PopTest]))
  {
    Reach(m, Atomic.Consume(p), m.(procs := map[p := WaitProduct]));
    assert map[p := WaitProduct][p := PopTest] == map[p := PopTest];
    Reach(m.(procs := map[p := WaitProduct]), Atomic.Statement(p),
          m.(product := m.product - 1, procs := map[p := PopTest]));
  }

  /** A consumer runs until it has loaded the size. */
  lemma PopUntilStore(m: Memory, p: nat)
    requires Reachable(m) && m.procs == map[] && m.product > 0 && m.ring.size != 0
    ensures var r := m.ring;
      Reachable(At(m.(product := m.product - 1, ring := r.(front := Next(r.front)),
                      taken := m.taken + [r.arr[r.front]]), p, PopStoreSize(r.arr[r.front], r.size)))
  {
    PopStarts(m, p);
    var m0, r := m.(product := m.product - 1), m.ring;
    var e, r1 := r.arr[r.front], r.(front := Next(r.front));
    assert m0.procs[p := PopTest] == map[p := PopTest];
    ReachCall(m0, p, PopTest, r, PopCopy);
    ReachCall(m0, p, PopCopy, r, PopLoadFront(e));
    ReachCall(m0, p, PopLoadFront(e), r, PopStoreFront(e, r.front));
    ReachCall(m0, p, PopStoreFront(e, r.front), r1, PopLoadSize(e));
    ReachCall(m0.(ring := r1, taken := m.taken + [e]), p, PopLoadSize(e), r1, PopStoreSize(e, r.size));
  }

  lemma PopEnds(m: Memory, p: nat, e: Elem, seen: Word)
    requires m.procs == map[p := PopStoreSize(e, seen)] && seen > 0 && Reachable(m)
    ensures Reachable(m.(ring := m.ring.(size := seen - 1), popped := m.popped + [e], space := m.space + 1,
                         procs := map[]))
  {
    var m1 := m.(ring := m.ring.(size := seen - 1), popped := m.popped + [e]);
    assert (seen + U32_RANGE - 1) % U32_RANGE == seen - 1;
    Reach(m, Atomic.Statement(p), At(m1, p, PostSpace));
    assert m.procs[p := PostSpace] - {p} == map[];
    Reach(At(m1, p, PostSpace), Atomic.Statement(p), m1.(space := m.space + 1, procs := map[]));
  }

  /** A consumer that has waited for its product is refused. */
  lemma PopIsRefused(m: Memory, p: nat)
    requires Reachable(m) && m.procs == map[] && m.product > 0 && m.ring.size == 0
    ensures Reachable(m.(product := m.product - 1, procs := map[p := PostSpace], refused := m.refused + 1))
  {
    PopStarts(m, p);
    assert map[p := PopTest][p := PostSpace] == map[p := PostSpace];
    Reach(m.(product := m.product - 1, procs := map[p := PopTest]), Atomic.Statement(p),
          m.(product := m.product - 1, procs := map[p := PostSpace], refused := m.refused + 1));
  }

  /** Two producers load the size 0, and both store 1. */
  lemma SizeCorrupted() returns (m: Memory)
    ensures Reachable(m) && m.procs == map[] && m.product == 2 && m.ring.size == 1 && m.ring.front == 0
    ensures m.ring.arr[..2] == ["a", "b"] && m.placed == ["a", "b"] && m.taken == [] && m.refused == 0
  {
    assert IsRun([START], []);
    AddUntilStore(START, 1, "a");
    var m1 := At(START.(space := 4, ring := RingWith(START.ring, "a"), placed := ["a"]), 1, AddStoreSize("a", 0));
    AddUntilStore(m1, 2, "b");
    var m2 := At(m1.(space := 3, ring := RingWith(m1.ring, "b"), placed := ["a"] + ["b"]), 2, AddStoreSize("b", 0));
    AddEnds(m2, 2, "b", 0);
    var m3 := m2.(ring := m2.ring.(size := 1), added := ["b"], product := 1, procs := m2.procs - {2});
    AddEnds(m3, 1, "a", 0);
    m := m3.(ring := m3.ring.(size := 1), added := ["b"] + ["a"], product := 2, procs := m3.procs - {1});
    assert m.procs == map[];
  }

  /** Both elements were added, one is popped, and the consumer of the other finds the queue empty. */
  lemma OverlappingCallsLoseAnElement() returns (m: Memory)
    ensures Reachable(m) && m.refused == 1 && m.placed == ["a", "b"] && m.taken == ["a"]
    ensures m.product == 0 && m.ring.size == 0
  {
    var m0 := SizeCorrupted();
    PopUntilStore(m0, 3);
    assert m0.ring.arr[..2][0] == "a";
    var m1 := At(m0.(product := 1, ring := m0.ring.(front := 1), taken := [] + ["a"]), 3, PopStoreSize("a", 1));
    assert m1.procs == map[3 := PopStoreSize("a", 1)];
    PopEnds(m1, 3, "a", 1);
    var m2 := m1.(ring := m1.ring.(size := 0), popped := m1.popped + ["a"], space := m1.space + 1, procs := map[]);
    PopIsRefused(m2, 4);
    m := m2.(product := 0, procs := map[4 := PostSpace], refused := 1);
  }
}
