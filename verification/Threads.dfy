/**
 Thread tables. Every protocol of this project keeps a map from thread identifiers to
 program counters; its invariants count the threads that are at a given point. This
 module says how those counts change when one thread moves, when a thread leaves, and
 when a signal moves a set of sleepers.
 */
module Threads {

  /** The threads of `m` whose program counter satisfies `at`. */
  function Where<P(!new)>(m: map<nat, P>, at: P -> bool): set<nat> {
    set t | t in m && at(m[t])
  }

  function Count<P(!new)>(m: map<nat, P>, at: P -> bool): nat {
    |Where(m, at)|
  }

  /** 1 when thread `t` is present and at the point, 0 otherwise. */
  function Here<P>(m: map<nat, P>, t: nat, at: P -> bool): nat {
    if t in m && at(m[t]) then 1 else 0
  }

  /** `signal` on a condition: a set of its sleepers, not empty when somebody sleeps. */
  predicate SignalOk(woken: set<nat>, sleepers: set<nat>) {
    woken <= sleepers && (sleepers != {} ==> woken != {})
  }

  /** One thread moves to `pc` (or appears there). */
  lemma CountMove<P(!new)>(m: map<nat, P>, t: nat, pc: P, at: P -> bool)
    ensures Where(m[t := pc], at) == if at(pc) then Where(m, at) + {t} else Where(m, at) - {t}
    ensures Count(m[t := pc], at) == Count(m, at) - Here(m, t, at) + if at(pc) then 1 else 0
  {
    assert Where(m[t := pc], at) == if at(pc) then Where(m, at) + {t} else Where(m, at) - {t};
  }

  /** One thread leaves the table. */
  lemma CountLeave<P(!new)>(m: map<nat, P>, t: nat, at: P -> bool)
    ensures Where(m - {t}, at) == Where(m, at) - {t}
    ensures Count(m - {t}, at) == Count(m, at) - Here(m, t, at)
  {
    assert Where(m - {t}, at) == Where(m, at) - {t};
  }

  /** A set of threads that were elsewhere arrives at the point, the others do not move. */
  lemma CountArrive<P(!new)>(m: map<nat, P>, m': map<nat, P>, moved: set<nat>, at: P -> bool)
    requires m'.Keys == m.Keys && moved <= m.Keys
    requires forall t | t in m :: at(m'[t]) == (at(m[t]) || t in moved)
    requires forall t | t in moved :: !at(m[t])
    ensures Where(m', at) == Where(m, at) + moved
    ensures Count(m', at) == Count(m, at) + |moved|
  {
    assert Where(m', at) == Where(m, at) + moved;
  }

  /** A set of threads leaves the point, the others do not move. */
  lemma CountDepart<P(!new)>(m: map<nat, P>, m': map<nat, P>, moved: set<nat>, at: P -> bool)
    requires m'.Keys == m.Keys && moved <= Where(m, at)
    requires forall t | t in m :: at(m'[t]) == (at(m[t]) && t !in moved)
    ensures Where(m', at) == Where(m, at) - moved
    ensures Count(m', at) == Count(m, at) - |moved|
  {
    assert Where(m', at) == Where(m, at) - moved;
    assert Where(m, at) == Where(m', at) + moved;
  }

  lemma CountPositive<P(!new)>(m: map<nat, P>, t: nat, at: P -> bool)
    requires t in m && at(m[t])
    ensures Count(m, at) >= 1
  {
    assert t in Where(m, at);
  }

  lemma CountBound<P(!new)>(m: map<nat, P>, at: P -> bool)
    ensures Count(m, at) <= |m|
  {
    SubsetSize(Where(m, at), m.Keys);
  }

  /** 0 up to, not including, `n`. */
  function Below(n: nat): (ks: set<nat>)
    ensures forall k :: k in ks <==> 0 <= k < n
  {
    if n == 0 then {} else Below(n - 1) + {n - 1}
  }

  lemma SubsetSize(a: set<nat>, b: set<nat>)
    requires a <= b
    ensures |a| <= |b|
  {
    assert b == a + (b - a);
  }
}
