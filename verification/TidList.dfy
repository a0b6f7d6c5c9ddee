/** The thread pool's `tid_list`: one slot a worker, 0 marks an unused slot. */
module TidList {

  /** The first slot holding `v`, -1 when there is none. */
  function IndexOf(tids: seq<nat>, v: nat): (idx: int)
    ensures -1 <= idx < |tids|
    ensures idx >= 0 ==> tids[idx] == v && v !in tids[..idx]
    ensures idx == -1 <==> v !in tids
  {
    if tids == [] then -1
    else if tids[0] == v then 0
    else
      var rest := IndexOf(tids[1..], v);
      assert tids == [tids[0]] + tids[1..];
      if rest < 0 then -1
      else
        assert tids[..rest + 1] == [tids[0]] + tids[1..][..rest];
        rest + 1
  }

  /** The thread identifiers that own a slot. */
  function Owners(tids: seq<nat>): set<nat> {
    (set v | v in tids) - {0}
  }

  /** No thread owns two slots. */
  ghost predicate Exclusive(tids: seq<nat>) {
    forall i, j | 0 <= i < j < |tids| && tids[i] != 0 :: tids[i] != tids[j]
  }

  lemma {:induction false} ExclusiveOwnersCount(tids: seq<nat>)
    requires Exclusive(tids) && 0 !in tids
    ensures |Owners(tids)| == |tids|
  {
    if tids != [] {
      var last := |tids| - 1;
      ExclusiveOwnersCount(tids[..last]);
      assert tids == tids[..last] + [tids[last]];
      assert tids[last] !in tids[..last];
      assert Owners(tids) == Owners(tids[..last]) + {tids[last]};
    }
  }

  /** With fewer owners than slots, GetUnusedTidIdx finds a slot. */
  lemma FreeSlotExists(tids: seq<nat>)
    requires Exclusive(tids) && |Owners(tids)| < |tids|
    ensures IndexOf(tids, 0) >= 0
  {
    if 0 !in tids {
      ExclusiveOwnersCount(tids);
    }
  }

  lemma SlotTaken(tids: seq<nat>, idx: nat, t: nat)
    requires idx < |tids| && tids[idx] == 0 && t != 0 && t !in tids
    requires Exclusive(tids)
    ensures Exclusive(tids[idx := t])
    ensures Owners(tids[idx := t]) == Owners(tids) + {t}
  {
    var taken := tids[idx := t];
    forall v | v in Owners(tids) + {t} ensures v in Owners(taken) {
      if v == t {
        assert taken[idx] == t;
      } else {
        var i :| 0 <= i < |tids| && tids[i] == v;
        assert taken[i] == v;
      }
    }
  }

  lemma SlotFreed(tids: seq<nat>, idx: nat)
    requires idx < |tids| && tids[idx] != 0
    requires Exclusive(tids)
    ensures Exclusive(tids[idx := 0])
    ensures Owners(tids[idx := 0]) == Owners(tids) - {tids[idx]}
  {
    var freed := tids[idx := 0];
    forall v | v in Owners(tids) - {tids[idx]} ensures v in Owners(freed) {
      var i :| 0 <= i < |tids| && tids[i] == v;
      assert freed[i] == v;
    }
    forall v | v in Owners(freed) ensures v in Owners(tids) - {tids[idx]} {
      var i :| 0 <= i < |freed| && freed[i] == v;
      assert tids[i] == v;
    }
  }
}
