/** The k-way merge of sorted chunks, and the stable sort it is proved to compute. */
module StableMerge {

  const LONG_MAX: int := 0x7FFF_FFFF_FFFF_FFFF

  // ----- the reference: a stable sort of positions

  /** Position `p` has to stand before position `q`: smaller value, or the same value further left. */
  predicate Before(a: seq<int>, p: nat, q: nat)
    requires p < |a| && q < |a|
  {
    a[p] < a[q] || (a[p] == a[q] && p < q)
  }

  predicate Positions(a: seq<int>, src: seq<nat>) {
    forall k | 0 <= k < |src| :: src[k] < |a|
  }

  /** `src` lists all positions of `a`, strictly increasing in (value, position). */
  ghost predicate StableOrder(a: seq<int>, src: seq<nat>) {
    |src| == |a| && Positions(a, src) && forall i, j | 0 <= i < j < |src| :: Before(a, src[i], src[j])
  }

  function ValuesAt(a: seq<int>, src: seq<nat>): (vs: seq<int>)
    requires Positions(a, src)
    ensures |vs| == |src|
  {
    seq(|src|, i requires 0 <= i < |src| => a[src[i]])
  }

  /** Puts position `p` behind every listed position whose value is not larger. */
  function InsertPosition(a: seq<int>, src: seq<nat>, p: nat): seq<nat>
    requires p < |a| && Positions(a, src)
  {
    if src == [] then [p]
    else if a[src[|src| - 1]] <= a[p] then src + [p]
    else InsertPosition(a, src[..|src| - 1], p) + [src[|src| - 1]]
  }

  /** Insertion sort of the first `n` positions. */
  function StablePositions(a: seq<int>, n: nat): (src: seq<nat>)
    requires n <= |a|
    ensures Positions(a, src)
  {
    if n == 0 then []
    else
      var src := StablePositions(a, n - 1);
      InsertedPositions(a, src, n - 1);
      InsertPosition(a, src, n - 1)
  }

  lemma InsertedPositions(a: seq<int>, src: seq<nat>, p: nat)
    requires p < |a| && Positions(a, src)
    ensures Positions(a, InsertPosition(a, src, p))
  {
  }

  function StableSort(a: seq<int>): seq<int> {
    ValuesAt(a, StablePositions(a, |a|))
  }

  // ----- the reference is stable, sorted and a permutation

  ghost predicate Increasing(a: seq<int>, src: seq<nat>) {
    Positions(a, src) && forall i, j | 0 <= i < j < |src| :: Before(a, src[i], src[j])
  }

  lemma IncreasingAppend(a: seq<int>, src: seq<nat>, p: nat)
    requires p < |a| && Increasing(a, src) && forall k | 0 <= k < |src| :: Before(a, src[k], p)
    ensures Increasing(a, src + [p])
  {
  }

  lemma {:induction false} InsertKeepsOrder(a: seq<int>, src: seq<nat>, p: nat)
    requires p < |a| && Increasing(a, src) && forall k | 0 <= k < |src| :: src[k] < p
    ensures Increasing(a, InsertPosition(a, src, p))
    ensures |InsertPosition(a, src, p)| == |src| + 1
    ensures forall q | q in InsertPosition(a, src, p) :: q == p || q in src
  {
    if src != [] {
      var init, last := src[..|src| - 1], src[|src| - 1];
      if a[last] <= a[p] {
        assert forall k | 0 <= k < |init| :: Before(a, src[k], last);
        IncreasingAppend(a, src, p);
      } else {
        InsertKeepsOrder(a, init, p);
        var r := InsertPosition(a, init, p);
        forall k | 0 <= k < |r| ensures Before(a, r[k], last) {
          assert r[k] in r;
          if r[k] != p {
            var i :| 0 <= i < |init| && init[i] == r[k];
            assert src[i] == r[k];
          }
        }
        IncreasingAppend(a, r, last);
        assert forall q | q in init :: q in src;
      }
    }
  }

  lemma {:induction false} StablePositionsCorrect(a: seq<int>, n: nat)
    requires n <= |a|
    ensures |StablePositions(a, n)| == n
    ensures Increasing(a, StablePositions(a, n))
    ensures forall q | q in StablePositions(a, n) :: q < n
  {
    if n > 0 {
      StablePositionsCorrect(a, n - 1);
      var src := StablePositions(a, n - 1);
      assert forall k | 0 <= k < |src| :: src[k] in src;
      InsertKeepsOrder(a, src, n - 1);
    }
  }

  lemma ValuesSnoc(a: seq<int>, src: seq<nat>, p: nat)
    requires p < |a| && Positions(a, src)
    ensures ValuesAt(a, src + [p]) == ValuesAt(a, src) + [a[p]]
  {
  }

  lemma {:induction false} InsertValues(a: seq<int>, src: seq<nat>, p: nat)
    requires p < |a| && Positions(a, src)
    ensures Positions(a, InsertPosition(a, src, p))
    ensures multiset(ValuesAt(a, InsertPosition(a, src, p))) == multiset(ValuesAt(a, src)) + multiset{a[p]}
  {
    if src == [] {
      assert ValuesAt(a, [p]) == [a[p]];
    } else {
      var init, last := src[..|src| - 1], src[|src| - 1];
      if a[last] <= a[p] {
        ValuesSnoc(a, src, p);
      } else {
        assert src == init + [last];
        ValuesSnoc(a, init, last);
        InsertValues(a, init, p);
        ValuesSnoc(a, InsertPosition(a, init, p), last);
      }
    }
  }

  lemma PrefixSnoc(a: seq<int>, n: nat)
    requires n < |a|
    ensures multiset(a[..n + 1]) == multiset(a[..n]) + multiset{a[n]}
  {
    assert a[..n + 1] == a[..n] + [a[n]];
  }

  lemma {:induction false} StableValues(a: seq<int>, n: nat)
    requires n <= |a|
    ensures multiset(ValuesAt(a, StablePositions(a, n))) == multiset(a[..n])
  {
    if n > 0 {
      StableValues(a, n - 1);
      InsertValues(a, StablePositions(a, n - 1), n - 1);
      PrefixSnoc(a, n - 1);
    } else {
      assert ValuesAt(a, []) == [];
    }
  }

  ghost predicate Sorted(a: seq<int>) {
    forall i, j | 0 <= i < j < |a| :: a[i] <= a[j]
  }

  lemma StableSortCorrect(a: seq<int>)
    ensures Sorted(StableSort(a)) && multiset(StableSort(a)) == multiset(a)
    ensures StableOrder(a, StablePositions(a, |a|))
  {
    StablePositionsCorrect(a, |a|);
    StableValues(a, |a|);
    assert a[..|a|] == a;
  }

  // ----- it is the only stable order

  lemma {:induction false} PigeonHole(src: seq<nat>, n: nat)
    requires forall k | 0 <= k < |src| :: src[k] < n
    requires forall i, j | 0 <= i < j < |src| :: src[i] != src[j]
    requires |src| >= n
    ensures |src| == n && forall p | 0 <= p < n :: p in src
    decreases n
  {
    if src == [] {
      return;
    }
    assert src[0] < n;
    if k :| 0 <= k < |src| && src[k] == n - 1 {
      var rest := src[..k] + src[k + 1..];
      assert forall i | 0 <= i < |rest| :: rest[i] == if i < k then src[i] else src[i + 1];
      PigeonHole(rest, n - 1);
      forall p | 0 <= p < n ensures p in src {
        if p < n - 1 {
          assert p in rest;
        } else {
          assert src[k] == p;
        }
      }
    } else {
      PigeonHole(src, n - 1);
    }
  }

  /** A sequence that lists all of 0..n is at least that long. */
  lemma {:induction false} CoverLength(src: seq<nat>, n: nat)
    requires forall p | 0 <= p < n :: p in src
    ensures |src| >= n
    decreases n
  {
    if n > 0 {
      var last := n - 1;
      assert last in src;
      var k :| 0 <= k < |src| && src[k] == last;
      var rest := src[..k] + src[k + 1..];
      forall p | 0 <= p < n - 1 ensures p in rest {
        assert p in src;
        var i :| 0 <= i < |src| && src[i] == p;
        assert rest[if i < k then i else i - 1] == p;
      }
      CoverLength(rest, n - 1);
    }
  }

  lemma SamePrefixSameNext(a: seq<int>, s: seq<nat>, t: seq<nat>, k: nat)
    requires StableOrder(a, s) && StableOrder(a, t) && k < |a| && s[..k] == t[..k]
    ensures s[k] == t[k]
  {
    PigeonHole(s, |a|);
    PigeonHole(t, |a|);
    assert s[k] in t && t[k] in s;
    var i :| 0 <= i < |t| && t[i] == s[k];
    var j :| 0 <= j < |s| && s[j] == t[k];
    assert forall m | 0 <= m < k :: s[..k][m] == s[m] && t[..k][m] == t[m];
    assert i >= k && j >= k;
  }

  lemma {:induction false} StableOrderUnique(a: seq<int>, s: seq<nat>, t: seq<nat>, k: nat)
    requires StableOrder(a, s) && StableOrder(a, t) && k <= |a|
    ensures s[..k] == t[..k]
  {
    if k > 0 {
      StableOrderUnique(a, s, t, k - 1);
      SamePrefixSameNext(a, s, t, k - 1);
      assert s[..k] == s[..k - 1] + [s[k - 1]];
      assert t[..k] == t[..k - 1] + [t[k - 1]];
    }
  }

  /** Whoever lists the positions in increasing (value, position) order has computed the stable sort. */
  lemma StableOrderIsStableSort(a: seq<int>, src: seq<nat>)
    requires StableOrder(a, src)
    ensures src == StablePositions(a, |a|) && ValuesAt(a, src) == StableSort(a)
  {
    StableSortCorrect(a);
    var t := StablePositions(a, |a|);
    StableOrderUnique(a, src, t, |a|);
    assert src[..|a|] == src && t[..|a|] == t;
  }

  // ----- the merge

  /** The positions `lo` up to, not including, `hi`. */
  datatype Chunk = Chunk(lo: nat, hi: nat)

  /** Chunk `j` of equal chunks. */
  function ChunkAt(size: nat, j: nat): Chunk {
    Chunk(j * size, (j + 1) * size)
  }

  function Chunks(threads: nat, size: nat): seq<Chunk> {
    seq(threads, j requires 0 <= j => ChunkAt(size, j))
  }

  /** Chunks of positions below `n`, from left to right. */
  ghost predicate Layout(chunks: seq<Chunk>, n: nat) {
    (forall j | 0 <= j < |chunks| :: chunks[j].lo <= chunks[j].hi <= n) &&
    forall i, j | 0 <= i < j < |chunks| :: chunks[i].hi <= chunks[j].lo
  }

  lemma ProductMonotone(i: nat, j: nat, size: nat)
    requires i <= j
    ensures i * size <= j * size
  {
  }

  lemma ChunksLayout(threads: nat, size: nat)
    ensures Layout(Chunks(threads, size), threads * size)
  {
    var chunks := Chunks(threads, size);
    forall j | 0 <= j < threads ensures chunks[j].lo <= chunks[j].hi <= threads * size {
      ProductMonotone(j, j + 1, size);
      ProductMonotone(j + 1, threads, size);
    }
    forall i, j | 0 <= i < j < threads ensures chunks[i].hi <= chunks[j].lo {
      ProductMonotone(i + 1, j, size);
    }
  }

  lemma {:induction false} ChunkOf(threads: nat, size: nat, p: nat) returns (j: nat)
    requires p < threads * size
    ensures j < threads && ChunkAt(size, j).lo <= p < ChunkAt(size, j).hi
  {
    if p >= (threads - 1) * size {
      j := threads - 1;
    } else {
      j := ChunkOf(threads - 1, size, p);
    }
  }

  ghost predicate SortedBetween(a: seq<int>, chunk: Chunk) {
    chunk.hi <= |a| && forall p, q | chunk.lo <= p < q < chunk.hi :: a[p] <= a[q]
  }

  ghost predicate ChunksSorted(a: seq<int>, chunks: seq<Chunk>) {
    Layout(chunks, |a|) && forall j | 0 <= j < |chunks| :: SortedBetween(a, chunks[j])
  }

  /** Values are C ints, so they are below the merge's initial minimum. */
  ghost predicate IntValues(a: seq<int>) {
    forall p | 0 <= p < |a| :: -0x8000_0000 <= a[p] < 0x8000_0000
  }

  /** The merge's cursors: one in each chunk, or at its end. */
  ghost predicate CursorsOk(idx: seq<nat>, chunks: seq<Chunk>) {
    |idx| == |chunks| && forall j | 0 <= j < |idx| :: chunks[j].lo <= idx[j] <= chunks[j].hi
  }

  /** Position `p` of chunk `j` is still to be merged. */
  ghost predicate Remaining(idx: seq<nat>, chunks: seq<Chunk>, j: nat, p: nat) {
    j < |idx| && j < |chunks| && idx[j] <= p < chunks[j].hi
  }

  /** The cursor of chunk `j` has passed position `p`. */
  ghost predicate Passed(idx: seq<nat>, chunks: seq<Chunk>, j: nat, p: nat) {
    j < |idx| && j < |chunks| && chunks[j].lo <= p < idx[j]
  }

  /** `src` lists what the cursors have passed, in order, and stands before everything that remains. */
  ghost predicate Merged(a: seq<int>, idx: seq<nat>, chunks: seq<Chunk>, src: seq<nat>) {
    Increasing(a, src) &&
    (forall j: nat, p: nat | Passed(idx, chunks, j, p) :: p in src) &&
    forall k, j: nat, p: nat | 0 <= k < |src| && p < |a| && Remaining(idx, chunks, j, p) :: Before(a, src[k], p)
  }

  /** Chunk `sel` has the smallest head among the first `n` chunks, and is the lowest such chunk. */
  ghost predicate Selected(a: seq<int>, idx: seq<nat>, chunks: seq<Chunk>, n: nat, sel: nat)
    requires Layout(chunks, |a|) && |idx| == |chunks|
  {
    sel < n <= |idx| && idx[sel] < chunks[sel].hi &&
    forall j | 0 <= j < n && idx[j] < chunks[j].hi ::
      a[idx[sel]] <= a[idx[j]] && (j < sel ==> a[idx[sel]] < a[idx[j]])
  }

  /** While fewer positions are listed than there are, some chunk is not exhausted. */
  lemma SomethingRemains(a: seq<int>, idx: seq<nat>, threads: nat, size: nat, src: seq<nat>)
    requires |a| == threads * size && CursorsOk(idx, Chunks(threads, size)) &&
      Merged(a, idx, Chunks(threads, size), src)
    requires |src| < |a|
    ensures exists j :: 0 <= j < threads && idx[j] < Chunks(threads, size)[j].hi
  {
    var chunks := Chunks(threads, size);
    if forall j | 0 <= j < threads :: idx[j] == chunks[j].hi {
      forall p | 0 <= p < |a| ensures p in src {
        var j := ChunkOf(threads, size, p);
        assert chunks[j] == ChunkAt(size, j);
        assert Passed(idx, chunks, j, p);
      }
      CoverLength(src, |a|);
    } else {
      var j :| 0 <= j < threads && idx[j] != chunks[j].hi;
    }
  }

  /** The selected head stands before everything else that remains. */
  lemma SelectedIsFirst(a: seq<int>, idx: seq<nat>, chunks: seq<Chunk>, sel: nat, j: nat, p: nat)
    requires ChunksSorted(a, chunks) && CursorsOk(idx, chunks) && Selected(a, idx, chunks, |idx|, sel)
    requires Remaining(idx, chunks, j, p) && p != idx[sel]
    ensures p < |a| && Before(a, idx[sel], p)
  {
    assert SortedBetween(a, chunks[j]);
    assert a[idx[j]] <= a[p];
  }

  lemma MergeStepKeepsOrder(a: seq<int>, idx: seq<nat>, chunks: seq<Chunk>, src: seq<nat>, sel: nat,
                            k: nat, j: nat, p: nat)
    requires ChunksSorted(a, chunks) && CursorsOk(idx, chunks) && Selected(a, idx, chunks, |idx|, sel)
    requires Merged(a, idx, chunks, src) && k <= |src| && p < |a|
    requires Remaining(idx[sel := idx[sel] + 1], chunks, j, p)
    ensures Before(a, (src + [idx[sel]])[k], p)
  {
    assert Remaining(idx, chunks, j, p);
    SelectedIsFirst(a, idx, chunks, sel, j, p);
  }

  lemma MergeStep(a: seq<int>, idx: seq<nat>, chunks: seq<Chunk>, src: seq<nat>, sel: nat)
    requires ChunksSorted(a, chunks) && CursorsOk(idx, chunks) && Selected(a, idx, chunks, |idx|, sel)
    requires Merged(a, idx, chunks, src)
    ensures CursorsOk(idx[sel := idx[sel] + 1], chunks)
    ensures Merged(a, idx[sel := idx[sel] + 1], chunks, src + [idx[sel]])
  {
    var idx', src' := idx[sel := idx[sel] + 1], src + [idx[sel]];
    assert Remaining(idx, chunks, sel, idx[sel]);
    IncreasingAppend(a, src, idx[sel]);
    forall k, j: nat, p: nat | 0 <= k < |src'| && p < |a| && Remaining(idx', chunks, j, p)
      ensures Before(a, src'[k], p)
    {
      MergeStepKeepsOrder(a, idx, chunks, src, sel, k, j, p);
    }
    forall j: nat, p: nat | Passed(idx', chunks, j, p) ensures p in src' {
      assert Passed(idx, chunks, j, p) || p == idx[sel];
    }
  }

  ghost predicate Exhausted(idx: seq<nat>, chunks: seq<Chunk>, n: nat) {
    n <= |idx| == |chunks| && forall j | 0 <= j < n :: idx[j] == chunks[j].hi
  }

  /** What the inner loop knows after `n` chunks. */
  ghost predicate Scanned(a: seq<int>, idx: seq<nat>, chunks: seq<Chunk>, n: nat, minTid: int, minVal: int)
    requires Layout(chunks, |a|) && |idx| == |chunks|
  {
    if minTid >= 0 then Selected(a, idx, chunks, n, minTid) && minVal == a[idx[minTid]]
    else minTid == -1 && minVal == LONG_MAX && Exhausted(idx, chunks, n)
  }

  lemma ScanStep(a: seq<int>, idx: seq<nat>, chunks: seq<Chunk>, n: nat, minTid: int, minVal: int)
    requires Layout(chunks, |a|) && CursorsOk(idx, chunks) && IntValues(a) && n < |idx|
    requires Scanned(a, idx, chunks, n, minTid, minVal)
    ensures if idx[n] < chunks[n].hi && a[idx[n]] < minVal then Scanned(a, idx, chunks, n + 1, n, a[idx[n]])
            else Scanned(a, idx, chunks, n + 1, minTid, minVal)
  {
  }

  /** The inner loop of merge: scans the heads from the lowest chunk on. */
  method SelectChunk(nums: array<int>, indexArr: array<nat>, threads: nat, size: nat)
    returns (minTid: int, minVal: int)
    requires indexArr.Length == threads && Layout(Chunks(threads, size), nums.Length)
    requires IntValues(nums[..]) && CursorsOk(indexArr[..], Chunks(threads, size))
    ensures Scanned(nums[..], indexArr[..], Chunks(threads, size), threads, minTid, minVal)
  {
    ghost var a, idx, chunks := nums[..], indexArr[..], Chunks(threads, size);
    minTid, minVal := -1, LONG_MAX;
    var j := 0;
    while j < threads
      invariant 0 <= j <= threads
      invariant Scanned(a, idx, chunks, j, minTid, minVal)
    {
      ScanStep(a, idx, chunks, j, minTid, minVal);
      assert chunks[j] == ChunkAt(size, j);
      assert idx[j] <= chunks[j].hi <= |a|;
      if indexArr[j] < (j + 1) * size && nums[indexArr[j]] < minVal {
        minVal := nums[indexArr[j]];
        minTid := j;
      }
      j := j + 1;
    }
  }

  /** What merging demands: equal chunks, each of them sorted. */
  ghost predicate Mergeable(a: seq<int>, threads: nat, size: nat) {
    |a| == threads * size && ChunksSorted(a, Chunks(threads, size)) && IntValues(a)
  }

  /** The cursors and the positions listed so far. */
  ghost predicate Progress(a: seq<int>, idx: seq<nat>, chunks: seq<Chunk>, src: seq<nat>) {
    CursorsOk(idx, chunks) && Merged(a, idx, chunks, src)
  }

  lemma MergeStart(a: seq<int>, idx: seq<nat>, threads: nat, size: nat)
    requires Mergeable(a, threads, size) && |idx| == threads && forall j | 0 <= j < threads :: idx[j] == j * size
    ensures Progress(a, idx, Chunks(threads, size), [])
  {
  }

  /** One turn of the outer loop, for what the scan has found: a chunk, never -1. */
  lemma MergeTurn(a: seq<int>, idx: seq<nat>, threads: nat, size: nat, src: seq<nat>, minTid: int, minVal: int)
    requires Mergeable(a, threads, size) && Progress(a, idx, Chunks(threads, size), src) && |src| < |a|
    requires Scanned(a, idx, Chunks(threads, size), threads, minTid, minVal)
    ensures 0 <= minTid < threads && idx[minTid] < |a| && minVal == a[idx[minTid]]
    ensures Progress(a, idx[minTid := idx[minTid] + 1], Chunks(threads, size), src + [idx[minTid]])
    ensures ValuesAt(a, src + [idx[minTid]]) == ValuesAt(a, src) + [minVal]
  {
    SomethingRemains(a, idx, threads, size, src);
    MergeStep(a, idx, Chunks(threads, size), src, minTid);
  }

  /** The merge: the error exit is not reachable, and the output is the stable sort of the input. */
  method Merge(nums: array<int>, snums: array<int>, threads: nat, size: nat)
    requires nums != snums && nums.Length == snums.Length && Mergeable(nums[..], threads, size)
    modifies snums
    ensures snums[..] == StableSort(nums[..])
  {
    var indexArr := new nat[threads](i requires 0 <= i => i * size);
    ghost var a, src: seq<nat> := nums[..], [];
    MergeStart(a, indexArr[..], threads, size);
    var i := 0;
    while i < nums.Length
      invariant 0 <= i <= nums.Length && |src| == i && nums[..] == a
      invariant Progress(a, indexArr[..], Chunks(threads, size), src)
      invariant snums[..i] == ValuesAt(a, src)
    {
      ghost var idx := indexArr[..];
      var minTid, minVal := SelectChunk(nums, indexArr, threads, size);
      MergeTurn(a, idx, threads, size, src, minTid, minVal);
      indexArr[minTid] := indexArr[minTid] + 1;
      assert indexArr[..] == idx[minTid := idx[minTid] + 1];
      src := src + [idx[minTid]];
      snums[i] := minVal;
      i := i + 1;
    }
    StableOrderIsStableSort(a, src);
    assert snums[..i] == snums[..];
  }
}
