/**
 Threads that sort one chunk each, a barrier, and a main thread that merges behind it
 (thread/barrier.c), for every number of threads, every chunk size and every
 interleaving. `qsort` is one step, with its contract: the chunk becomes a sorted
 permutation of itself. Merging is one step, with the contract of the merge method: what
 it leaves is only known when all chunks are sorted. Thread `k` owns chunk `k`.
 */
module ParallelSort {
  import opened Threads
  import opened StableMerge

  datatype SorterPc = Sorting | Sorted | AtBarrier | Gone
  datatype MainPc = Creating | Waiting | Released | Finished(output: seq<int>)

  predicate HasArrived(pc: SorterPc) { pc.AtBarrier? || pc.Gone? }

  /** `arrived` is the barrier's counter; `original` the array before any thread ran. */
  datatype Job = Job(
    nums: seq<int>, threads: nat, size: nat, sorters: map<nat, SorterPc>, main: MainPc, arrived: nat,
    original: seq<int>)

  datatype Step =
    | Create
    | Qsort(thread: nat, result: seq<int>)
    | Arrive(thread: nat)
    | Leave(thread: nat)
    | MainArrive
    | MainLeave
    | MainMerge(output: seq<int>)

  ghost predicate QsortContract(before: seq<int>, after: seq<int>) {
    multiset(after) == multiset(before) && |after| == |before| && StableMerge.Sorted(after)
  }

  /** What merging promises of its output: something only for sorted chunks. */
  ghost predicate MergeContract(s: Job, output: seq<int>) {
    Mergeable(s.nums, s.threads, s.size) ==> output == StableSort(s.nums)
  }

  /** A chunk that lies within `n` positions. */
  predicate Within(c: Chunk, n: nat) {
    c.lo <= c.hi <= n
  }

  function ReplaceChunk(a: seq<int>, c: Chunk, result: seq<int>): seq<int>
    requires Within(c, |a|)
  {
    a[..c.lo] + result + a[c.hi..]
  }

  /** The barrier waits for every sorter and the main thread. */
  predicate Open(s: Job) {
    s.arrived == s.threads + 1
  }

  ghost predicate CanStep(s: Job, step: Step) {
    match step
    case Create => s.main.Creating? && |s.sorters| < s.threads && |s.sorters| !in s.sorters
    case Qsort(k, result) =>
      var c := ChunkAt(s.size, k);
      k in s.sorters && s.sorters[k].Sorting? && Within(c, |s.nums|) && QsortContract(s.nums[c.lo..c.hi], result)
    case Arrive(k) => k in s.sorters && s.sorters[k].Sorted?
    case Leave(k) => k in s.sorters && s.sorters[k].AtBarrier? && Open(s)
    case MainArrive => s.main.Creating? && |s.sorters| == s.threads
    case MainLeave => s.main.Waiting? && Open(s)
    case MainMerge(output) => s.main.Released? && MergeContract(s, output)
  }

  ghost function Apply(s: Job, step: Step): Job
    requires CanStep(s, step)
  {
    match step
    case Create => s.(sorters := s.sorters[|s.sorters| := Sorting])
    case Qsort(k, result) =>
      s.(nums := ReplaceChunk(s.nums, ChunkAt(s.size, k), result), sorters := s.sorters[k := SorterPc.Sorted])
    case Arrive(k) => s.(arrived := s.arrived + 1, sorters := s.sorters[k := AtBarrier])
    case Leave(k) => s.(sorters := s.sorters[k := Gone])
    case MainArrive => s.(arrived := s.arrived + 1, main := Waiting)
    case MainLeave => s.(main := Released)
    case MainMerge(output) => s.(main := Finished(output))
  }

  ghost predicate Init(s: Job) {
    |s.nums| == s.threads * s.size && s.sorters == map[] && s.main.Creating? && s.arrived == 0 &&
    s.original == s.nums && IntValues(s.nums)
  }

  ghost predicate IsRun(trace: seq<Job>, steps: seq<Step>) {
    |trace| == |steps| + 1 && Init(trace[0]) &&
    forall i {:trigger steps[i]} | 0 <= i < |steps| ::
      CanStep(trace[i], steps[i]) && trace[i + 1] == Apply(trace[i], steps[i])
  }

  // ----- the invariant

  /** The created threads are 0, 1, ... in order. */
  ghost predicate Numbered(sorters: map<nat, SorterPc>, threads: nat) {
    |sorters| <= threads && sorters.Keys == Below(|sorters|)
  }

  ghost predicate BarrierOk(s: Job) {
    s.arrived == Count(s.sorters, HasArrived) + (if s.main.Creating? then 0 else 1) &&
    (!s.main.Creating? ==> |s.sorters| == s.threads) &&
    (s.main.Released? || s.main.Finished? ==> Open(s))
  }

  /** Threads past their qsort have a sorted chunk; the array is a permutation of the original. */
  ghost predicate DataOk(s: Job) {
    |s.nums| == s.threads * s.size && multiset(s.nums) == multiset(s.original) && IntValues(s.nums) &&
    DoneChunksSorted(s.nums, s.size, s.sorters)
  }

  ghost predicate DoneChunksSorted(nums: seq<int>, size: nat, sorters: map<nat, SorterPc>) {
    forall k | k in sorters && !sorters[k].Sorting? :: SortedBetween(nums, ChunkAt(size, k))
  }

  ghost predicate OutputOk(s: Job) {
    s.main.Finished? ==> Mergeable(s.nums, s.threads, s.size) && s.main.output == StableSort(s.nums)
  }

  ghost predicate Inv(s: Job) {
    Numbered(s.sorters, s.threads) && BarrierOk(s) && DataOk(s) && OutputOk(s)
  }

  /** The barrier is open only when every sorter has arrived. */
  lemma OpenMeansAllArrived(s: Job, k: nat)
    requires Inv(s) && Open(s) && k < s.threads
    ensures k in s.sorters && HasArrived(s.sorters[k])
  {
    CountBound(s.sorters, HasArrived);
    assert |s.sorters| == s.threads;
    if !HasArrived(s.sorters[k]) {
      assert Where(s.sorters, HasArrived) <= s.sorters.Keys - {k};
      SubsetSize(Where(s.sorters, HasArrived), s.sorters.Keys - {k});
    }
  }

  /** Merging starts only after all chunks are sorted. */
  lemma AllChunksSorted(s: Job)
    requires Inv(s) && Open(s)
    ensures ChunksSorted(s.nums, Chunks(s.threads, s.size))
  {
    ChunksLayout(s.threads, s.size);
    forall k | 0 <= k < s.threads ensures SortedBetween(s.nums, Chunks(s.threads, s.size)[k]) {
      OpenMeansAllArrived(s, k);
    }
  }

  // ----- qsort touches its own chunk only

  lemma SplitMultiset(a: seq<int>, lo: nat, hi: nat)
    requires lo <= hi <= |a|
    ensures multiset(a) == multiset(a[..lo]) + multiset(a[lo..hi]) + multiset(a[hi..])
  {
    assert a == a[..lo] + a[lo..hi] + a[hi..];
  }

  lemma QsortData(a: seq<int>, c: Chunk, result: seq<int>)
    requires Within(c, |a|) && QsortContract(a[c.lo..c.hi], result)
    ensures var b := ReplaceChunk(a, c, result);
      |b| == |a| && multiset(b) == multiset(a) && SortedBetween(b, c) &&
      forall p | 0 <= p < |a| && !(c.lo <= p < c.hi) :: b[p] == a[p]
  {
    var b := ReplaceChunk(a, c, result);
    SplitMultiset(a, c.lo, c.hi);
    assert multiset(b) == multiset(a[..c.lo]) + multiset(result) + multiset(a[c.hi..]);
    forall p, q | c.lo <= p < q < c.hi ensures b[p] <= b[q] {
      assert b[p] == result[p - c.lo] && b[q] == result[q - c.lo];
    }
  }

  lemma SameValues(a: seq<int>, b: seq<int>)
    requires multiset(a) == multiset(b) && IntValues(a)
    ensures IntValues(b)
  {
    forall p | 0 <= p < |b| ensures -0x8000_0000 <= b[p] < 0x8000_0000 {
      assert b[p] in multiset(b);
      assert b[p] in multiset(a);
      var i :| 0 <= i < |a| && a[i] == b[p];
    }
  }

  lemma OtherChunkUntouched(a: seq<int>, b: seq<int>, size: nat, k: nat, j: nat)
    requires j != k && |b| == |a| && SortedBetween(a, ChunkAt(size, j))
    requires forall p | 0 <= p < |a| && !(ChunkAt(size, k).lo <= p < ChunkAt(size, k).hi) :: b[p] == a[p]
    ensures SortedBetween(b, ChunkAt(size, j))
  {
    if j < k {
      ProductMonotone(j + 1, k, size);
    } else {
      ProductMonotone(k + 1, j, size);
    }
  }

  lemma QsortKeepsChunks(a: seq<int>, b: seq<int>, size: nat, k: nat, sorters: map<nat, SorterPc>)
    requires |b| == |a| && DoneChunksSorted(a, size, sorters) && SortedBetween(b, ChunkAt(size, k))
    requires forall p | 0 <= p < |a| && !(ChunkAt(size, k).lo <= p < ChunkAt(size, k).hi) :: b[p] == a[p]
    ensures DoneChunksSorted(b, size, sorters[k := SorterPc.Sorted])
  {
    forall j | j in sorters && !sorters[j].Sorting? && j != k ensures SortedBetween(b, ChunkAt(size, j)) {
      OtherChunkUntouched(a, b, size, k, j);
    }
  }

  lemma QsortKeepsData(s: Job, k: nat, result: seq<int>)
    requires DataOk(s) && CanStep(s, Qsort(k, result))
    ensures DataOk(Apply(s, Qsort(k, result)))
  {
    var b := ReplaceChunk(s.nums, ChunkAt(s.size, k), result);
    QsortData(s.nums, ChunkAt(s.size, k), result);
    SameValues(s.nums, b);
    QsortKeepsChunks(s.nums, b, s.size, k, s.sorters);
  }

  lemma MoveKeeps(s: Job, k: nat, pc: SorterPc)
    requires Numbered(s.sorters, s.threads) && k in s.sorters
    ensures Numbered(s.sorters[k := pc], s.threads)
    ensures Count(s.sorters[k := pc], HasArrived) ==
            Count(s.sorters, HasArrived) - Here(s.sorters, k, HasArrived) + (if HasArrived(pc) then 1 else 0)
  {
    CountMove(s.sorters, k, pc, HasArrived);
    assert s.sorters[k := pc].Keys == s.sorters.Keys;
  }

  lemma CreateNumbered(sorters: map<nat, SorterPc>, threads: nat, n: nat)
    requires Numbered(sorters, threads) && n == |sorters| < threads
    ensures Numbered(sorters[n := Sorting], threads) && |sorters[n := Sorting]| == n + 1
  {
    assert sorters[n := Sorting].Keys == sorters.Keys + {n};
  }

  lemma CreateKeeps(s: Job)
    requires Inv(s) && CanStep(s, Create)
    ensures Inv(Apply(s, Create))
  {
    CreateNumbered(s.sorters, s.threads, |s.sorters|);
    CountMove(s.sorters, |s.sorters|, Sorting, HasArrived);
  }

  lemma QsortKeeps(s: Job, k: nat, result: seq<int>)
    requires Inv(s) && CanStep(s, Qsort(k, result))
    ensures Inv(Apply(s, Qsort(k, result)))
  {
    QsortKeepsData(s, k, result);
    MoveKeeps(s, k, SorterPc.Sorted);
    if Open(s) {
      OpenMeansAllArrived(s, k);
    }
  }

  lemma ArriveKeeps(s: Job, k: nat)
    requires Inv(s) && CanStep(s, Arrive(k))
    ensures Inv(Apply(s, Arrive(k)))
  {
    MoveKeeps(s, k, AtBarrier);
    if Open(s) {
      OpenMeansAllArrived(s, k);
    }
  }

  lemma StepKeeps(s: Job, step: Step)
    requires Inv(s) && CanStep(s, step)
    ensures Inv(Apply(s, step))
  {
    match step
    case Create => CreateKeeps(s);
    case Qsort(k, result) => QsortKeeps(s, k, result);
    case Arrive(k) => ArriveKeeps(s, k);
    case Leave(k) => MoveKeeps(s, k, Gone);
    case MainArrive =>
    case MainLeave =>
    case MainMerge(_) => AllChunksSorted(s);
  }

  lemma InitHolds(s: Job)
    requires Init(s)
    ensures Inv(s)
  {
    assert Where(s.sorters, HasArrived) == {};
  }

  lemma StepAt(trace: seq<Job>, steps: seq<Step>, k: nat)
    requires IsRun(trace, steps) && k < |steps| && Inv(trace[k])
    ensures Inv(trace[k + 1])
  {
    StepKeeps(trace[k], steps[k]);
  }

  lemma {:induction false} RunInvariant(trace: seq<Job>, steps: seq<Step>, i: nat)
    requires IsRun(trace, steps) && i < |trace|
    ensures Inv(trace[i])
    decreases i
  {
    if i > 0 {
      RunInvariant(trace, steps, i - 1);
      StepAt(trace, steps, i - 1);
    } else {
      InitHolds(trace[0]);
    }
  }

  lemma {:induction false} OriginalIsKept(trace: seq<Job>, steps: seq<Step>, i: nat)
    requires IsRun(trace, steps) && i < |trace|
    ensures trace[i].original == trace[0].nums
    decreases i
  {
    if i > 0 {
      OriginalIsKept(trace, steps, i - 1);
      assert trace[i] == Apply(trace[i - 1], steps[i - 1]);
    }
  }

  /** Whatever the interleaving, somebody can go on until the main thread has merged: the barrier deadlocks nobody. */
  lemma NeverStuck(trace: seq<Job>, steps: seq<Step>, i: nat)
    requires IsRun(trace, steps) && i < |trace| && !trace[i].main.Finished?
    ensures exists step :: CanStep(trace[i], step)
  {
    RunInvariant(trace, steps, i);
    var step := NextStep(trace[i]);
  }

  lemma NextStep(s: Job) returns (step: Step)
    requires Inv(s) && !s.main.Finished?
    ensures CanStep(s, step)
  {
    if k :| k in s.sorters && s.sorters[k].Sorting? {
      var c := ChunkAt(s.size, k);
      ProductMonotone(k, k + 1, s.size);
      ProductMonotone(k + 1, s.threads, s.size);
      StableSortCorrect(s.nums[c.lo..c.hi]);
      step := Qsort(k, StableSort(s.nums[c.lo..c.hi]));
    } else if k :| k in s.sorters && s.sorters[k].Sorted? {
      step := Arrive(k);
    } else if s.main.Creating? {
      step := if |s.sorters| < s.threads then Create else MainArrive;
    } else if s.main.Waiting? {
      assert Where(s.sorters, HasArrived) == s.sorters.Keys;
      step := MainLeave;
    } else {
      step := MainMerge(StableSort(s.nums));
    }
  }

  /** Whoever is behind the barrier has found it open. */
  ghost predicate PassedOk(s: Job) {
    ((exists k :: k in s.sorters && s.sorters[k].Gone?) || s.main.Released?) ==> Open(s)
  }

  lemma OpenStays(s: Job, step: Step)
    requires Inv(s) && Open(s) && CanStep(s, step)
    ensures Open(Apply(s, step))
  {
    if step.Arrive? {
      OpenMeansAllArrived(s, step.thread);
    } else if step.MainArrive? {
      CountBound(s.sorters, HasArrived);
    }
  }

  lemma PassingNeedsOpen(s: Job, step: Step)
    requires Inv(s) && PassedOk(s) && CanStep(s, step)
    ensures PassedOk(Apply(s, step))
  {
    if Open(s) {
      OpenStays(s, step);
    } else {
      assert forall k | k in Apply(s, step).sorters && Apply(s, step).sorters[k].Gone? ::
          k in s.sorters && s.sorters[k].Gone?;
    }
  }

  lemma {:induction false} PassedRuns(trace: seq<Job>, steps: seq<Step>, i: nat)
    requires IsRun(trace, steps) && i < |trace|
    ensures PassedOk(trace[i])
    decreases i
  {
    if i > 0 {
      PassedRuns(trace, steps, i - 1);
      RunInvariant(trace, steps, i - 1);
      PassingNeedsOpen(trace[i - 1], steps[i - 1]);
    }
  }

  /** Nobody is behind the barrier, neither a sorter nor the main thread, before every sorter has sorted and arrived. */
  lemma NobodyPassesEarly(trace: seq<Job>, steps: seq<Step>, i: nat, k: nat)
    requires IsRun(trace, steps) && i < |trace| && k < trace[i].threads
    requires (exists j :: j in trace[i].sorters && trace[i].sorters[j].Gone?) || trace[i].main.Released?
    ensures k in trace[i].sorters && HasArrived(trace[i].sorters[k])
  {
    PassedRuns(trace, steps, i);
    RunInvariant(trace, steps, i);
    OpenMeansAllArrived(trace[i], k);
  }

  /** When merge may start, its contract is met: all chunks are sorted, in every run. */
  lemma MergeStartsAfterSorting(trace: seq<Job>, steps: seq<Step>, i: nat)
    requires IsRun(trace, steps) && i < |trace| && trace[i].main.Released?
    ensures Mergeable(trace[i].nums, trace[i].threads, trace[i].size)
    ensures forall k | 0 <= k < trace[i].threads :: k in trace[i].sorters && HasArrived(trace[i].sorters[k])
  {
    RunInvariant(trace, steps, i);
    AllChunksSorted(trace[i]);
    forall k | 0 <= k < trace[i].threads ensures k in trace[i].sorters && HasArrived(trace[i].sorters[k]) {
      OpenMeansAllArrived(trace[i], k);
    }
  }

  lemma TailValues(a: seq<int>)
    requires a != []
    ensures multiset(a[1..]) == multiset(a) - multiset{a[0]}
  {
    assert a == [a[0]] + a[1..];
  }

  /** Two sorted arrays of the same values are the same array. */
  lemma {:induction false} SortedIsUnique(a: seq<int>, b: seq<int>)
    requires StableMerge.Sorted(a) && StableMerge.Sorted(b) && multiset(a) == multiset(b)
    ensures a == b
  {
    if a == [] {
      assert |multiset(b)| == 0;
    } else {
      SmallestFirst(a, b);
      SmallestFirst(b, a);
      TailValues(a);
      TailValues(b);
      SortedIsUnique(a[1..], b[1..]);
    }
  }

  lemma SmallestFirst(a: seq<int>, b: seq<int>)
    requires StableMerge.Sorted(a) && multiset(a) == multiset(b) && a != []
    ensures b != [] && a[0] <= b[0]
  {
    assert a[0] in multiset(b);
    assert b[0] in multiset(a);
  }

  /** Whatever the interleaving, the output is the sorted permutation of the original array. */
  lemma OutputIsSorted(trace: seq<Job>, steps: seq<Step>, i: nat)
    requires IsRun(trace, steps) && i < |trace| && trace[i].main.Finished?
    ensures StableMerge.Sorted(trace[i].main.output)
    ensures multiset(trace[i].main.output) == multiset(trace[0].nums)
    ensures trace[i].main.output == StableSort(trace[0].nums)
  {
    RunInvariant(trace, steps, i);
    OriginalIsKept(trace, steps, i);
    StableSortCorrect(trace[i].nums);
    StableSortCorrect(trace[0].nums);
    SortedIsUnique(trace[i].main.output, StableSort(trace[0].nums));
  }
}
