/** The threads of 11.threads/09_barrier.c: one worker for each slice and main, which
    take turns in any order.  A worker's turn is one pass through the loop it is in,
    with at most one exchange in its own slice. */
module ParallelSort {
  import opened Sequences
  import opened HeapSort
  import opened Merge

  // ----- one worker -----

  /** Where a worker is: in build_heap's loop, in node_adjust_down called from there, in
      heap_sort's loop, in node_adjust_down called from there, returned from heap_sort,
      in pthread_barrier_wait, past it. */
  datatype Control =
    | Building(k: nat)
    | BuildSift(k: nat, index: nat)
    | Extracting(i: nat)
    | ExtractSift(i: nat, index: nat)
    | HeapSorted
    | Waiting
    | Returned
  {
    predicate Sorting() {
      !HeapSorted? && !Waiting? && !Returned?
    }

    predicate Arrived() {
      Waiting? || Returned?
    }

    predicate Fits(n: nat) {
      match this
      case Building(k) => n > 1
      case BuildSift(k, index) => n > 1
      case Extracting(i) => i < n
      case ExtractSift(i, index) => 0 < i < n
      case _ => true
    }
  }

  function Begin(n: nat): (c: Control)
    ensures c.Fits(n)
  {
    if n <= 1 then HeapSorted else Building(n / 2)
  }

  /** One turn of a worker that is still sorting its slice `s`. */
  function Turn(c: Control, s: seq<int>): (r: (Control, seq<int>))
    requires c.Sorting() && c.Fits(|s|)
    ensures |r.1| == |s| && r.0.Fits(|s|) && !r.0.Arrived()
  {
    match c
    case Building(k) =>
      if k == 0 then (Extracting(|s| - 1), s) else (BuildSift(k - 1, k - 1), s)
    case BuildSift(k, index) =>
      var m := LargestOf(s, index, |s|);
      if m == index then (Building(k), s) else (BuildSift(k, m), Swap(s, index, m))
    case Extracting(i) =>
      if i == 0 then (HeapSorted, s) else (ExtractSift(i, 0), Swap(s, 0, i))
    case ExtractSift(i, index) =>
      var m := LargestOf(s, index, i);
      if m == index then (Extracting(i - 1), s) else (ExtractSift(i, m), Swap(s, index, m))
  }

  /** What the slice will be when the worker returns from heap_sort. */
  function Outcome(c: Control, s: seq<int>): seq<int>
    requires c.Fits(|s|)
  {
    match c
    case Building(k) => ExtractFrom(BuildFrom(s, k), |s| - 1)
    case BuildSift(k, index) => ExtractFrom(BuildFrom(SiftDown(s, index, |s|), k), |s| - 1)
    case Extracting(i) => ExtractFrom(s, i)
    case ExtractSift(i, index) => ExtractFrom(SiftDown(s, index, i), i - 1)
    case _ => s
  }

  /** How many turns the worker still takes, the two at the barrier included. */
  function TurnsLeft(c: Control, s: seq<int>): nat
    requires c.Fits(|s|)
  {
    match c
    case Building(k) => BuildTurns(s, k)
    case BuildSift(k, index) => 1 + SiftSwaps(s, index, |s|) + BuildTurns(SiftDown(s, index, |s|), k)
    case Extracting(i) => ExtractTurns(s, i)
    case ExtractSift(i, index) => 1 + SiftSwaps(s, index, i) + ExtractTurns(SiftDown(s, index, i), i - 1)
    case HeapSorted => 2
    case Waiting => 1
    case Returned => 0
  }

  function BuildTurns(s: seq<int>, k: nat): nat
    requires |s| > 1
  {
    1 + 2 * k + BuildSwaps(s, k) + ExtractTurns(BuildFrom(s, k), |s| - 1)
  }

  function ExtractTurns(s: seq<int>, i: nat): nat
    requires i < |s|
  {
    3 + i + ExtractSwaps(s, i)
  }

  lemma BuildTurnProgress(c: Control, s: seq<int>)
    requires (c.Building? || c.BuildSift?) && c.Fits(|s|)
    ensures var (c', s') := Turn(c, s);
            && multiset(s') == multiset(s)
            && Outcome(c', s') == Outcome(c, s)
            && TurnsLeft(c, s) == 1 + TurnsLeft(c', s')
  {
    hide SiftDown, SiftSwaps, SiftStop, ExtractFrom, ExtractSwaps;
    if c.BuildSift? {
      SiftUnfolds(s, c.index, |s|);
      var m := LargestOf(s, c.index, |s|);
      if m != c.index {
        SwapPermutes(s, c.index, m);
      }
    }
  }

  lemma ExtractTurnProgress(c: Control, s: seq<int>)
    requires (c.Extracting? || c.ExtractSift?) && c.Fits(|s|)
    ensures var (c', s') := Turn(c, s);
            && multiset(s') == multiset(s)
            && Outcome(c', s') == Outcome(c, s)
            && TurnsLeft(c, s) == 1 + TurnsLeft(c', s')
  {
    hide SiftDown, SiftSwaps, SiftStop, BuildFrom, BuildSwaps;
    if c.ExtractSift? {
      SiftUnfolds(s, c.index, c.i);
      var m := LargestOf(s, c.index, c.i);
      if m != c.index {
        SwapPermutes(s, c.index, m);
      }
    } else if c.i > 0 {
      SwapPermutes(s, 0, c.i);
    }
  }

  /** A turn permutes the slice, leads to the same outcome and is one of those counted. */
  lemma TurnProgress(c: Control, s: seq<int>)
    requires c.Sorting() && c.Fits(|s|)
    ensures var (c', s') := Turn(c, s);
            && multiset(s') == multiset(s)
            && Outcome(c', s') == Outcome(c, s)
            && TurnsLeft(c, s) == 1 + TurnsLeft(c', s')
  {
    hide Turn, Outcome, TurnsLeft;
    if c.Building? || c.BuildSift? {
      BuildTurnProgress(c, s);
    } else {
      ExtractTurnProgress(c, s);
    }
  }

  // ----- what a worker does in all its turns -----

  /** The two positions that a turn exchanges, twice the same one if it exchanges none. */
  function Exchanged(c: Control, s: seq<int>): (r: (nat, nat))
    requires c.Sorting() && c.Fits(|s|)
    ensures r.0 < |s| && r.1 < |s| && Turn(c, s).1 == Swap(s, r.0, r.1)
  {
    match c
    case Building(_) => (0, 0)
    case BuildSift(_, index) =>
      var m := LargestOf(s, index, |s|);
      if m == index then (0, 0) else (index, m)
    case Extracting(i) => (0, i)
    case ExtractSift(i, index) =>
      var m := LargestOf(s, index, i);
      if m == index then (0, 0) else (index, m)
  }

  /** How many of the turns that are left exchange two elements. */
  ghost function ExchangesLeft(c: Control, s: seq<int>): nat
    requires c.Fits(|s|)
    decreases TurnsLeft(c, s)
  {
    if !c.Sorting() then 0
    else
      TurnProgress(c, s);
      var (i, j) := Exchanged(c, s);
      var (c', s') := Turn(c, s);
      (if i == j then 0 else 1) + ExchangesLeft(c', s')
  }

  /** The same number, from what the routines say of theirs. */
  function SwapsLeft(c: Control, s: seq<int>): nat
    requires c.Fits(|s|)
  {
    match c
    case Building(k) => BuildSwaps(s, k) + ExtractSwaps(BuildFrom(s, k), |s| - 1)
    case BuildSift(k, index) =>
      var t := SiftDown(s, index, |s|);
      SiftSwaps(s, index, |s|) + BuildSwaps(t, k) + ExtractSwaps(BuildFrom(t, k), |s| - 1)
    case Extracting(i) => ExtractSwaps(s, i)
    case ExtractSift(i, index) => SiftSwaps(s, index, i) + ExtractSwaps(SiftDown(s, index, i), i - 1)
    case _ => 0
  }

  lemma TurnCountsSwap(c: Control, s: seq<int>)
    requires c.Sorting() && c.Fits(|s|)
    ensures var (i, j) := Exchanged(c, s);
            var (c', s') := Turn(c, s);
            SwapsLeft(c, s) == (if i == j then 0 else 1) + SwapsLeft(c', s')
  {
    hide SiftDown, SiftSwaps, SiftStop;
    match c
    case BuildSift(_, index) => SiftUnfolds(s, index, |s|);
    case ExtractSift(i, index) => SiftUnfolds(s, index, i);
    case _ =>
  }

  lemma {:induction false} SwapsAreExchanges(c: Control, s: seq<int>)
    requires c.Fits(|s|)
    ensures ExchangesLeft(c, s) == SwapsLeft(c, s)
    decreases TurnsLeft(c, s)
  {
    hide Turn, TurnsLeft, SwapsLeft, Exchanged;
    if !c.Sorting() {
      NoSwapsLeft(c, s);
    } else {
      TurnProgress(c, s);
      TurnCountsSwap(c, s);
      var (c', s') := Turn(c, s);
      SwapsAreExchanges(c', s');
    }
  }

  lemma NoSwapsLeft(c: Control, s: seq<int>)
    requires c.Fits(|s|) && !c.Sorting()
    ensures SwapsLeft(c, s) == 0
  {
  }

  /** heap_sort's count of exchanges is the number of turns in which a worker exchanges two
      elements, and its other turns depend on the length alone. */
  lemma SortSwapsAreExchanges(s: seq<int>)
    ensures ExchangesLeft(Begin(|s|), s) == SortSwaps(s)
    ensures TurnsLeft(Begin(|s|), s) == if |s| <= 1 then 2 else 3 + |s| + 2 * (|s| / 2) + SortSwaps(s)
  {
    SwapsAreExchanges(Begin(|s|), s);
  }

  // ----- a worker on the flat array -----

  lemma SliceIsWindow(numbers: seq<int>, L: nat, K: nat, t: nat)
    requires |numbers| == Start(L, K) && t < K
    ensures Start(L, t) + L <= |numbers| && Cut(numbers, L, K)[t] == numbers[Start(L, t)..Start(L, t) + L]
  {
    CutAt(numbers, L, K, t);
  }

  lemma OtherSliceStays(before: seq<int>, after: seq<int>, L: nat, K: nat, t: nat, u: nat)
    requires |before| == |after| == Start(L, K) && t < K && u < K && u != t
    requires forall k :: 0 <= k < |before| && !(Start(L, t) <= k < Start(L, t) + L) ==> after[k] == before[k]
    ensures Cut(after, L, K)[u] == Cut(before, L, K)[u]
  {
    hide Start, Cut;
    SliceIsWindow(before, L, K, u);
    SliceIsWindow(after, L, K, u);
    StartStep(L, t);
    StartStep(L, u);
    if u < t {
      StartMonotone(L, u + 1, t);
    } else {
      StartMonotone(L, t + 1, u);
    }
    var lo := Start(L, u);
    assert forall k :: lo <= k < lo + L ==> after[k] == before[k];
    assert after[lo..lo + L] == before[lo..lo + L];
  }

  /** An exchange of two elements of slice `t` in the flat array is the exchange in that
      slice, and leaves every other slice alone. */
  lemma ExchangeInSlice(numbers: seq<int>, L: nat, K: nat, t: nat, i: nat, j: nat)
    requires |numbers| == Start(L, K) && t < K && i < L && j < L
    ensures Start(L, t) + L <= |numbers|
    ensures Cut(Swap(numbers, Start(L, t) + i, Start(L, t) + j), L, K) ==
            Cut(numbers, L, K)[t := Swap(Cut(numbers, L, K)[t], i, j)]
  {
    hide Start, Cut;
    SliceIsWindow(numbers, L, K, t);
    var lo := Start(L, t);
    var after := Swap(numbers, lo + i, lo + j);
    SliceIsWindow(after, L, K, t);
    assert after[lo..lo + L] == Swap(numbers[lo..lo + L], i, j);
    forall u | 0 <= u < K && u != t
      ensures Cut(after, L, K)[u] == Cut(numbers, L, K)[u]
    {
      OtherSliceStays(numbers, after, L, K, t, u);
    }
  }

  /** A turn of worker `t` on the flat array is one exchange of two elements of slice `t`:
      after it the array, cut into slices, has that slice as the turn leaves it, and the
      other slices as they were. */
  lemma TurnOnFlatArray(numbers: seq<int>, L: nat, K: nat, t: nat, c: Control)
    requires |numbers| == Start(L, K) && t < K && c.Sorting() && c.Fits(L)
    ensures Start(L, t) + L <= |numbers|
    ensures var slices := Cut(numbers, L, K);
            var (i, j) := Exchanged(c, slices[t]);
            Cut(Swap(numbers, Start(L, t) + i, Start(L, t) + j), L, K) == slices[t := Turn(c, slices[t]).1]
  {
    hide *;
    var slice := Cut(numbers, L, K)[t];
    assert Turn(c, slice).1 == Swap(slice, Exchanged(c, slice).0, Exchanged(c, slice).1);
    ExchangeInSlice(numbers, L, K, t, Exchanged(c, slice).0, Exchanged(c, slice).1);
  }

  /** thread_function up to the barrier: in the shared array it sorts slice `t` and
      leaves every other slice alone. */
  method ThreadFunction(numbers: array<int>, L: nat, K: nat, t: nat)
    requires numbers.Length == Start(L, K) && t < K
    modifies numbers
    ensures Cut(numbers[..], L, K) == old(Cut(numbers[..], L, K)[t := Sort(Cut(numbers[..], L, K)[t])])
  {
    hide Start, Cut, Sort;
    ghost var before := numbers[..];
    SliceIsWindow(before, L, K, t);
    var _ := HeapSort.HeapSort(numbers, Start(L, t), L);
    ghost var after := numbers[..];
    SliceIsWindow(after, L, K, t);
    forall u | 0 <= u < K && u != t
      ensures Cut(after, L, K)[u] == Cut(before, L, K)[u]
    {
      OtherSliceStays(before, after, L, K, t, u);
    }
  }

  // ----- the whole program -----

  /** Where main is: creating threads, in pthread_barrier_wait, in merge with `out`
      written, indexing its cursors out of bounds, or done. */
  datatype Main =
    | Creating(next: nat)
    | AtBarrier
    | Merging(cur: seq<nat>, out: seq<int>)
    | Crashed
    | Finished(out: seq<int>)

  /** `outside` records that merge has read past the end of the array. */
  datatype State = State(slices: Slices, workers: seq<Control>, main: Main, arrived: nat, outside: bool)

  datatype Actor = Worker(t: nat) | MainThread

  function Init(numbers: Slices): State {
    State(numbers, seq(|numbers|, t requires 0 <= t < |numbers| => Begin(|numbers[t]|)), Creating(0), 0, false)
  }

  /** The barrier's count is THREAD_COUNT + 1. */
  predicate Open(s: State) {
    s.arrived == |s.slices| + 1
  }

  predicate WellFormed(s: State) {
    && |s.workers| == |s.slices|
    && (forall t :: 0 <= t < |s.workers| ==> s.workers[t].Fits(|s.slices[t]|))
    && (s.main.Merging? ==> InSlices(s.slices, s.main.cur))
  }

  predicate Enabled(s: State, a: Actor)
    requires WellFormed(s)
  {
    match a
    case Worker(t) =>
      && t < |s.workers|
      && (s.main.Creating? ==> t < s.main.next)
      && !s.workers[t].Returned?
      && (s.workers[t].Waiting? ==> Open(s))
    case MainThread =>
      && !s.main.Crashed? && !s.main.Finished?
      && (s.main.AtBarrier? ==> Open(s))
  }

  function WorkerStep(s: State, t: nat): State
    requires WellFormed(s) && Enabled(s, Worker(t))
  {
    if s.workers[t].HeapSorted? then s.(workers := s.workers[t := Waiting], arrived := s.arrived + 1)
    else if s.workers[t].Waiting? then s.(workers := s.workers[t := Returned])
    else
      var (c', slice) := Turn(s.workers[t], s.slices[t]);
      s.(workers := s.workers[t := c'], slices := s.slices[t := slice])
  }

  function MainStep(s: State): State
    requires WellFormed(s) && Enabled(s, MainThread)
  {
    match s.main
    case Creating(next) =>
      if next < |s.workers| then s.(main := Creating(next + 1))
      else s.(main := AtBarrier, arrived := s.arrived + 1)
    case AtBarrier => s.(main := Merging(Starts(s.slices), []))
    case Merging(cur, out) =>
      if |out| >= |Concat(s.slices)| then s.(main := Finished(out))
      else
        var b := Scan(s.slices, cur, |cur|);
        var s := s.(outside := s.outside || !TurnReadsInside(s.slices, cur));
        if b.NoSlice? then s.(main := Crashed)
        else s.(main := Merging(Bump(cur, b.index), out + [b.number]))
  }

  function Step(s: State, a: Actor): State
    requires WellFormed(s) && Enabled(s, a)
  {
    if a.Worker? then WorkerStep(s, a.t) else MainStep(s)
  }

  // ----- what every step keeps -----

  function CountArrived(workers: seq<Control>): nat {
    if workers == [] then 0 else (if workers[0].Arrived() then 1 else 0) + CountArrived(workers[1..])
  }

  lemma {:induction false} CountArrivedUpdate(workers: seq<Control>, t: nat, c: Control)
    requires t < |workers|
    ensures CountArrived(workers[t := c]) ==
            CountArrived(workers) - (if workers[t].Arrived() then 1 else 0) + (if c.Arrived() then 1 else 0)
  {
    if t == 0 {
      assert workers[t := c][1..] == workers[1..];
    } else {
      assert workers[t := c][1..] == workers[1..][t - 1 := c];
      CountArrivedUpdate(workers[1..], t - 1, c);
    }
  }

  lemma {:induction false} CountArrivedAll(workers: seq<Control>)
    ensures CountArrived(workers) <= |workers|
    ensures CountArrived(workers) == |workers| <==> forall t :: 0 <= t < |workers| ==> workers[t].Arrived()
    ensures CountArrived(workers) == 0 <== forall t :: 0 <= t < |workers| ==> !workers[t].Arrived()
  {
    if workers == [] {
    } else {
      CountArrivedAll(workers[1..]);
      assert forall t :: 1 <= t < |workers| ==> workers[t] == workers[1..][t - 1];
    }
  }

  /** Worker `t` leads its slice to the sorted form of what it was. */
  ghost predicate WorkerInv(s: State, numbers: Slices, t: nat)
    requires WellFormed(s) && |numbers| == |s.slices| && t < |numbers|
  {
    && |s.slices[t]| == |numbers[t]|
    && multiset(s.slices[t]) == multiset(numbers[t])
    && Outcome(s.workers[t], s.slices[t]) == Sort(numbers[t])
  }

  ghost predicate MainInv(s: State)
    requires WellFormed(s)
  {
    var n := |Concat(s.slices)|;
    match s.main
    case Creating(next) =>
      !s.outside && next <= |s.workers| && forall t :: next <= t < |s.workers| ==> !s.workers[t].Arrived()
    case AtBarrier => !s.outside
    case Merging(cur, out) =>
      && |out| <= n && out + MergeValues(s.slices, cur, n - |out|) == Output(s.slices)
      && (!s.outside && ReadsInside(s.slices, cur, n - |out|) <==> MergeReadsInside(s.slices))
    case Crashed => |Output(s.slices)| < n && (!s.outside <==> MergeReadsInside(s.slices))
    case Finished(out) => out == Output(s.slices) && |out| == n && (!s.outside <==> MergeReadsInside(s.slices))
  }

  ghost predicate MergeReadsInside(slices: Slices) {
    ReadsInside(slices, Starts(slices), |Concat(slices)|)
  }

  ghost predicate PastBarrier(s: State) {
    !s.main.Creating? && !s.main.AtBarrier?
  }

  ghost predicate Inv(s: State, numbers: Slices) {
    && WellFormed(s) && |numbers| == |s.slices|
    && (forall t :: 0 <= t < |numbers| ==> WorkerInv(s, numbers, t))
    && s.arrived == CountArrived(s.workers) + (if s.main.Creating? then 0 else 1)
    && (PastBarrier(s) ==> Open(s))
    && MainInv(s)
  }

  lemma InitInv(numbers: Slices)
    ensures Inv(Init(numbers), numbers)
  {
    CountArrivedAll(Init(numbers).workers);
  }

  /** Past the barrier every worker has arrived, so each slice is sorted for good. */
  lemma OpenMeansSorted(s: State, numbers: Slices, t: nat)
    requires Inv(s, numbers) && Open(s) && t < |numbers|
    ensures s.workers[t].Arrived() && s.slices[t] == Sort(numbers[t])
  {
    CountArrivedAll(s.workers);
    assert WorkerInv(s, numbers, t);
  }

  lemma WorkerKeepsInv(s: State, numbers: Slices, t: nat)
    requires Inv(s, numbers) && Enabled(s, Worker(t))
    ensures Inv(WorkerStep(s, t), numbers)
    ensures Open(s) ==> WorkerStep(s, t).slices == s.slices
  {
    hide Turn, Sort, MergeValues, Concat, BuildFrom, ExtractFrom, CountArrived, ReadsInside;
    var s' := WorkerStep(s, t);
    if Open(s) {
      OpenMeansSorted(s, numbers, t);
    }
    CountArrivedUpdate(s.workers, t, s'.workers[t]);
    CountArrivedAll(s'.workers);
    assert WorkerInv(s, numbers, t);
    if s.workers[t].Sorting() {
      TurnProgress(s.workers[t], s.slices[t]);
    }
    forall u | 0 <= u < |numbers|
      ensures WorkerInv(s', numbers, u)
    {
      assert WorkerInv(s, numbers, u);
    }
  }

  lemma MergeTurnKeepsMainInv(s: State)
    requires WellFormed(s) && MainInv(s) && s.main.Merging? && Enabled(s, MainThread)
    ensures WellFormed(MainStep(s)) && MainInv(MainStep(s))
  {
    hide MergeValues, Scan, Concat, Output, ReadsInside, TurnReadsInside, MergeReadsInside;
    var n, out := |Concat(s.slices)|, s.main.out;
    if |out| < n {
      MergeUnfolds(s.slices, s.main.cur, n - |out|);
      assert MergeValues(s.slices, s.main.cur, n - |out|) == Output(s.slices)[|out|..];
    } else {
      assert MergeValues(s.slices, s.main.cur, 0) == [];
      NothingToRead(s.slices, s.main.cur);
    }
  }

  lemma MainKeepsInv(s: State, numbers: Slices)
    requires Inv(s, numbers) && Enabled(s, MainThread)
    ensures Inv(MainStep(s), numbers) && MainStep(s).slices == s.slices
  {
    hide Outcome, Sort, MergeValues, Concat, CountArrived, Scan, ReadsInside, TurnReadsInside;
    var s' := MainStep(s);
    if s.main.Merging? {
      MergeTurnKeepsMainInv(s);
    }
    forall u | 0 <= u < |numbers|
      ensures WorkerInv(s', numbers, u)
    {
      assert WorkerInv(s, numbers, u);
    }
  }

  // ----- runs -----

  /** The actors can take turns in the order of the schedule. */
  predicate Runs(s: State, schedule: seq<Actor>)
    decreases |schedule|
  {
    schedule == [] ||
    (WellFormed(s) && Enabled(s, schedule[0]) && Runs(Step(s, schedule[0]), schedule[1..]))
  }

  function After(s: State, schedule: seq<Actor>): State
    requires Runs(s, schedule)
    decreases |schedule|
  {
    if schedule == [] then s else After(Step(s, schedule[0]), schedule[1..])
  }

  lemma {:induction false} RunKeepsInv(s: State, numbers: Slices, schedule: seq<Actor>)
    requires Inv(s, numbers) && Runs(s, schedule)
    ensures Inv(After(s, schedule), numbers)
    ensures Open(s) ==> Open(After(s, schedule)) && After(s, schedule).slices == s.slices
    decreases |schedule|
  {
    hide Inv, WorkerInv, MainInv;
    if schedule == [] {
    } else {
      StepKeepsInv(s, numbers, schedule[0]);
      RunKeepsInv(Step(s, schedule[0]), numbers, schedule[1..]);
    }
  }

  lemma StepKeepsInv(s: State, numbers: Slices, a: Actor)
    requires Inv(s, numbers) && Enabled(s, a)
    ensures Inv(Step(s, a), numbers)
    ensures Open(s) ==> Open(Step(s, a)) && Step(s, a).slices == s.slices
  {
    if a.Worker? {
      if Open(s) {
        OpenMeansSorted(s, numbers, a.t);
      }
      WorkerKeepsInv(s, numbers, a.t);
    } else {
      CountArrivedAll(s.workers);
      MainKeepsInv(s, numbers);
    }
  }

  /** Once merge has started every slice is sorted, and no later turn writes to one. */
  lemma MergeSeesSortedSlices(numbers: Slices, schedule: seq<Actor>, more: seq<Actor>)
    requires Runs(Init(numbers), schedule) && PastBarrier(After(Init(numbers), schedule))
    requires Runs(After(Init(numbers), schedule), more)
    ensures var s := After(Init(numbers), schedule);
            && |s.slices| == |numbers|
            && (forall t :: 0 <= t < |numbers| ==> s.slices[t] == Sort(numbers[t]))
            && After(s, more).slices == s.slices
  {
    InitInv(numbers);
    RunKeepsInv(Init(numbers), numbers, schedule);
    var s := After(Init(numbers), schedule);
    forall t | 0 <= t < |numbers|
      ensures s.slices[t] == Sort(numbers[t])
    {
      OpenMeansSorted(s, numbers, t);
    }
    RunKeepsInv(s, numbers, more);
  }

  lemma {:induction false} ConcatPermutes(a: Slices, b: Slices)
    requires |a| == |b| && forall t :: 0 <= t < |a| ==> multiset(a[t]) == multiset(b[t])
    ensures multiset(Concat(a)) == multiset(Concat(b)) && |Concat(a)| == |Concat(b)|
  {
    if a == [] {
    } else {
      ConcatPermutes(a[..|a| - 1], b[..|b| - 1]);
    }
    assert |multiset(Concat(a))| == |Concat(a)| && |multiset(Concat(b))| == |Concat(b)|;
  }

  /** Whatever the order of the turns, what merge leaves in sorted_numbers is what
      heap_sort alone would make of all the numbers. */
  lemma ScheduleDoesNotMatter(numbers: Slices, schedule: seq<Actor>)
    requires Runs(Init(numbers), schedule) && After(Init(numbers), schedule).main.Finished?
    ensures After(Init(numbers), schedule).main.out == Sort(Concat(numbers))
  {
    var s := After(Init(numbers), schedule);
    InitInv(numbers);
    RunKeepsInv(Init(numbers), numbers, schedule);
    forall t | 0 <= t < |numbers|
      ensures Sorted(s.slices[t]) && multiset(s.slices[t]) == multiset(numbers[t])
    {
      OpenMeansSorted(s, numbers, t);
      SortIsSort(numbers[t]);
    }
    MergeIsStableSort(s.slices);
    ConcatPermutes(s.slices, numbers);
    SortIsSort(Concat(numbers));
  }

  /** The same for the flat array that main fills, cut into K slices of length L. */
  lemma FlatArrayIsSorted(numbers: seq<int>, L: nat, K: nat, schedule: seq<Actor>)
    requires |numbers| == Start(L, K)
    requires Runs(Init(Cut(numbers, L, K)), schedule) && After(Init(Cut(numbers, L, K)), schedule).main.Finished?
    ensures After(Init(Cut(numbers, L, K)), schedule).main.out == Sort(numbers)
  {
    ScheduleDoesNotMatter(Cut(numbers, L, K), schedule);
    ConcatCut(numbers, L, K);
    assert numbers[..|numbers|] == numbers;
  }

  lemma CrashExactlyAtMax(s: State, numbers: Slices)
    requires Inv(s, numbers)
    ensures if forall x :: x in Concat(numbers) ==> x < RAND_MAX then !s.main.Crashed? else !s.main.Finished?
  {
    forall t | 0 <= t < |numbers|
      ensures multiset(s.slices[t]) == multiset(numbers[t])
    {
      assert WorkerInv(s, numbers, t);
    }
    ConcatPermutes(s.slices, numbers);
    MergeCompletes(s.slices);
    assert forall x :: x in Concat(numbers) <==> x in multiset(Concat(numbers));
    assert forall x :: x in Concat(s.slices) <==> x in multiset(Concat(s.slices));
  }

  /** If every number is below RAND_MAX no run takes merge out of its arrays, and
      otherwise no run finishes. */
  lemma RunCrashesExactlyAtMax(numbers: Slices, schedule: seq<Actor>)
    requires Runs(Init(numbers), schedule)
    ensures var main := After(Init(numbers), schedule).main;
            if forall x :: x in Concat(numbers) ==> x < RAND_MAX then !main.Crashed? else !main.Finished?
  {
    InitInv(numbers);
    RunKeepsInv(Init(numbers), numbers, schedule);
    CrashExactlyAtMax(After(Init(numbers), schedule), numbers);
  }

  lemma NoneExceedsPermuted(a: seq<int>, b: seq<int>, x: int)
    requires multiset(a) == multiset(b) && NoneExceeds(a, x)
    ensures NoneExceeds(b, x)
  {
    assert forall y :: y in b <==> y in multiset(b);
    assert forall y :: y in multiset(a) <==> y in a;
  }

  lemma HoldsLargestPermuted(a: Slices, b: Slices)
    requires |a| == |b| && forall t :: 0 <= t < |a| ==> multiset(a[t]) == multiset(b[t])
    requires LastHoldsLargest(a)
    ensures LastHoldsLargest(b)
  {
    ConcatPermutes(a, b);
    hide Concat, NoneExceeds;
    var last, last' := a[|a| - 1], b[|b| - 1];
    var k :| 0 <= k < |last| && (last[k] >= RAND_MAX || NoneExceeds(Concat(a), last[k]));
    assert last[k] in multiset(last');
    var k' :| 0 <= k' < |last'| && last'[k'] == last[k];
    if NoneExceeds(Concat(a), last[k]) {
      NoneExceedsPermuted(Concat(a), Concat(b), last[k]);
    }
  }

  lemma SafeExactly(slices: Slices, numbers: Slices)
    requires |slices| == |numbers| && AllSorted(slices)
    requires forall t :: 0 <= t < |slices| ==> multiset(slices[t]) == multiset(numbers[t])
    ensures MergeReadsInside(slices) <==> Concat(numbers) == [] || LastHoldsLargest(numbers)
  {
    MergeReadsInsideExactly(slices);
    ConcatPermutes(slices, numbers);
    hide ReadsInside, Concat, LastHoldsLargest;
    if LastHoldsLargest(slices) {
      HoldsLargestPermuted(slices, numbers);
    }
    if LastHoldsLargest(numbers) {
      HoldsLargestPermuted(numbers, slices);
    }
  }

  /** merge can only read past the end of the array, and in every run whose merge is over
      it has done so, if there was something to merge and the last slice held no largest
      number when the program began. */
  lemma ReadsPastEndExactly(numbers: Slices, schedule: seq<Actor>)
    requires Runs(Init(numbers), schedule)
    ensures var s := After(Init(numbers), schedule);
            var safe := Concat(numbers) == [] || LastHoldsLargest(numbers);
            if s.main.Finished? || s.main.Crashed? then s.outside <==> !safe else s.outside ==> !safe
  {
    var s := After(Init(numbers), schedule);
    InitInv(numbers);
    RunKeepsInv(Init(numbers), numbers, schedule);
    hide Init, Runs, After, MergeReadsInside, ReadsInside, LastHoldsLargest, WorkerInv;
    if PastBarrier(s) {
      forall t | 0 <= t < |numbers|
        ensures Sorted(s.slices[t]) && multiset(s.slices[t]) == multiset(numbers[t])
      {
        OpenMeansSorted(s, numbers, t);
        SortIsSort(numbers[t]);
      }
      SafeExactly(s.slices, numbers);
    }
  }

  lemma LargestInTail(numbers: seq<int>, last: seq<int>)
    requires |last| <= |numbers| && last == numbers[|numbers| - |last|..]
    requires forall y :: y in numbers ==> y < RAND_MAX
    ensures (exists k :: 0 <= k < |last| && (last[k] >= RAND_MAX || NoneExceeds(numbers, last[k])))
       <==> exists k :: |numbers| - |last| <= k < |numbers| && NoneExceeds(numbers, numbers[k])
  {
    hide NoneExceeds;
    var lo := |numbers| - |last|;
    assert forall k :: 0 <= k < |last| ==> last[k] == numbers[lo + k] && last[k] in numbers;
    if k :| lo <= k < |numbers| && NoneExceeds(numbers, numbers[k]) {
      assert last[k - lo] == numbers[k];
    }
  }

  lemma LastSlice(numbers: seq<int>, L: nat, K: nat)
    requires |numbers| == Start(L, K) > 0
    ensures K > 0 && L <= |numbers| && Cut(numbers, L, K)[K - 1] == numbers[|numbers| - L..]
  {
    StartStep(L, 0);
    assert K > 0;
    StartStep(L, K - 1);
    hide Start, Cut;
    SliceIsWindow(numbers, L, K, K - 1);
  }

  lemma LargestInFlatArray(numbers: seq<int>, L: nat, K: nat)
    requires |numbers| == Start(L, K) > 0 && forall y :: y in numbers ==> y < RAND_MAX
    ensures L <= |numbers|
    ensures LastHoldsLargest(Cut(numbers, L, K))
       <==> exists k :: |numbers| - L <= k < |numbers| && NoneExceeds(numbers, numbers[k])
  {
    LastSlice(numbers, L, K);
    ConcatCut(numbers, L, K);
    assert numbers[..|numbers|] == numbers;
    hide Start, Cut, Concat;
    LargestInTail(numbers, Cut(numbers, L, K)[K - 1]);
  }

  /** For the flat array and a run that finishes: nothing past its end was read exactly
      if one of its last L numbers is a largest of all. */
  lemma FlatArrayReadsPastEndExactly(numbers: seq<int>, L: nat, K: nat, schedule: seq<Actor>)
    requires |numbers| == Start(L, K) > 0
    requires Runs(Init(Cut(numbers, L, K)), schedule) && After(Init(Cut(numbers, L, K)), schedule).main.Finished?
    ensures L <= |numbers|
    ensures !After(Init(Cut(numbers, L, K)), schedule).outside
       <==> exists k :: |numbers| - L <= k < |numbers| && NoneExceeds(numbers, numbers[k])
  {
    var slices := Cut(numbers, L, K);
    hide Init, Runs, After, Cut, LastHoldsLargest, NoneExceeds, Start, Concat;
    ReadsPastEndExactly(slices, schedule);
    RunCrashesExactlyAtMax(slices, schedule);
    ConcatCut(numbers, L, K);
    assert numbers[..|numbers|] == numbers;
    assert Concat(slices) == numbers;
    LargestInFlatArray(numbers, L, K);
  }

  /** The program's own numbers are remainders by 80000000: no run crashes. */
  lemma RemaindersDoNotCrash(numbers: Slices, schedule: seq<Actor>)
    requires Runs(Init(numbers), schedule)
    requires forall x :: x in Concat(numbers) ==> 0 <= x < 80_000_000
    ensures !After(Init(numbers), schedule).main.Crashed?
  {
    RunCrashesExactlyAtMax(numbers, schedule);
  }

  // ----- how many turns a run takes -----

  function MainTurns(s: State): nat {
    var n := |Concat(s.slices)|;
    match s.main
    case Creating(next) => (if next <= |s.workers| then |s.workers| - next else 0) + n + 3
    case AtBarrier => n + 2
    case Merging(cur, out) => (if |out| <= n then n - |out| else 0) + 1
    case _ => 0
  }

  function WorkerTurns(s: State): (r: seq<nat>)
    requires WellFormed(s)
    ensures |r| == |s.workers|
  {
    seq(|s.workers|, t requires 0 <= t < |s.workers| => TurnsLeft(s.workers[t], s.slices[t]))
  }

  /** The turns that are left: it depends on the state only, not on what comes next. */
  function Turns(s: State): nat
    requires WellFormed(s)
  {
    Sum(WorkerTurns(s)) + MainTurns(s)
  }

  lemma ConcatLength(a: Slices, t: nat, slice: seq<int>)
    requires t < |a| && |slice| == |a[t]|
    ensures |Concat(a[t := slice])| == |Concat(a)|
  {
    if t < |a| - 1 {
      assert a[t := slice][..|a| - 1] == a[..|a| - 1][t := slice];
      ConcatLength(a[..|a| - 1], t, slice);
    } else {
      assert a[t := slice][..|a| - 1] == a[..|a| - 1];
    }
  }

  lemma OneFewer(s: State, t: nat)
    requires WellFormed(s) && Enabled(s, Worker(t))
    ensures var s' := WorkerStep(s, t);
            && |s'.slices[t]| == |s.slices[t]|
            && s'.workers[t].Fits(|s'.slices[t]|)
            && TurnsLeft(s.workers[t], s.slices[t]) == 1 + TurnsLeft(s'.workers[t], s'.slices[t])
  {
    hide Turn, BuildTurns, ExtractTurns;
    if s.workers[t].Sorting() {
      TurnProgress(s.workers[t], s.slices[t]);
    }
  }

  lemma WorkerStepCounts(s: State, numbers: Slices, t: nat)
    requires Inv(s, numbers) && Enabled(s, Worker(t))
    ensures WellFormed(WorkerStep(s, t)) && Turns(s) == 1 + Turns(WorkerStep(s, t))
  {
    hide Turn, TurnsLeft, Concat, WorkerInv, MainInv, Outcome;
    var s' := WorkerStep(s, t);
    WorkerKeepsInv(s, numbers, t);
    var c', slice' := s'.workers[t], s'.slices[t];
    assert TurnsLeft(s.workers[t], s.slices[t]) == 1 + TurnsLeft(c', slice') by {
      OneFewer(s, t);
    }
    assert WorkerTurns(s') == WorkerTurns(s)[t := TurnsLeft(c', slice')];
    SumUpdate(WorkerTurns(s), t, TurnsLeft(c', slice'));
    ConcatLength(s.slices, t, slice');
    assert s'.slices == s.slices[t := slice'];
  }

  lemma MainStepCounts(s: State, numbers: Slices)
    requires Inv(s, numbers) && Enabled(s, MainThread) && !MainStep(s).main.Crashed?
    ensures WellFormed(MainStep(s)) && Turns(s) == 1 + Turns(MainStep(s))
  {
    hide TurnsLeft, Concat, Scan, Outcome;
    MainKeepsInv(s, numbers);
    assert WorkerTurns(MainStep(s)) == WorkerTurns(s);
  }

  lemma SomeoneIsEnabled(s: State, numbers: Slices)
    requires Inv(s, numbers) && !s.main.Crashed? && Turns(s) > 0
    ensures exists a :: Enabled(s, a)
  {
    hide WorkerInv, Outcome, Concat, MergeValues, ReadsInside, Output, BuildTurns, ExtractTurns;
    CountArrivedAll(s.workers);
    if Enabled(s, MainThread) {
    } else if s.main.AtBarrier? {
      var t :| 0 <= t < |s.workers| && !s.workers[t].Arrived();
      assert Enabled(s, Worker(t));
    } else {
      SumZero(WorkerTurns(s));
      var t :| 0 <= t < |s.workers| && WorkerTurns(s)[t] != 0;
      assert Enabled(s, Worker(t));
    }
  }

  /** Who can take a turn in any state that a run reaches: a worker that has been created
      and is not done, unless it waits while another has not arrived; and main, unless it
      is done or waits so. */
  lemma OnlyTheBarrierBlocks(numbers: Slices, schedule: seq<Actor>, t: nat)
    requires Runs(Init(numbers), schedule) && t < |numbers|
    ensures var s := After(Init(numbers), schedule);
            var allArrived := !s.main.Creating? && forall u :: 0 <= u < |s.workers| ==> s.workers[u].Arrived();
            && WellFormed(s) && |s.workers| == |numbers|
            && (Enabled(s, Worker(t)) <==>
                  && (s.main.Creating? ==> t < s.main.next)
                  && (s.workers[t].Sorting() || s.workers[t].HeapSorted? || (s.workers[t].Waiting? && allArrived)))
            && (Enabled(s, MainThread) <==>
                  s.main.Creating? || s.main.Merging? || (s.main.AtBarrier? && allArrived))
  {
    InitInv(numbers);
    RunKeepsInv(Init(numbers), numbers, schedule);
    CountArrivedAll(After(Init(numbers), schedule).workers);
  }

  function MainTurnsIn(schedule: seq<Actor>): nat {
    if schedule == [] then 0 else (if schedule[0].MainThread? then 1 else 0) + MainTurnsIn(schedule[1..])
  }

  /** How many turns main has taken to get there: none of them is skipped. */
  ghost predicate MainCame(s: State, turns: nat)
    requires WellFormed(s)
  {
    match s.main
    case Creating(next) => turns == next
    case AtBarrier => turns == |s.workers| + 1
    case Merging(_, out) => turns == |s.workers| + 2 + |out|
    case Finished(out) => turns == |s.workers| + 3 + |out|
    case Crashed => true
  }

  lemma TurnComes(s: State, numbers: Slices, a: Actor, turns: nat)
    requires Inv(s, numbers) && Enabled(s, a) && MainCame(s, turns)
    ensures WellFormed(Step(s, a)) && MainCame(Step(s, a), turns + if a.MainThread? then 1 else 0)
  {
    hide WorkerInv, Turn, Scan, Concat, ReadsInside, MergeValues, Output;
    StepKeepsInv(s, numbers, a);
  }

  lemma {:induction false} MainTakesItsTurns(s: State, numbers: Slices, schedule: seq<Actor>, turns: nat)
    requires Inv(s, numbers) && Runs(s, schedule) && MainCame(s, turns)
    ensures WellFormed(After(s, schedule)) && MainCame(After(s, schedule), turns + MainTurnsIn(schedule))
    decreases |schedule|
  {
    hide WorkerInv, MainInv, Step, MainCame;
    if schedule == [] {
    } else {
      var next, more := Step(s, schedule[0]), if schedule[0].MainThread? then 1 else 0;
      StepKeepsInv(s, numbers, schedule[0]);
      TurnComes(s, numbers, schedule[0], turns);
      MainTakesItsTurns(next, numbers, schedule[1..], turns + more);
    }
  }

  /** main creates the workers one by one before it waits, and copies one number in each
      turn of merge. */
  lemma MainTakesAllItsTurns(numbers: Slices, schedule: seq<Actor>)
    requires Runs(Init(numbers), schedule)
    ensures var s := After(Init(numbers), schedule);
            WellFormed(s) && MainCame(s, MainTurnsIn(schedule))
  {
    InitInv(numbers);
    MainTakesItsTurns(Init(numbers), numbers, schedule, 0);
  }

  lemma StepCounts(s: State, numbers: Slices, a: Actor)
    requires Inv(s, numbers) && Enabled(s, a) && !Step(s, a).main.Crashed?
    ensures WellFormed(Step(s, a)) && Turns(s) == 1 + Turns(Step(s, a))
  {
    if a.Worker? {
      WorkerStepCounts(s, numbers, a.t);
    } else {
      MainStepCounts(s, numbers);
    }
  }

  /** When nobody can take a turn main has finished, or has left its arrays: exactly if some
      number is not below RAND_MAX. */
  lemma StuckExactlyAtTheEnd(numbers: Slices, schedule: seq<Actor>)
    requires Runs(Init(numbers), schedule)
    requires forall a :: WellFormed(After(Init(numbers), schedule)) ==> !Enabled(After(Init(numbers), schedule), a)
    ensures var main := After(Init(numbers), schedule).main;
            if forall x :: x in Concat(numbers) ==> x < RAND_MAX then main.Finished? else main.Crashed?
  {
    var s := After(Init(numbers), schedule);
    InitInv(numbers);
    RunKeepsInv(Init(numbers), numbers, schedule);
    CrashExactlyAtMax(s, numbers);
    if !s.main.Crashed? && Turns(s) > 0 {
      SomeoneIsEnabled(s, numbers);
    }
  }

  lemma {:induction false} RunCounts(s: State, numbers: Slices, schedule: seq<Actor>)
    requires Inv(s, numbers) && Runs(s, schedule)
    requires forall x :: x in Concat(numbers) ==> x < RAND_MAX
    ensures WellFormed(After(s, schedule)) && Turns(s) == |schedule| + Turns(After(s, schedule))
    decreases |schedule|
  {
    hide Turns, WorkerInv, MainInv;
    if schedule == [] {
    } else {
      var next := Step(s, schedule[0]);
      StepKeepsInv(s, numbers, schedule[0]);
      CrashExactlyAtMax(next, numbers);
      StepCounts(s, numbers, schedule[0]);
      RunCounts(next, numbers, schedule[1..]);
    }
  }

  /** Every run has the same length.  Before as many turns as there are at the start
      somebody can take the next one; after them nobody can, and main has finished. */
  lemma EveryRunHasTheSameLength(numbers: Slices, schedule: seq<Actor>)
    requires Runs(Init(numbers), schedule)
    requires forall x :: x in Concat(numbers) ==> x < RAND_MAX
    ensures var s := After(Init(numbers), schedule);
            && |schedule| <= Turns(Init(numbers))
            && WellFormed(s)
            && ((exists a :: Enabled(s, a)) <==> |schedule| < Turns(Init(numbers)))
            && (|schedule| == Turns(Init(numbers)) ==> s.main.Finished?)
  {
    var s := After(Init(numbers), schedule);
    InitInv(numbers);
    RunKeepsInv(Init(numbers), numbers, schedule);
    RunCounts(Init(numbers), numbers, schedule);
    CrashExactlyAtMax(s, numbers);
    hide MainInv, WorkerInv;
    if Turns(s) > 0 {
      SomeoneIsEnabled(s, numbers);
    } else if a :| Enabled(s, a) {
      StepKeepsInv(s, numbers, a);
      CrashExactlyAtMax(Step(s, a), numbers);
      StepCounts(s, numbers, a);
      assert false;
    }
  }
}
