/** merge of 11.threads/09_barrier.c.  What it computes is stated on the list of its
    slices; the method at the end works on the flat arrays, where slice `t` of length
    L starts at t * L. */
module Merge {
  import opened Sequences

  const RAND_MAX := 0x7FFF_FFFF

  type Slices = seq<seq<int>>

  /** Element `index` of slice `slice`. */
  datatype Position = Position(slice: nat, index: nat)

  predicate Within(slices: Slices, p: Position) {
    p.slice < |slices| && p.index < |slices[p.slice]|
  }

  function At(slices: Slices, p: Position): int
    requires Within(slices, p)
  {
    slices[p.slice][p.index]
  }

  /** One cursor for each slice, inside it or at its end. */
  predicate InSlices(slices: Slices, cur: seq<nat>) {
    && |cur| == |slices|
    && forall t :: 0 <= t < |cur| ==> cur[t] <= |slices[t]|
  }

  function Bump(cur: seq<nat>, t: nat): (r: seq<nat>)
    requires t < |cur|
    ensures |r| == |cur| && r[t] == cur[t] + 1
    ensures forall u :: 0 <= u < |cur| && u != t ==> r[u] == cur[u]
  {
    cur[t := cur[t] + 1]
  }

  /** The pair (min_thread_index, min_number): `NoSlice` stands for its initial value
      (INT_MAX, RAND_MAX), with which no slice is chosen. */
  datatype Best = NoSlice | Slice(index: nat, number: int) {
    function Bound(): int {
      if NoSlice? then RAND_MAX else number
    }
  }

  /** The inner loop after it has looked at the slices before `j`. */
  function Scan(slices: Slices, cur: seq<nat>, j: nat): (b: Best)
    requires InSlices(slices, cur) && j <= |cur|
    ensures b.Slice? ==> b.index < j && cur[b.index] < |slices[b.index]|
    ensures b.Slice? ==> slices[b.index][cur[b.index]] == b.number < RAND_MAX
  {
    if j == 0 then NoSlice
    else
      var b := Scan(slices, cur, j - 1);
      if cur[j - 1] < |slices[j - 1]| && slices[j - 1][cur[j - 1]] < b.Bound()
      then Slice(j - 1, slices[j - 1][cur[j - 1]]) else b
  }

  /** The positions that the next `todo` turns of the outer loop copy from.  A turn that
      finds no slice indexes the cursors out of bounds: the listing ends there. */
  function MergeOrder(slices: Slices, cur: seq<nat>, todo: nat): (order: seq<Position>)
    requires InSlices(slices, cur)
    ensures |order| <= todo
    decreases todo
  {
    if todo == 0 then []
    else
      var b := Scan(slices, cur, |cur|);
      if b.NoSlice? then []
      else [Position(b.index, cur[b.index])] + MergeOrder(slices, Bump(cur, b.index), todo - 1)
  }

  /** What the next `todo` turns of the outer loop output. */
  function MergeValues(slices: Slices, cur: seq<nat>, todo: nat): (values: seq<int>)
    requires InSlices(slices, cur)
    ensures |values| <= todo
    decreases todo
  {
    if todo == 0 then []
    else
      var b := Scan(slices, cur, |cur|);
      if b.NoSlice? then [] else [b.number] + MergeValues(slices, Bump(cur, b.index), todo - 1)
  }

  lemma {:induction false} ValuesFollowOrder(slices: Slices, cur: seq<nat>, todo: nat)
    requires InSlices(slices, cur)
    ensures var order := MergeOrder(slices, cur, todo);
            var values := MergeValues(slices, cur, todo);
            && |values| == |order|
            && forall i :: 0 <= i < |order| ==> Within(slices, order[i]) && values[i] == At(slices, order[i])
    decreases todo
  {
    if todo == 0 {
    } else {
      var b := Scan(slices, cur, |cur|);
      if b.Slice? {
        ValuesFollowOrder(slices, Bump(cur, b.index), todo - 1);
      }
    }
  }

  /** A scan finds the smallest element at a cursor, and the first slice that has it. */
  lemma {:induction false} ScanFindsFirstSmallest(slices: Slices, cur: seq<nat>, j: nat)
    requires InSlices(slices, cur) && j <= |cur|
    ensures var b := Scan(slices, cur, j);
            forall t :: 0 <= t < j && cur[t] < |slices[t]| ==>
              slices[t][cur[t]] >= b.Bound() && (b.Slice? && t < b.index ==> slices[t][cur[t]] > b.number)
  {
    if j == 0 {
    } else {
      ScanFindsFirstSmallest(slices, cur, j - 1);
    }
  }

  // ----- what is left to merge -----

  /** The elements that the cursors of the slices before `k` have not passed. */
  ghost function Bag(slices: Slices, cur: seq<nat>, k: nat): multiset<int>
    requires InSlices(slices, cur) && k <= |cur|
  {
    if k == 0 then multiset{} else Bag(slices, cur, k - 1) + multiset(slices[k - 1][cur[k - 1]..])
  }

  ghost function Rest(slices: Slices, cur: seq<nat>): multiset<int>
    requires InSlices(slices, cur)
  {
    Bag(slices, cur, |cur|)
  }

  lemma TailBag(s: seq<int>, k: nat)
    requires k < |s|
    ensures multiset(s[k..]) == multiset(s[k + 1..]) + multiset{s[k]}
  {
    assert s[k..] == [s[k]] + s[k + 1..];
  }

  lemma BagUnfolds(slices: Slices, cur: seq<nat>, k: nat)
    requires InSlices(slices, cur) && 0 < k <= |cur|
    ensures Bag(slices, cur, k) == Bag(slices, cur, k - 1) + multiset(slices[k - 1][cur[k - 1]..])
  {
  }

  lemma Regroup(a: multiset<int>, b: multiset<int>, c: multiset<int>)
    ensures a + b + c == a + (b + c) && a + b + c == a + c + b
  {
  }

  lemma {:induction false} BagSame(slices: Slices, a: seq<nat>, b: seq<nat>, k: nat)
    requires InSlices(slices, a) && InSlices(slices, b) && k <= |a|
    requires forall t :: 0 <= t < k ==> a[t] == b[t]
    ensures Bag(slices, a, k) == Bag(slices, b, k)
  {
    if k == 0 {
    } else {
      BagSame(slices, a, b, k - 1);
    }
  }

  lemma {:induction false} BagBump(slices: Slices, cur: seq<nat>, t: nat, k: nat)
    requires InSlices(slices, cur) && t < k <= |cur| && cur[t] < |slices[t]|
    ensures Bag(slices, cur, k) == Bag(slices, Bump(cur, t), k) + multiset{slices[t][cur[t]]}
  {
    var next, x := Bump(cur, t), multiset{slices[t][cur[t]]};
    BagUnfolds(slices, cur, k);
    BagUnfolds(slices, next, k);
    hide Bag, Bump;
    var before, last := Bag(slices, next, k - 1), multiset(slices[k - 1][next[k - 1]..]);
    Regroup(before, last, x);
    if t == k - 1 {
      BagSame(slices, cur, next, k - 1);
      TailBag(slices[t], cur[t]);
      assert Bag(slices, cur, k) == before + (last + x);
    } else {
      BagBump(slices, cur, t, k - 1);
      assert Bag(slices, cur, k) == before + x + last;
    }
  }

  lemma {:induction false} BagHolds(slices: Slices, cur: seq<nat>, k: nat, t: nat)
    requires InSlices(slices, cur) && t < k <= |cur| && cur[t] < |slices[t]|
    ensures slices[t][cur[t]] in Bag(slices, cur, k)
  {
    if t < k - 1 {
      BagHolds(slices, cur, k - 1, t);
    } else {
      assert slices[t][cur[t]..][0] == slices[t][cur[t]];
    }
  }

  lemma {:induction false} BagEmpty(slices: Slices, cur: seq<nat>, k: nat)
    requires InSlices(slices, cur) && k <= |cur|
    requires forall t :: 0 <= t < k ==> cur[t] == |slices[t]|
    ensures Bag(slices, cur, k) == multiset{}
  {
    if k == 0 {
    } else {
      BagEmpty(slices, cur, k - 1);
    }
  }

  ghost predicate AllBelowMax(bag: multiset<int>) {
    forall x :: x in bag ==> x < RAND_MAX
  }

  lemma AddBelowMax(bag: multiset<int>, x: int)
    requires x < RAND_MAX
    ensures AllBelowMax(bag + multiset{x}) <==> AllBelowMax(bag)
  {
    assert bag <= bag + multiset{x};
    assert forall y :: y in bag + multiset{x} <==> y in bag || y == x;
  }

  lemma EmptyIsBelowMax(bag: multiset<int>)
    requires |bag| == 0
    ensures AllBelowMax(bag)
  {
  }

  /** merge finds a slice for each of its outputs exactly when everything that is left
      is below RAND_MAX. */
  lemma {:induction false} CompleteExactlyBelowMax(slices: Slices, cur: seq<nat>, todo: nat)
    requires InSlices(slices, cur) && todo == |Rest(slices, cur)|
    ensures |MergeValues(slices, cur, todo)| == todo <==> AllBelowMax(Rest(slices, cur))
    decreases todo
  {
    hide Bag, Scan;
    if todo == 0 {
      EmptyIsBelowMax(Rest(slices, cur));
    } else {
      var b := Scan(slices, cur, |cur|);
      if b.NoSlice? {
        ScanFindsFirstSmallest(slices, cur, |cur|);
        if forall t :: 0 <= t < |cur| ==> cur[t] == |slices[t]| {
          BagEmpty(slices, cur, |cur|);
        } else {
          var t :| 0 <= t < |cur| && cur[t] != |slices[t]|;
          BagHolds(slices, cur, |cur|, t);
          assert !AllBelowMax(Rest(slices, cur));
        }
      } else {
        var next := Bump(cur, b.index);
        BagBump(slices, cur, b.index, |cur|);
        CompleteExactlyBelowMax(slices, next, todo - 1);
        assert |MergeValues(slices, cur, todo)| == 1 + |MergeValues(slices, next, todo - 1)|;
        assert Rest(slices, cur) == Rest(slices, next) + multiset{b.number};
        AddBelowMax(Rest(slices, next), b.number);
      }
    }
  }

  /** A complete merge outputs each element that was left exactly once. */
  lemma {:induction false} CompletePermutes(slices: Slices, cur: seq<nat>, todo: nat)
    requires InSlices(slices, cur) && todo == |Rest(slices, cur)|
    requires |MergeValues(slices, cur, todo)| == todo
    ensures multiset(MergeValues(slices, cur, todo)) == Rest(slices, cur)
    decreases todo
  {
    if todo == 0 {
    } else {
      var b := Scan(slices, cur, |cur|);
      BagBump(slices, cur, b.index, |cur|);
      CompletePermutes(slices, Bump(cur, b.index), todo - 1);
    }
  }

  // ----- the order of the outputs -----

  ghost predicate AllSorted(slices: Slices) {
    forall t :: 0 <= t < |slices| ==> Sorted(slices[t])
  }

  ghost predicate Left(slices: Slices, cur: seq<nat>, p: Position)
    requires |cur| == |slices|
  {
    Within(slices, p) && cur[p.slice] <= p.index
  }

  /** The order of a stable sort: by value, and equal values by slice and then by the
      position in the slice. */
  ghost predicate Before(slices: Slices, p: Position, q: Position) {
    Within(slices, p) && Within(slices, q) &&
    (At(slices, p) < At(slices, q) ||
     (At(slices, p) == At(slices, q) && (p.slice < q.slice || (p.slice == q.slice && p.index < q.index))))
  }

  ghost predicate StablySorted(slices: Slices, order: seq<Position>) {
    forall i, j :: 0 <= i < j < |order| ==> Before(slices, order[i], order[j])
  }

  lemma PickIsFirst(slices: Slices, cur: seq<nat>, q: Position)
    requires InSlices(slices, cur) && AllSorted(slices) && Left(slices, cur, q)
    requires Scan(slices, cur, |cur|).Slice?
    ensures var t := Scan(slices, cur, |cur|).index;
            var p := Position(t, cur[t]);
            q == p || Before(slices, p, q)
  {
    ScanFindsFirstSmallest(slices, cur, |cur|);
    assert Sorted(slices[q.slice]);
    assert slices[q.slice][cur[q.slice]] <= At(slices, q);
  }

  lemma {:induction false} OutputIsStable(slices: Slices, cur: seq<nat>, todo: nat)
    requires InSlices(slices, cur) && AllSorted(slices)
    ensures var order := MergeOrder(slices, cur, todo);
            StablySorted(slices, order) && forall q :: q in order ==> Left(slices, cur, q)
    decreases todo
  {
    if todo == 0 || Scan(slices, cur, |cur|).NoSlice? {
    } else {
      var t := Scan(slices, cur, |cur|).index;
      var next := Bump(cur, t);
      OutputIsStable(slices, next, todo - 1);
      var rest := MergeOrder(slices, next, todo - 1);
      forall q | q in rest
        ensures Left(slices, cur, q) && Before(slices, Position(t, cur[t]), q)
      {
        assert Left(slices, next, q);
        PickIsFirst(slices, cur, q);
      }
    }
  }

  // ----- the whole of merge -----

  function Concat(slices: Slices): seq<int> {
    if slices == [] then [] else Concat(slices[..|slices| - 1]) + slices[|slices| - 1]
  }

  function Starts(slices: Slices): (cur: seq<nat>)
    ensures InSlices(slices, cur)
  {
    seq(|slices|, _ => 0)
  }

  lemma {:induction false} ConcatPrefix(slices: Slices, t: nat, u: nat)
    requires t <= u <= |slices|
    ensures |Concat(slices[..t])| <= |Concat(slices[..u])|
  {
    if t == u {
    } else {
      assert slices[..u][..u - 1] == slices[..u - 1];
      ConcatPrefix(slices, t, u - 1);
    }
  }

  lemma {:induction false} BagAtStart(slices: Slices, k: nat)
    requires k <= |slices|
    ensures Bag(slices, Starts(slices), k) == multiset(Concat(slices[..k]))
  {
    if k == 0 {
    } else {
      BagAtStart(slices, k - 1);
      assert slices[..k][..k - 1] == slices[..k - 1];
      assert slices[k - 1][0..] == slices[k - 1];
    }
  }

  /** merge's output, and the positions it comes from. */
  function Output(slices: Slices): seq<int> {
    MergeValues(slices, Starts(slices), |Concat(slices)|)
  }

  function OutputOrder(slices: Slices): seq<Position> {
    MergeOrder(slices, Starts(slices), |Concat(slices)|)
  }

  lemma RestAtStart(slices: Slices)
    ensures Rest(slices, Starts(slices)) == multiset(Concat(slices))
    ensures |Rest(slices, Starts(slices))| == |Concat(slices)|
  {
    BagAtStart(slices, |slices|);
    assert slices[..|slices|] == slices;
  }

  /** merge runs to its end exactly when every number is below RAND_MAX. */
  lemma MergeCompletes(slices: Slices)
    ensures |Output(slices)| == |Concat(slices)| <==> forall x :: x in Concat(slices) ==> x < RAND_MAX
  {
    RestAtStart(slices);
    CompleteExactlyBelowMax(slices, Starts(slices), |Concat(slices)|);
    assert forall x :: x in Concat(slices) <==> x in multiset(Concat(slices));
    assert AllBelowMax(multiset(Concat(slices))) <==> forall x :: x in Concat(slices) ==> x < RAND_MAX;
  }

  /** The program's own numbers are remainders by 80000000, so its merge completes. */
  lemma RemaindersComplete(slices: Slices)
    requires forall x :: x in Concat(slices) ==> 0 <= x < 80_000_000
    ensures |Output(slices)| == |Concat(slices)|
  {
    MergeCompletes(slices);
  }

  /** On sorted slices a complete merge is the stable sort of what the slices hold:
      every position once, by value, and equal values by slice and position. */
  lemma MergeIsStableSort(slices: Slices)
    requires AllSorted(slices) && |Output(slices)| == |Concat(slices)|
    ensures StablySorted(slices, OutputOrder(slices))
    ensures |OutputOrder(slices)| == |Output(slices)|
    ensures forall i :: 0 <= i < |Output(slices)| ==>
              Within(slices, OutputOrder(slices)[i]) && Output(slices)[i] == At(slices, OutputOrder(slices)[i])
    ensures Sorted(Output(slices)) && multiset(Output(slices)) == multiset(Concat(slices))
  {
    var n := |Concat(slices)|;
    OutputIsStable(slices, Starts(slices), n);
    ValuesFollowOrder(slices, Starts(slices), n);
    RestAtStart(slices);
    CompletePermutes(slices, Starts(slices), n);
    var order := OutputOrder(slices);
    forall i, j | 0 <= i < j < n
      ensures Output(slices)[i] <= Output(slices)[j]
    {
      assert Before(slices, order[i], order[j]);
    }
  }

  // ----- reads past the end of the array -----

  /** Line 78 reads the element at every cursor, whether the cursor has reached the end
      of its slice or not: each of these reads is of an element of the array. */
  predicate TurnReadsInside(slices: Slices, cur: seq<nat>)
    requires InSlices(slices, cur)
  {
    forall t :: 0 <= t < |cur| ==> |Concat(slices[..t])| + cur[t] < |Concat(slices)|
  }

  /** The next `todo` turns of the outer loop read no element past the array's end. */
  ghost predicate ReadsInside(slices: Slices, cur: seq<nat>, todo: nat)
    requires InSlices(slices, cur)
    decreases todo
  {
    todo == 0 ||
    (TurnReadsInside(slices, cur) &&
     var b := Scan(slices, cur, |cur|);
     b.Slice? ==> ReadsInside(slices, Bump(cur, b.index), todo - 1))
  }

  /** Behind the end of any slice but the last comes another slice. */
  lemma TurnReadsInsideExactly(slices: Slices, cur: seq<nat>)
    requires InSlices(slices, cur) && slices != []
    ensures TurnReadsInside(slices, cur) <==> cur[|cur| - 1] < |slices[|cur| - 1]|
  {
    var last := |slices| - 1;
    assert |Concat(slices)| == |Concat(slices[..last])| + |slices[last]|;
    forall t | 0 <= t < last
      ensures |Concat(slices[..t])| + cur[t] <= |Concat(slices[..last])|
    {
      assert slices[..t + 1][..t] == slices[..t];
      ConcatPrefix(slices, t + 1, last);
    }
  }

  /** The last slice is not used up, and its last element is never chosen or no smaller
      than anything else that is left. */
  ghost predicate LastIsLargest(slices: Slices, cur: seq<nat>)
    requires InSlices(slices, cur)
  {
    && slices != [] && cur[|cur| - 1] < |slices[|cur| - 1]|
    && var x := slices[|cur| - 1][|slices[|cur| - 1]| - 1];
       x >= RAND_MAX || forall p :: Left(slices, cur, p) ==> At(slices, p) <= x
  }

  lemma SomethingLeft(slices: Slices, cur: seq<nat>) returns (p: Position)
    requires InSlices(slices, cur) && |Rest(slices, cur)| > 0
    ensures Left(slices, cur, p)
  {
    if forall t :: 0 <= t < |cur| ==> cur[t] == |slices[t]| {
      BagEmpty(slices, cur, |cur|);
    }
    var t :| 0 <= t < |cur| && cur[t] < |slices[t]|;
    p := Position(t, cur[t]);
  }

  lemma NothingLeft(slices: Slices, cur: seq<nat>)
    requires InSlices(slices, cur) && Rest(slices, cur) == multiset{}
    ensures forall t :: 0 <= t < |cur| ==> cur[t] == |slices[t]|
  {
    forall t | 0 <= t < |cur|
      ensures cur[t] == |slices[t]|
    {
      if cur[t] < |slices[t]| {
        BagHolds(slices, cur, |cur|, t);
      }
    }
  }

  lemma LeftAfterBump(slices: Slices, cur: seq<nat>, t: nat)
    requires InSlices(slices, cur) && t < |cur| && cur[t] < |slices[t]|
    ensures forall p :: Left(slices, cur, p) <==> p == Position(t, cur[t]) || Left(slices, Bump(cur, t), p)
  {
  }

  /** One turn neither makes nor breaks the condition, as long as something is left. */
  lemma LastIsLargestStays(slices: Slices, cur: seq<nat>)
    requires InSlices(slices, cur) && AllSorted(slices) && Scan(slices, cur, |cur|).Slice?
    requires cur[|cur| - 1] < |slices[|cur| - 1]|
    ensures var next := Bump(cur, Scan(slices, cur, |cur|).index);
            LastIsLargest(slices, cur) <==> Rest(slices, next) == multiset{} || LastIsLargest(slices, next)
  {
    hide Scan, Bag;
    var b := Scan(slices, cur, |cur|);
    var next, last := Bump(cur, b.index), |cur| - 1;
    var x := slices[last][|slices[last]| - 1];
    var end := Position(last, |slices[last]| - 1);
    LeftAfterBump(slices, cur, b.index);
    assert Left(slices, cur, end);
    PickIsFirst(slices, cur, end);
    if Rest(slices, next) == multiset{} {
      NothingLeft(slices, next);
    } else if next[last] == |slices[last]| {
      assert |Rest(slices, next)| > 0;
      var p := SomethingLeft(slices, next);
      PickIsFirst(slices, cur, p);
    }
  }

  lemma NoPickIsLargest(slices: Slices, cur: seq<nat>)
    requires InSlices(slices, cur) && AllSorted(slices) && slices != []
    requires cur[|cur| - 1] < |slices[|cur| - 1]| ==> Scan(slices, cur, |cur|).NoSlice?
    ensures LastIsLargest(slices, cur) <==> cur[|cur| - 1] < |slices[|cur| - 1]|
  {
    ScanFindsFirstSmallest(slices, cur, |cur|);
    assert Sorted(slices[|cur| - 1]);
  }

  /** On sorted slices merge stays inside the array, as line 78 is written, exactly if
      nothing is left to do or the last slice still holds a largest number. */
  lemma {:induction false} ReadsInsideExactly(slices: Slices, cur: seq<nat>, todo: nat)
    requires InSlices(slices, cur) && AllSorted(slices) && todo == |Rest(slices, cur)|
    ensures ReadsInside(slices, cur, todo) <==> todo == 0 || LastIsLargest(slices, cur)
    decreases todo
  {
    hide Scan, Bag, TurnReadsInside, LastIsLargest;
    if todo == 0 {
    } else {
      var some := SomethingLeft(slices, cur);
      TurnReadsInsideExactly(slices, cur);
      var b := Scan(slices, cur, |cur|);
      if b.Slice? && TurnReadsInside(slices, cur) {
        BagBump(slices, cur, b.index, |cur|);
        ReadsInsideExactly(slices, Bump(cur, b.index), todo - 1);
        LastIsLargestStays(slices, cur);
      } else {
        NoPickIsLargest(slices, cur);
      }
    }
  }

  ghost predicate NoneExceeds(s: seq<int>, x: int) {
    forall y :: y in s ==> y <= x
  }

  /** Some number of the last slice is not exceeded by any, or is RAND_MAX or more. */
  ghost predicate LastHoldsLargest(slices: Slices) {
    slices != [] &&
    var last := slices[|slices| - 1];
    exists k :: 0 <= k < |last| && (last[k] >= RAND_MAX || NoneExceeds(Concat(slices), last[k]))
  }

  lemma {:induction false} AtIsInConcat(slices: Slices, p: Position)
    requires Within(slices, p)
    ensures At(slices, p) in Concat(slices)
    decreases |slices|
  {
    var k := |slices| - 1;
    if p.slice == k {
      assert At(slices, p) in slices[k];
    } else {
      AtIsInConcat(slices[..k], p);
    }
  }

  lemma {:induction false} ConcatIsFrom(slices: Slices, y: int) returns (p: Position)
    requires y in Concat(slices)
    ensures Within(slices, p) && At(slices, p) == y
  {
    var k := |slices| - 1;
    if y in slices[k] {
      var i :| 0 <= i < |slices[k]| && slices[k][i] == y;
      p := Position(k, i);
    } else {
      p := ConcatIsFrom(slices[..k], y);
    }
  }

  lemma LargestOfConcat(slices: Slices, x: int)
    ensures NoneExceeds(Concat(slices), x)
       <==> forall p :: Left(slices, Starts(slices), p) ==> At(slices, p) <= x
  {
    hide Concat;
    forall p | Left(slices, Starts(slices), p)
      ensures At(slices, p) in Concat(slices)
    {
      AtIsInConcat(slices, p);
    }
    if !NoneExceeds(Concat(slices), x) {
      var y :| y in Concat(slices) && y > x;
      var p := ConcatIsFrom(slices, y);
      assert Left(slices, Starts(slices), p);
    }
  }

  lemma LargestAtStart(slices: Slices)
    requires AllSorted(slices) && slices != []
    ensures LastIsLargest(slices, Starts(slices)) <==> LastHoldsLargest(slices)
  {
    hide Concat, Left;
    var last := slices[|slices| - 1];
    if last != [] {
      LargestOfConcat(slices, last[|last| - 1]);
      assert Sorted(last);
    }
  }

  /** The whole merge of sorted slices reads nothing past the end of the array exactly if
      there is nothing to merge or the last slice holds a largest number. */
  lemma MergeReadsInsideExactly(slices: Slices)
    requires AllSorted(slices)
    ensures ReadsInside(slices, Starts(slices), |Concat(slices)|)
       <==> Concat(slices) == [] || LastHoldsLargest(slices)
  {
    hide ReadsInside, Bag, LastIsLargest, LastHoldsLargest;
    RestAtStart(slices);
    ReadsInsideExactly(slices, Starts(slices), |Concat(slices)|);
    if slices != [] {
      LargestAtStart(slices);
    } else {
      assert Concat(slices) == [];
    }
  }

  /** Two slices of one element: merge reads past the end if the first has the larger. */
  lemma SmallestReadPastEnd()
    ensures !ReadsInside([[5], [3]], [0, 0], 2)
    ensures ReadsInside([[3], [5]], [0, 0], 2)
  {
    var bad, good: Slices := [[5], [3]], [[3], [5]];
    assert bad[..1] == [[5]] && good[..1] == [[3]];
    assert Scan(bad, [0, 0], 1) == Slice(0, 5) && Scan(good, [0, 0], 1) == Slice(0, 3);
    assert Scan(bad, [0, 0], 2) == Slice(1, 3) && Scan(good, [0, 0], 2) == Slice(0, 3);
    assert Bump([0, 0], 1) == [0, 1] && Bump([0, 0], 0) == [1, 0];
    TurnReadsInsideExactly(bad, [0, 1]);
    TurnReadsInsideExactly(good, [0, 0]);
    TurnReadsInsideExactly(good, [1, 0]);
  }

  // ----- merge, on the flat arrays -----

  /** THREAD_NUMBER_COUNT * t. */
  function Start(L: nat, t: nat): nat {
    t * L
  }

  lemma {:induction false} StartMonotone(L: nat, t: nat, u: nat)
    requires t <= u
    ensures Start(L, t) <= Start(L, u)
  {
    assert (u - t) * L >= 0;
  }

  lemma StartStep(L: nat, t: nat)
    ensures Start(L, 0) == 0 && Start(L, t + 1) == Start(L, t) + L
  {
  }

  /** The flat array as the list of its first `K` slices of length `L`. */
  function Cut(numbers: seq<int>, L: nat, K: nat): (slices: Slices)
    requires |numbers| >= Start(L, K)
    ensures |slices| == K
    ensures forall t :: 0 <= t < K ==> |slices[t]| == L
  {
    if K == 0 then []
    else
      StartStep(L, K - 1);
      Cut(numbers, L, K - 1) + [numbers[Start(L, K - 1)..Start(L, K)]]
  }

  lemma {:induction false} CutAt(numbers: seq<int>, L: nat, K: nat, t: nat)
    requires |numbers| >= Start(L, K) && t < K
    ensures Start(L, t) + L == Start(L, t + 1) <= |numbers|
    ensures forall k :: 0 <= k < L ==> numbers[Start(L, t) + k] == Cut(numbers, L, K)[t][k]
  {
    StartStep(L, t);
    StartStep(L, K - 1);
    hide Start;
    if t == K - 1 {
    } else {
      CutAt(numbers, L, K - 1, t);
    }
  }

  lemma {:induction false} ConcatCut(numbers: seq<int>, L: nat, K: nat)
    requires |numbers| >= Start(L, K)
    ensures Concat(Cut(numbers, L, K)) == numbers[..Start(L, K)]
  {
    StartStep(L, 0);
    if K == 0 {
    } else {
      StartStep(L, K - 1);
      hide Start;
      ConcatCut(numbers, L, K - 1);
      var slices := Cut(numbers, L, K);
      assert slices[..K - 1] == Cut(numbers, L, K - 1);
    }
  }

  /** The flat index of a cursor. */
  lemma {:induction false} FlatIndex(numbers: seq<int>, L: nat, K: nat, t: nat)
    requires |numbers| >= Start(L, K) && t <= K
    ensures |Concat(Cut(numbers, L, K)[..t])| == Start(L, t)
  {
    StartMonotone(L, t, K);
    if t == K {
      ConcatCut(numbers, L, K);
      assert Cut(numbers, L, K)[..K] == Cut(numbers, L, K);
    } else {
      StartMonotone(L, K - 1, K);
      hide Start;
      FlatIndex(numbers, L, K - 1, t);
      assert Cut(numbers, L, K)[..t] == Cut(numbers, L, K - 1)[..t];
    }
  }

  lemma FlatIndices(numbers: seq<int>, L: nat, K: nat)
    requires |numbers| == Start(L, K)
    ensures |Concat(Cut(numbers, L, K))| == |numbers|
    ensures forall t :: 0 <= t <= K ==> |Concat(Cut(numbers, L, K)[..t])| == Start(L, t)
  {
    hide Start, Cut, Concat;
    ConcatCut(numbers, L, K);
    forall t | 0 <= t <= K
      ensures |Concat(Cut(numbers, L, K)[..t])| == Start(L, t)
    {
      FlatIndex(numbers, L, K, t);
    }
  }

  /** merge's first loop: every cursor at the start of its slice. */
  method InitialCursors(L: nat, K: nat) returns (index: array<nat>)
    ensures fresh(index) && index.Length == K
    ensures forall t :: 0 <= t < K ==> index[t] == Start(L, t)
  {
    index := new nat[K];
    for i := 0 to K
      invariant forall t :: 0 <= t < i ==> index[t] == Start(L, t)
    {
      index[i] := Start(L, i);
    }
  }

  /** merge's inner loop over the cursors `index`, which point at `cur` in each slice.  As
      in the source the element at a cursor is read first: `inside` becomes false when
      there is none.  What such a read yields does not matter, as the cursor is then at
      the end of its slice. */
  method FindSmallest(numbers: array<int>, index: array<nat>, L: nat, K: nat, ghost cur: seq<nat>)
    returns (b: Best, inside: bool)
    requires numbers.Length == Start(L, K) && index.Length == K
    requires InSlices(Cut(numbers[..], L, K), cur)
    requires forall t :: 0 <= t < K ==> index[t] == Start(L, t) + cur[t]
    ensures b == Scan(Cut(numbers[..], L, K), cur, K)
    ensures inside <==> TurnReadsInside(Cut(numbers[..], L, K), cur)
  {
    hide Start, Cut, Concat;
    b, inside := NoSlice, true;
    for j := 0 to K
      invariant b == Scan(Cut(numbers[..], L, K), cur, j)
      invariant inside <==> forall t :: 0 <= t < j ==> index[t] < numbers.Length
    {
      CutAt(numbers[..], L, K, j);
      if index[j] >= numbers.Length {
        inside := false;
      } else if numbers[index[j]] < b.Bound() && index[j] < Start(L, j + 1) {
        b := Slice(j, numbers[index[j]]);
      }
    }
    FlatIndices(numbers[..], L, K);
  }

  /** One turn of merge's outer loop. */
  method TakeSmallest(numbers: array<int>, sorted: array<int>, index: array<nat>, i: nat, L: nat, K: nat,
                      ghost cur: seq<nat>)
    returns (b: Best, inside: bool)
    requires numbers != sorted && i < numbers.Length == sorted.Length == Start(L, K) && index.Length == K
    requires InSlices(Cut(numbers[..], L, K), cur)
    requires forall t :: 0 <= t < K ==> index[t] == Start(L, t) + cur[t]
    modifies sorted, index
    ensures b == Scan(Cut(numbers[..], L, K), cur, K)
    ensures inside <==> TurnReadsInside(Cut(numbers[..], L, K), cur)
    ensures b.NoSlice? ==> sorted[..] == old(sorted[..]) && index[..] == old(index[..])
    ensures b.Slice? ==> sorted[..] == old(sorted[..])[i := b.number]
    ensures b.Slice? ==> forall t :: 0 <= t < K ==> index[t] == Start(L, t) + Bump(cur, b.index)[t]
  {
    hide Start, Cut;
    b, inside := FindSmallest(numbers, index, L, K, cur);
    if b.Slice? {
      index[b.index] := index[b.index] + 1;
      sorted[i] := b.number;
    }
  }

  lemma RestShrinks(slices: Slices, cur: seq<nat>)
    requires InSlices(slices, cur) && Scan(slices, cur, |cur|).Slice?
    ensures var next := Bump(cur, Scan(slices, cur, |cur|).index);
            InSlices(slices, next) && |Rest(slices, next)| == |Rest(slices, cur)| - 1
  {
    hide Scan, Bag;
    BagBump(slices, cur, Scan(slices, cur, |cur|).index, |cur|);
  }

  lemma CursorsAtEnd(numbers: seq<int>, L: nat, K: nat, cur: seq<nat>)
    requires |numbers| == Start(L, K) && |cur| == K
    requires InSlices(Cut(numbers, L, K), cur) && |Rest(Cut(numbers, L, K), cur)| == 0
    ensures forall t :: 0 <= t < K ==> Start(L, t) + cur[t] == Start(L, t + 1)
  {
    hide Start, Bag;
    NothingLeft(Cut(numbers, L, K), cur);
    forall t | 0 <= t < K
      ensures Start(L, t) + cur[t] == Start(L, t + 1)
    {
      CutAt(numbers, L, K, t);
    }
  }

  lemma MergeBegins(numbers: seq<int>, L: nat, K: nat)
    requires |numbers| == Start(L, K)
    ensures var slices := Cut(numbers, L, K);
            && Output(slices) == MergeValues(slices, Starts(slices), |numbers|)
            && |Starts(slices)| == K && InSlices(slices, Starts(slices))
            && |Rest(slices, Starts(slices))| == |numbers|
            && forall t :: 0 <= t < K ==> Starts(slices)[t] == 0
  {
    ConcatCut(numbers, L, K);
    RestAtStart(Cut(numbers, L, K));
  }

  /** One turn of the outer loop. */
  lemma MergeUnfolds(slices: Slices, cur: seq<nat>, todo: nat)
    requires InSlices(slices, cur) && todo > 0
    ensures var b := Scan(slices, cur, |cur|);
            MergeValues(slices, cur, todo) ==
            if b.NoSlice? then [] else [b.number] + MergeValues(slices, Bump(cur, b.index), todo - 1)
    ensures var b := Scan(slices, cur, |cur|);
            ReadsInside(slices, cur, todo) <==>
            TurnReadsInside(slices, cur) && (b.Slice? ==> ReadsInside(slices, Bump(cur, b.index), todo - 1))
  {
  }

  lemma NothingToRead(slices: Slices, cur: seq<nat>)
    requires InSlices(slices, cur)
    ensures ReadsInside(slices, cur, 0)
  {
  }

  /** merge itself.  `ok` is false when a turn finds no slice, where the source would
      index its cursors with INT_MAX; otherwise every cursor ends at its slice's end.
      `inside` is false when an element past the end of `numbers` has been read. */
  method Merge(numbers: array<int>, sorted: array<int>, L: nat, K: nat)
    returns (ok: bool, inside: bool, cursors: array<nat>)
    requires numbers != sorted && numbers.Length == sorted.Length == Start(L, K)
    modifies sorted
    ensures var output := Output(Cut(numbers[..], L, K));
            |output| <= sorted.Length && sorted[..|output|] == output && (ok <==> |output| == sorted.Length)
    ensures var slices := Cut(numbers[..], L, K);
            inside <==> ReadsInside(slices, Starts(slices), numbers.Length)
    ensures cursors.Length == K && fresh(cursors)
    ensures ok ==> forall t :: 0 <= t < K ==> cursors[t] == Start(L, t + 1)
  {
    hide *;
    ghost var input := numbers[..];
    ghost var slices := Cut(input, L, K);
    ghost var cur := Starts(slices);
    MergeBegins(input, L, K);
    ghost var output := Output(slices);
    cursors := InitialCursors(L, K);
    ghost var begin := cur;
    ok, inside := true, true;
    for i := 0 to numbers.Length
      invariant fresh(cursors) && numbers[..] == input
      invariant |cur| == K && InSlices(slices, cur) && |Rest(slices, cur)| == numbers.Length - i
      invariant forall t :: 0 <= t < K ==> cursors[t] == Start(L, t) + cur[t]
      invariant i <= |output| && output[i..] == MergeValues(slices, cur, numbers.Length - i)
      invariant sorted[..i] == output[..i]
      invariant inside && ReadsInside(slices, cur, numbers.Length - i) <==>
                ReadsInside(slices, begin, numbers.Length)
    {
      var b, turnInside := TakeSmallest(numbers, sorted, cursors, i, L, K, cur);
      MergeUnfolds(slices, cur, numbers.Length - i);
      inside := inside && turnInside;
      if b.NoSlice? {
        return false, inside, cursors;
      }
      RestShrinks(slices, cur);
      assert output[i] == b.number && output[i + 1..] == output[i..][1..];
      cur := Bump(cur, b.index);
    }
    NothingToRead(slices, cur);
    CursorsAtEnd(input, L, K, cur);
  }
}
