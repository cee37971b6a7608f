/** The heap sort of 11.threads/09_barrier.c: what each routine computes, as a
    function of the slice it is given, and the in-place routines themselves. */
module HeapSort {
  import opened Sequences

  // ----- what the routines compute -----

  /** max_index in the source: the position of the larger child if it beats node `i`, else `i`. */
  function LargestOf(s: seq<int>, i: nat, n: nat): (m: nat)
    requires n <= |s|
    ensures m == i || (i < m < n && s[i] < s[m])
  {
    var l, r := 2 * i + 1, 2 * i + 2;
    var m := if l < n && s[l] > s[i] then l else i;
    if r < n && s[r] > s[m] then r else m
  }

  /** It is the first largest of the node, its left child and its right child: the node
      stays if no child exceeds it, and the left child wins against an equal right one. */
  lemma LargestIsFirst(s: seq<int>, i: nat, n: nat)
    requires i < n <= |s|
    ensures var m, l, r := LargestOf(s, i, n), 2 * i + 1, 2 * i + 2;
            && (m == i || m == l || m == r)
            && (m == i <==> forall c :: l <= c <= r && c < n ==> s[c] <= s[i])
            && (m == r <==> r < n && s[r] > s[i] && s[r] > s[l])
            && (m == l <==> l < n && s[l] > s[i] && (r < n ==> s[l] >= s[r]))
  {
  }

  /** node_adjust_down from node `i` in the heap prefix of length `n`. */
  function SiftDown(s: seq<int>, i: nat, n: nat): (r: seq<int>)
    requires n <= |s|
    ensures |r| == |s|
    decreases n - i
  {
    var m := LargestOf(s, i, n);
    if m == i then s else SiftDown(Swap(s, i, m), m, n)
  }

  /** The swaps that node_adjust_down performs. */
  function SiftSwaps(s: seq<int>, i: nat, n: nat): nat
    requires n <= |s|
    decreases n - i
  {
    var m := LargestOf(s, i, n);
    if m == i then 0 else 1 + SiftSwaps(Swap(s, i, m), m, n)
  }

  /** The node at which node_adjust_down stops. */
  function SiftStop(s: seq<int>, i: nat, n: nat): (stop: nat)
    requires n <= |s|
    ensures i <= stop && (i < n ==> stop < n)
    decreases n - i
  {
    var m := LargestOf(s, i, n);
    if m == i then i else SiftStop(Swap(s, i, m), m, n)
  }

  /** One turn of node_adjust_down's loop. */
  lemma SiftUnfolds(s: seq<int>, i: nat, n: nat)
    requires n <= |s|
    ensures var m := LargestOf(s, i, n);
            if m == i then SiftDown(s, i, n) == s && SiftSwaps(s, i, n) == 0 && SiftStop(s, i, n) == i
            else var t := Swap(s, i, m);
                 && SiftDown(s, i, n) == SiftDown(t, m, n)
                 && SiftSwaps(s, i, n) == 1 + SiftSwaps(t, m, n)
                 && SiftStop(s, i, n) == SiftStop(t, m, n)
  {
  }

  /** The rest of build_heap once the nodes from `k` on are done. */
  function BuildFrom(s: seq<int>, k: nat): (r: seq<int>)
    ensures |r| == |s|
    decreases k
  {
    if k == 0 then s else BuildFrom(SiftDown(s, k - 1, |s|), k - 1)
  }

  /** The rest of heap_sort's loop when its counter is `i`. */
  function ExtractFrom(s: seq<int>, i: nat): (r: seq<int>)
    requires i == 0 || i < |s|
    ensures |r| == |s|
    decreases i
  {
    if i == 0 then s else ExtractFrom(SiftDown(Swap(s, 0, i), 0, i), i - 1)
  }

  /** The swaps, root exchanges included, that BuildFrom, ExtractFrom and Sort perform. */
  function BuildSwaps(s: seq<int>, k: nat): nat
    decreases k
  {
    if k == 0 then 0 else SiftSwaps(s, k - 1, |s|) + BuildSwaps(SiftDown(s, k - 1, |s|), k - 1)
  }

  function ExtractSwaps(s: seq<int>, i: nat): nat
    requires i == 0 || i < |s|
    decreases i
  {
    if i == 0 then 0
    else 1 + SiftSwaps(Swap(s, 0, i), 0, i) + ExtractSwaps(SiftDown(Swap(s, 0, i), 0, i), i - 1)
  }

  function SortSwaps(s: seq<int>): nat {
    if |s| <= 1 then 0 else BuildSwaps(s, |s| / 2) + ExtractSwaps(BuildFrom(s, |s| / 2), |s| - 1)
  }

  function Sort(s: seq<int>): (r: seq<int>)
    ensures |r| == |s|
  {
    if |s| <= 1 then s else ExtractFrom(BuildFrom(s, |s| / 2), |s| - 1)
  }

  // ----- why the result is sorted -----

  /** `c` is a child of node `p`. */
  predicate Child(p: int, c: int) {
    c == 2 * p + 1 || c == 2 * p + 2
  }

  /** No child in the prefix of a node at `lo` or later exceeds that node. */
  ghost predicate HeapFrom(s: seq<int>, lo: nat, n: nat)
    requires n <= |s|
  {
    forall p, c {:trigger Child(p, c)} :: lo <= p && Child(p, c) && c < n ==> s[c] <= s[p]
  }

  /** A heap from `lo` on, broken at most between node `i` and its children, whose
      children still do not exceed the parent of `i`. */
  ghost predicate HeapBut(s: seq<int>, lo: nat, i: nat, n: nat)
    requires n <= |s|
  {
    && (forall p, c {:trigger Child(p, c)} :: lo <= p != i && Child(p, c) && c < n ==> s[c] <= s[p])
    && (forall p, c {:trigger Child(p, i), Child(i, c)} ::
          lo <= p && Child(p, i) && Child(i, c) && c < n ==> s[c] <= s[p])
  }

  lemma {:induction false} SiftPermutes(s: seq<int>, i: nat, n: nat)
    requires n <= |s|
    ensures var r := SiftDown(s, i, n);
            multiset(r) == multiset(s) && r[n..] == s[n..]
    decreases n - i
  {
    var m := LargestOf(s, i, n);
    if m == i {
    } else {
      SwapPermutes(s, i, m);
      SiftPermutes(Swap(s, i, m), m, n);
    }
  }

  /** node_adjust_down only moves values within the prefix: position `k` is where
      the value that ends at `p` came from. */
  lemma {:induction false} SiftDraws(s: seq<int>, i: nat, n: nat, p: nat) returns (k: nat)
    requires n <= |s| && p < n
    ensures k < n && SiftDown(s, i, n)[p] == s[k]
    decreases n - i
  {
    var m := LargestOf(s, i, n);
    k := p;
    if m == i {
    } else {
      k := SiftDraws(Swap(s, i, m), m, n, p);
      k := if k == i then m else if k == m then i else k;
    }
  }

  lemma {:induction false} BuildPermutes(s: seq<int>, k: nat)
    ensures multiset(BuildFrom(s, k)) == multiset(s)
    decreases k
  {
    if k == 0 {
    } else {
      SiftPermutes(s, k - 1, |s|);
      BuildPermutes(SiftDown(s, k - 1, |s|), k - 1);
    }
  }

  lemma {:induction false} ExtractPermutes(s: seq<int>, i: nat)
    requires i == 0 || i < |s|
    ensures multiset(ExtractFrom(s, i)) == multiset(s)
    decreases i
  {
    if i == 0 {
    } else {
      SwapPermutes(s, 0, i);
      SiftPermutes(Swap(s, 0, i), 0, i);
      ExtractPermutes(SiftDown(Swap(s, 0, i), 0, i), i - 1);
    }
  }

  lemma ExchangeMovesGap(s: seq<int>, lo: nat, i: nat, n: nat)
    requires n <= |s| && lo <= i && HeapBut(s, lo, i, n) && LargestOf(s, i, n) != i
    ensures HeapBut(Swap(s, i, LargestOf(s, i, n)), lo, LargestOf(s, i, n), n)
  {
    var m := LargestOf(s, i, n);
    var t := Swap(s, i, m);
    assert Child(i, m);
    assert forall c :: Child(i, c) && c < n ==> s[c] <= s[m];
  }

  /** node_adjust_down repairs a heap that is broken at its start node only. */
  lemma {:induction false} SiftRepairs(s: seq<int>, lo: nat, i: nat, n: nat)
    requires n <= |s| && lo <= i && HeapBut(s, lo, i, n)
    ensures HeapFrom(SiftDown(s, i, n), lo, n)
    decreases n - i
  {
    var m := LargestOf(s, i, n);
    if m == i {
    } else {
      ExchangeMovesGap(s, lo, i, n);
      SiftRepairs(Swap(s, i, m), lo, m, n);
    }
  }

  lemma {:induction false} BuildMakesHeap(s: seq<int>, k: nat)
    requires HeapFrom(s, k, |s|)
    ensures HeapFrom(BuildFrom(s, k), 0, |s|)
    decreases k
  {
    if k == 0 {
    } else {
      SiftRepairs(s, k - 1, k - 1, |s|);
      BuildMakesHeap(SiftDown(s, k - 1, |s|), k - 1);
    }
  }

  /** build_heap, which begins with the node before |s| / 2, makes a heap of any array. */
  lemma BuildHeapMakesHeap(s: seq<int>)
    ensures HeapFrom(BuildFrom(s, |s| / 2), 0, |s|)
    ensures multiset(BuildFrom(s, |s| / 2)) == multiset(s)
  {
    assert forall p, c :: |s| / 2 <= p && Child(p, c) ==> c >= |s|;
    BuildMakesHeap(s, |s| / 2);
    BuildPermutes(s, |s| / 2);
  }

  lemma {:induction false} RootIsLargest(s: seq<int>, n: nat, k: nat)
    requires k < n <= |s| && HeapFrom(s, 0, n)
    ensures s[k] <= s[0]
  {
    if k == 0 {
    } else {
      var p := (k - 1) / 2;
      assert Child(p, k);
      RootIsLargest(s, n, p);
    }
  }

  /** The loop of heap_sort: positions past `i` are final, those up to `i` form a
      heap, and nothing in the heap exceeds anything final. */
  ghost predicate Extracting(s: seq<int>, i: nat) {
    && i < |s|
    && HeapFrom(s, 0, i + 1)
    && Sorted(s[i + 1..])
    && forall p, q :: 0 <= p <= i < q < |s| ==> s[p] <= s[q]
  }

  lemma ExtractStep(s: seq<int>, i: nat)
    requires 0 < i && Extracting(s, i)
    ensures Extracting(SiftDown(Swap(s, 0, i), 0, i), i - 1)
  {
    var t := Swap(s, 0, i);
    var r := SiftDown(t, 0, i);
    assert HeapBut(t, 0, 0, i);
    SiftRepairs(t, 0, 0, i);
    SiftPermutes(t, 0, i);
    assert r[i..] == t[i..] == [s[0]] + s[i + 1..];
    forall p, q | 0 <= p <= i - 1 < q < |r|
      ensures r[p] <= r[q]
    {
      var k := SiftDraws(t, 0, i, p);
      RootIsLargest(s, i + 1, k);
      RootIsLargest(s, i + 1, i);
      assert r[q] == r[i..][q - i];
    }
  }

  lemma {:induction false} ExtractSorts(s: seq<int>, i: nat)
    requires Extracting(s, i)
    ensures Sorted(ExtractFrom(s, i))
    decreases i
  {
    if i == 0 {
      assert s == [s[0]] + s[1..];
    } else {
      ExtractStep(s, i);
      ExtractSorts(SiftDown(Swap(s, 0, i), 0, i), i - 1);
    }
  }

  /** heap_sort's result is the one sorted permutation of its input. */
  lemma SortIsSort(s: seq<int>)
    ensures Sorted(Sort(s)) && multiset(Sort(s)) == multiset(s)
    ensures forall r :: Sorted(r) && multiset(r) == multiset(s) ==> r == Sort(s)
  {
    if |s| > 1 {
      var h := BuildFrom(s, |s| / 2);
      BuildHeapMakesHeap(s);
      ExtractPermutes(h, |s| - 1);
      ExtractSorts(h, |s| - 1);
    }
    forall r | Sorted(r) && multiset(r) == multiset(s)
      ensures r == Sort(s)
    {
      SortedIsUnique(r, Sort(s));
    }
  }

  // ----- the routines, in place on `extent` elements of `a` that start at `base` -----

  /** Only the window may differ from what was there before. */
  twostate predicate OnlyWindowChanged(a: array<int>, base: nat, extent: nat)
    requires base + extent <= a.Length
    reads a
  {
    forall k :: 0 <= k < a.Length && !(base <= k < base + extent) ==> a[k] == old(a[k])
  }

  /** The three assignments through `temp` that exchange two elements. */
  method Exchange(a: array<int>, base: nat, i: nat, j: nat, ghost extent: nat)
    requires base + extent <= a.Length && i < extent && j < extent
    modifies a
    ensures a[base..base + extent] == Swap(old(a[base..base + extent]), i, j)
    ensures OnlyWindowChanged(a, base, extent)
  {
    var temp := a[base + i];
    a[base + i] := a[base + j];
    a[base + j] := temp;
  }

  method NodeAdjustDown(a: array<int>, base: nat, start: nat, length: nat, ghost extent: nat)
    returns (swaps: nat, index: nat)
    requires base + extent <= a.Length && length <= extent
    modifies a
    ensures a[base..base + extent] == SiftDown(old(a[base..base + extent]), start, length)
    ensures swaps == SiftSwaps(old(a[base..base + extent]), start, length)
    ensures index == SiftStop(old(a[base..base + extent]), start, length)
    ensures OnlyWindowChanged(a, base, extent)
  {
    hide SiftDown, SiftSwaps, SiftStop;
    index, swaps := start, 0;
    ghost var s0 := a[base..base + extent];
    ghost var s := s0;
    while true
      invariant OnlyWindowChanged(a, base, extent)
      invariant s == a[base..base + extent]
      invariant SiftDown(s, index, length) == SiftDown(s0, start, length)
      invariant swaps + SiftSwaps(s, index, length) == SiftSwaps(s0, start, length)
      invariant SiftStop(s, index, length) == SiftStop(s0, start, length)
      decreases length - index
    {
      var left, right, largest := index * 2 + 1, index * 2 + 2, index;
      assert left < length ==> s[left] == a[base + left] && s[index] == a[base + index];
      assert right < length ==> s[right] == a[base + right];
      if left < length && a[base + left] > a[base + largest] {
        largest := left;
      }
      if right < length && a[base + right] > a[base + largest] {
        largest := right;
      }
      assert largest == LargestOf(s, index, length);
      SiftUnfolds(s, index, length);
      if largest == index {
        break;
      }
      Exchange(a, base, index, largest, extent);
      s := Swap(s, index, largest);
      index := largest;
      swaps := swaps + 1;
    }
  }

  method BuildHeap(a: array<int>, base: nat, length: nat) returns (swaps: nat)
    requires base + length <= a.Length
    modifies a
    ensures a[base..base + length] == BuildFrom(old(a[base..base + length]), length / 2)
    ensures swaps == BuildSwaps(old(a[base..base + length]), length / 2)
    ensures OnlyWindowChanged(a, base, length)
  {
    hide SiftDown, SiftSwaps;
    var lastParent := length / 2 - 1;
    var i := lastParent;
    swaps := 0;
    ghost var s0 := a[base..base + length];
    ghost var s := s0;
    ghost var result, total := BuildFrom(s0, length / 2), BuildSwaps(s0, length / 2);
    while i >= 0
      invariant -1 <= i
      invariant OnlyWindowChanged(a, base, length)
      invariant s == a[base..base + length]
      invariant BuildFrom(s, i + 1) == result
      invariant swaps + BuildSwaps(s, i + 1) == total
    {
      ghost var next := SiftDown(s, i, |s|);
      assert BuildFrom(s, i + 1) == BuildFrom(next, i);
      assert BuildSwaps(s, i + 1) == SiftSwaps(s, i, |s|) + BuildSwaps(next, i);
      var n, _ := NodeAdjustDown(a, base, i, length, length);
      assert n == SiftSwaps(s, i, |s|) && a[base..base + length] == next;
      swaps := swaps + n;
      s := next;
      i := i - 1;
    }
  }

  /** heap_sort of the `length` elements that start at `base`. */
  method HeapSort(a: array<int>, base: nat, length: nat) returns (swaps: nat)
    requires base + length <= a.Length
    modifies a
    ensures a[base..base + length] == Sort(old(a[base..base + length]))
    ensures swaps == SortSwaps(old(a[base..base + length]))
    ensures OnlyWindowChanged(a, base, length)
  {
    if length <= 1 {
      return 0;
    }
    hide SiftDown, SiftSwaps;
    swaps := BuildHeap(a, base, length);
    var i := length - 1;
    ghost var s0, built := a[base..base + length], swaps;
    ghost var s := s0;
    while i > 0
      invariant 0 <= i < length
      invariant OnlyWindowChanged(a, base, length)
      invariant s == a[base..base + length]
      invariant ExtractFrom(s, i) == ExtractFrom(s0, length - 1)
      invariant swaps + ExtractSwaps(s, i) == built + ExtractSwaps(s0, length - 1)
    {
      ghost var t := Swap(s, 0, i);
      ghost var next := SiftDown(t, 0, i);
      assert ExtractFrom(s, i) == ExtractFrom(next, i - 1);
      assert ExtractSwaps(s, i) == 1 + SiftSwaps(t, 0, i) + ExtractSwaps(next, i - 1);
      Exchange(a, base, 0, i, length);
      assert a[base..base + length] == t;
      var n, _ := NodeAdjustDown(a, base, 0, i, length);
      swaps := swaps + 1 + n;
      s := next;
      i := i - 1;
    }
  }
}
