/** What the heap sort of 11.threads/09_barrier.c costs in exchanges, and the
    lengths for which its index arithmetic stays within a C int. */
module HeapCost {
  import opened Sequences
  import opened HeapSort

  const INT_MAX := 0x7FFF_FFFF

  /** floor(log2(n / k)): how often `k` can be doubled without exceeding `n`. */
  function LogRatio(n: nat, k: nat): nat
    requires k > 0
    decreases n - k
  {
    if 2 * k <= n then 1 + LogRatio(n, 2 * k) else 0
  }

  function Pow2(e: nat): (p: nat)
    ensures p > 0
  {
    if e == 0 then 1 else 2 * Pow2(e - 1)
  }

  lemma {:induction false} LogRatioIsLog(n: nat, k: nat)
    requires 0 < k <= n
    ensures Pow2(LogRatio(n, k)) * k <= n < 2 * Pow2(LogRatio(n, k)) * k
    decreases n - k
  {
    if 2 * k > n {
    } else {
      LogRatioIsLog(n, 2 * k);
      var p := Pow2(LogRatio(n, 2 * k));
      assert p * (2 * k) == (2 * p) * k;
    }
  }

  lemma {:induction false} LogRatioMonotone(n: nat, k: nat, n': nat, k': nat)
    requires 0 < k' <= k && n <= n'
    ensures LogRatio(n, k) <= LogRatio(n', k')
    decreases n - k
  {
    if 2 * k > n {
    } else {
      LogRatioMonotone(n, 2 * k, n', 2 * k');
    }
  }

  lemma {:induction false} LogRatioHalves(n: nat, k: nat)
    requires k > 0
    ensures LogRatio(n, 2 * k) == LogRatio(n / 2, k)
    decreases n - k
  {
    if 4 * k > n {
    } else {
      LogRatioHalves(n, 2 * k);
    }
  }

  /** One sift from node `i` exchanges at most floor(log2(n / (i + 1))) times. */
  lemma {:induction false} SiftCost(s: seq<int>, i: nat, n: nat)
    requires i < n <= |s|
    ensures SiftSwaps(s, i, n) <= LogRatio(n, i + 1)
    decreases n - i
  {
    var m := LargestOf(s, i, n);
    if m == i {
    } else {
      SiftCost(Swap(s, i, m), m, n);
      LogRatioMonotone(n, m + 1, n, 2 * (i + 1));
    }
  }

  /** The value of the start node ends where the sift stops, one level down for each
      exchange: node `index` of a heap is the (index + 1)-th, and the nodes that are `d`
      levels below it are those from 2^d * (index + 1) up to 2^d * (index + 2) - 1. */
  lemma {:induction false} SiftStopsBelow(s: seq<int>, i: nat, n: nat)
    requires i < n <= |s|
    ensures var stop, p := SiftStop(s, i, n), Pow2(SiftSwaps(s, i, n));
            && SiftDown(s, i, n)[stop] == s[i]
            && LargestOf(SiftDown(s, i, n), stop, n) == stop
            && p * (i + 1) <= stop + 1 < p * (i + 2)
    decreases n - i
  {
    var m := LargestOf(s, i, n);
    SiftUnfolds(s, i, n);
    if m == i {
    } else {
      var t := Swap(s, i, m);
      SiftStopsBelow(t, m, n);
      var p := Pow2(SiftSwaps(t, m, n));
      LevelDown(p, i, m, SiftStop(t, m, n));
    }
  }

  lemma LevelDown(p: nat, i: nat, m: nat, stop: nat)
    requires 2 * i + 1 <= m <= 2 * i + 2 && p * (m + 1) <= stop + 1 < p * (m + 2)
    ensures 2 * p * (i + 1) <= stop + 1 < 2 * p * (i + 2)
  {
    assert 2 * p * (i + 1) == p * (2 * i + 2) <= p * (m + 1);
    assert p * (m + 2) <= p * (2 * i + 4) == 2 * p * (i + 2);
  }

  /** The sum of floor(log2(n / k)) for k from 1 to `m`: with `m` half of `n`, the sum
      of the heights of a heap of `n` nodes. */
  function Heights(n: nat, m: nat): nat {
    if m == 0 then 0 else LogRatio(n, m) + Heights(n, m - 1)
  }

  lemma {:induction false} HeightsHalve(n: nat, m: nat)
    requires m <= n / 2
    ensures Heights(n, m) == m + Heights(n / 2, m)
  {
    if m == 0 {
    } else {
      LogRatioHalves(n, m);
      HeightsHalve(n, m - 1);
    }
  }

  lemma {:induction false} LeavesAreFree(n: nat, m: nat)
    requires n / 2 <= m <= n
    ensures Heights(n, m) == Heights(n, n / 2)
    decreases m
  {
    if m == n / 2 {
    } else {
      LeavesAreFree(n, m - 1);
    }
  }

  lemma {:induction false} HeightsSum(n: nat)
    requires n > 0
    ensures Heights(n, n / 2) < n
  {
    if n == 1 {
    } else {
      HeightsHalve(n, n / 2);
      LeavesAreFree(n / 2, n / 2);
      HeightsSum(n / 2);
    }
  }

  lemma {:induction false} BuildCostIsHeights(s: seq<int>, k: nat)
    requires k <= |s|
    ensures BuildSwaps(s, k) <= Heights(|s|, k)
    decreases k
  {
    if k == 0 {
    } else {
      SiftCost(s, k - 1, |s|);
      BuildCostIsHeights(SiftDown(s, k - 1, |s|), k - 1);
    }
  }

  /** build_heap exchanges fewer times than it has elements. */
  lemma BuildCost(s: seq<int>)
    requires s != []
    ensures BuildSwaps(s, |s| / 2) < |s|
  {
    BuildCostIsHeights(s, |s| / 2);
    HeightsSum(|s|);
  }

  lemma {:induction false} ExtractCost(s: seq<int>, i: nat, log: nat)
    requires i < |s| && log == LogRatio(|s|, 1)
    ensures ExtractSwaps(s, i) <= i * (1 + log)
    decreases i
  {
    if i == 0 {
    } else {
      var t := Swap(s, 0, i);
      SiftCost(t, 0, i);
      LogRatioMonotone(i, 1, |s|, 1);
      ExtractCost(SiftDown(t, 0, i), i - 1, log);
      assert i * (1 + log) == (i - 1) * (1 + log) + (1 + log);
    }
  }

  /** heap_sort's exchanges, the root exchanges included. */
  lemma SortCost(s: seq<int>)
    requires s != []
    ensures SortSwaps(s) <= (|s| - 1) + (|s| - 1) * (1 + LogRatio(|s|, 1))
  {
    hide LogRatio, BuildSwaps, ExtractSwaps, BuildFrom, SiftDown, SiftSwaps;
    var last, log := |s| - 1, LogRatio(|s|, 1);
    if last == 0 {
      assert SortSwaps(s) == 0;
    } else {
      var heap := BuildFrom(s, |s| / 2);
      assert SortSwaps(s) == BuildSwaps(s, |s| / 2) + ExtractSwaps(heap, last);
      assert BuildSwaps(s, |s| / 2) <= last by { BuildCost(s); }
      assert ExtractSwaps(heap, last) <= last * (1 + log) by { ExtractCost(heap, last, log); }
    }
  }

  /** The largest value that node_adjust_down computes is `index * 2 + 2` at its last
      node.  build_heap starts it at nodes before n / 2 and heap_sort at the root.  From
      there it fits a C int for all contents exactly up to length 2^30 - 1: beyond, the
      first sift of build_heap can move down to the last node. */
  lemma IndexFitsExactly(n: nat)
    requires n > 0
    ensures (forall s: seq<int>, i: nat :: n <= |s| && (i == 0 || i < n / 2) ==> 2 * SiftStop(s, i, n) + 2 <= INT_MAX)
       <==> n <= 0x3FFF_FFFF
  {
    if n > 0x3FFF_FFFF {
      var s: seq<int> := seq(n, k => if k == n - 1 then 1 else 0);
      var i := n / 2 - 1;
      assert LargestOf(s, i, n) == n - 1;
      assert SiftStop(s, i, n) >= n - 1;
    }
  }
}
