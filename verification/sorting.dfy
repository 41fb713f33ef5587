/**
 * The in-place integer sorts of tarea1/sorting.cpp on an array<int> (the
 * source's vector<int>&). mergeSort and quickSort sort the inclusive index
 * range [bottom, top]; a range with bottom >= top is left alone, which is how
 * an empty vector, called with (0, size - 1) = (0, -1), is handled.
 */
module Sorting {
  import opened SortSpec

  /** Exchange two elements, as the three-line tmp swaps of the source do. */
  method Swap(a: array<int>, i: int, j: int)
    requires 0 <= i < a.Length && 0 <= j < a.Length
    modifies a
    ensures a[i] == old(a[j]) && a[j] == old(a[i])
    ensures forall k :: 0 <= k < a.Length && k != i && k != j ==> a[k] == old(a[k])
    ensures multiset(a[..]) == multiset(old(a[..]))
  {
    a[i], a[j] := a[j], a[i];
  }

  /**
   * One pass of bubbleSort's inner loop over [0, top): adjacent out-of-order
   * pairs are swapped (equal neighbours are not), which carries the largest
   * element of the prefix to index top - 1. Since it only swaps inside the
   * prefix, a prefix that was no larger than the suffix stays so.
   */
  method BubblePass(a: array<int>, top: int)
    requires 0 < top <= a.Length
    modifies a
    ensures forall k :: 0 <= k < top - 1 ==> a[k] <= a[top - 1]
    ensures forall k :: top <= k < a.Length ==> a[k] == old(a[k])
    ensures multiset(a[..]) == multiset(old(a[..]))
    ensures (forall i, j :: 0 <= i < top <= j < a.Length ==> old(a[i]) <= old(a[j])) ==>
            (forall i, j :: 0 <= i < top <= j < a.Length ==> a[i] <= a[j])
  {
    ghost var below := forall i, j :: 0 <= i < top <= j < a.Length ==> a[i] <= a[j];
    var index := 0;
    while index < top - 1
      invariant 0 <= index <= top - 1
      invariant forall k :: 0 <= k < index ==> a[k] <= a[index]
      invariant forall k :: top <= k < a.Length ==> a[k] == old(a[k])
      invariant multiset(a[..]) == multiset(old(a[..]))
      invariant below ==> forall i, j :: 0 <= i < top <= j < a.Length ==> a[i] <= a[j]
    {
      if a[index] > a[index + 1] {
        Swap(a, index, index + 1);
      }
      index := index + 1;
    }
  }

  /**
   * bubbleSort: passes over a shrinking prefix [0, top), top = length down to
   * 1, with no early exit. After the pass for top, the suffix from top - 1 on
   * is sorted and no smaller than anything before it.
   */
  method BubbleSort(a: array<int>)
    modifies a
    ensures SortsRange(old(a[..]), a[..], 0, a.Length)
  {
    var length := a.Length;
    var top := length;
    while top > 0
      invariant 0 <= top <= length
      invariant multiset(a[..]) == multiset(old(a[..]))
      invariant forall i, j :: top <= i <= j < length ==> a[i] <= a[j]
      invariant forall i, j :: 0 <= i < top <= j < length ==> a[i] <= a[j]
    {
      BubblePass(a, top);
      top := top - 1;
    }
    PairsSorted(a[..]);
    assert a[..] == a[..][0..a.Length] && old(a[..]) == old(a[..])[0..a.Length];
  }

  /**
   * The first merge loop of mergeSort: while both runs [bottom, middle] and
   * [middle + 1, top] have elements left, the smaller head, the left one on a
   * tie, is appended to the buffer tmp. It stops with one run used up.
   */
  method MergeHeads(a: array<int>, bottom: int, middle: int, top: int) returns (tmp: seq<int>, leftIndex: int, rightIndex: int)
    requires 0 <= bottom <= middle < top < a.Length
    ensures bottom <= leftIndex <= middle + 1 <= rightIndex <= top + 1
    ensures leftIndex == middle + 1 || rightIndex == top + 1
    ensures Merging(a[bottom..middle + 1], leftIndex - bottom, a[middle + 1..top + 1], rightIndex - middle - 1, tmp)
  {
    ghost var left, right := a[bottom..middle + 1], a[middle + 1..top + 1];
    ghost var l: nat, r: nat := 0, 0;
    leftIndex, rightIndex := bottom, middle + 1;
    tmp := [];
    while leftIndex <= middle && rightIndex <= top
      invariant leftIndex == bottom + l <= middle + 1 && rightIndex == middle + 1 + r <= top + 1
      invariant Merging(left, l, right, r, tmp)
    {
      assert a[leftIndex] == left[l] && a[rightIndex] == right[r];
      if a[leftIndex] <= a[rightIndex] {
        TakeLeft(left, l, right, r, tmp);
        tmp := tmp + [a[leftIndex]];
        leftIndex, l := leftIndex + 1, l + 1;
      } else {
        TakeRight(left, l, right, r, tmp);
        tmp := tmp + [a[rightIndex]];
        rightIndex, r := rightIndex + 1, r + 1;
      }
    }
  }

  /**
   * The two trailing merge loops of mergeSort: the rest [from, to] of a run
   * is appended to the buffer in order (nothing when from > to).
   */
  method AppendRun(a: array<int>, from: int, to: int, tmp: seq<int>) returns (extended: seq<int>)
    requires 0 <= from <= to + 1 <= a.Length
    ensures extended == tmp + a[from..to + 1]
  {
    extended := tmp;
    var index := from;
    while index <= to
      invariant from <= index <= to + 1
      invariant extended == tmp + a[from..index]
    {
      assert a[from..index + 1] == a[from..index] + [a[index]];
      extended := extended + [a[index]];
      index := index + 1;
    }
  }

  /**
   * The three merge loops of mergeSort together: the buffer they fill holds
   * the merge of the runs [bottom, middle] and [middle + 1, top], one element
   * per index of [bottom, top]. The array itself is only read.
   */
  method MergeRuns(a: array<int>, bottom: int, middle: int, top: int) returns (tmp: seq<int>)
    requires 0 <= bottom <= middle < top < a.Length
    ensures tmp == Merge(a[bottom..middle + 1], a[middle + 1..top + 1])
    ensures |tmp| == top - bottom + 1
  {
    ghost var whole := a[..];
    var leftIndex, rightIndex;
    tmp, leftIndex, rightIndex := MergeHeads(a, bottom, middle, top);
    assert a[..] == whole;
    ghost var heads := tmp;
    tmp := AppendRun(a, leftIndex, middle, tmp);
    assert a[..] == whole;
    tmp := AppendRun(a, rightIndex, top, tmp);
    assert a[..] == whole;
    MergeTails(whole, bottom, middle + 1, top + 1, leftIndex, rightIndex, heads, tmp);
  }

  /**
   * Once one run [lo, mid) or [mid, hi) of s is used up, appending what is
   * left of both runs completes their merge.
   */
  lemma MergeTails(s: seq<int>, lo: int, mid: int, hi: int, i: int, j: int, heads: seq<int>, merged: seq<int>)
    requires 0 <= lo <= i <= mid <= j <= hi <= |s|
    requires Merging(s[lo..mid], i - lo, s[mid..hi], j - mid, heads)
    requires i == mid || j == hi
    requires merged == heads + s[i..mid] + s[j..hi]
    ensures merged == Merge(s[lo..mid], s[mid..hi])
    ensures |merged| == hi - lo
  {
    var left, right := s[lo..mid], s[mid..hi];
    assert left[i - lo..] == s[i..mid] && right[j - mid..] == s[j..hi];
    FinishMerge(left, i - lo, right, j - mid, heads);
    MergeLength(left, right);
  }

  /** The last loop of mergeSort: tmp is copied back over [bottom, bottom + |tmp|). */
  method CopyBack(a: array<int>, bottom: int, tmp: seq<int>)
    requires 0 <= bottom && bottom + |tmp| <= a.Length
    modifies a
    ensures a[bottom..bottom + |tmp|] == tmp
    ensures forall k :: 0 <= k < a.Length && !(bottom <= k < bottom + |tmp|) ==> a[k] == old(a[k])
  {
    var j := 0;
    while j < |tmp|
      invariant 0 <= j <= |tmp|
      invariant forall k :: 0 <= k < j ==> a[bottom + k] == tmp[k]
      invariant forall k :: 0 <= k < a.Length && !(bottom <= k < bottom + j) ==> a[k] == old(a[k])
    {
      a[bottom + j] := tmp[j];
      j := j + 1;
    }
  }

  /**
   * The part of mergeSort after the recursive calls: the sorted runs
   * [bottom, middle] and [middle + 1, top] are merged into the buffer, which
   * is copied back over [bottom, top]. The range ends up sorted.
   */
  method MergeHalves(a: array<int>, bottom: int, middle: int, top: int)
    requires 0 <= bottom <= middle < top < a.Length
    requires Sorted(a[bottom..middle + 1]) && Sorted(a[middle + 1..top + 1])
    modifies a
    ensures Sorted(a[bottom..top + 1])
    ensures multiset(a[bottom..top + 1]) == multiset(old(a[bottom..top + 1]))
    ensures forall k :: 0 <= k < a.Length && !(bottom <= k <= top) ==> a[k] == old(a[k])
  {
    ghost var runs := a[..];
    var tmp := MergeRuns(a, bottom, middle, top);
    assert a[..] == runs;
    CopyBack(a, bottom, tmp);
    ghost var merged := a[..];
    assert merged[bottom..top + 1] == tmp;
    MergedRange(runs, tmp, merged, bottom, middle + 1, top + 1);
  }

  /** Writing the merge of the sorted runs [lo, mid) and [mid, hi) over [lo, hi) sorts that range. */
  lemma MergedRange(runs: seq<int>, tmp: seq<int>, merged: seq<int>, lo: int, mid: int, hi: int)
    requires 0 <= lo < mid < hi <= |runs| == |merged|
    requires Sorted(runs[lo..mid]) && Sorted(runs[mid..hi])
    requires tmp == Merge(runs[lo..mid], runs[mid..hi]) && |tmp| == hi - lo
    requires merged[lo..hi] == tmp
    requires forall k :: 0 <= k < |merged| && !(lo <= k < hi) ==> merged[k] == runs[k]
    ensures SortsRange(runs, merged, lo, hi)
  {
    MergeSorted(runs[lo..mid], runs[mid..hi]);
    MergePermutation(runs[lo..mid], runs[mid..hi]);
    SplitMultiset(runs, lo, mid, hi);
  }

  /**
   * What mergeSort(v, bottom, top) and quickSort(v, bottom, top) do to v:
   * nothing when bottom >= top (an empty or one-element range, or an empty
   * vector called with (0, -1)), and otherwise sort the inclusive range
   * [bottom, top] in place.
   */
  predicate SortsInclusive(before: seq<int>, after: seq<int>, bottom: int, top: int)
  {
    if bottom >= top then after == before else SortsRange(before, after, bottom, top + 1)
  }

  /** Within bounds, doing what the sorts do to [bottom, top] sorts the half-open range [bottom, top + 1). */
  lemma InclusiveRange(before: seq<int>, after: seq<int>, bottom: int, top: int)
    requires SortsInclusive(before, after, bottom, top)
    requires 0 <= bottom <= top + 1 <= |before|
    ensures SortsRange(before, after, bottom, top + 1)
  {
  }

  /**
   * mergeSort(v, bottom, top): split at middle = (top - bottom) / 2 + bottom,
   * which lies in [bottom, top) so that both halves are smaller, sort both
   * halves recursively, then merge them.
   */
  method MergeSort(a: array<int>, bottom: int, top: int)
    requires bottom < top ==> 0 <= bottom && top < a.Length
    modifies a
    ensures SortsInclusive(old(a[..]), a[..], bottom, top)
    decreases top - bottom
  {
    if bottom >= top {
      return;
    }
    var middle := (top - bottom) / 2 + bottom;
    assert bottom <= middle < top;
    MergeSort(a, bottom, middle);
    ghost var leftSorted := a[..];
    MergeSort(a, middle + 1, top);
    ghost var bothSorted := a[..];
    SortedHalves(old(a[..]), leftSorted, bothSorted, bottom, middle, top);
    MergeHalves(a, bottom, middle, top);
    HalvesThenWhole(old(a[..]), leftSorted, bothSorted, a[..], bottom, middle, top);
  }

  /** After both recursive calls of mergeSort, both halves are sorted. */
  lemma SortedHalves(unsorted: seq<int>, leftSorted: seq<int>, bothSorted: seq<int>, bottom: int, middle: int, top: int)
    requires 0 <= bottom <= middle < top < |unsorted|
    requires SortsInclusive(unsorted, leftSorted, bottom, middle)
    requires SortsInclusive(leftSorted, bothSorted, middle + 1, top)
    ensures Sorted(bothSorted[bottom..middle + 1]) && Sorted(bothSorted[middle + 1..top + 1])
  {
    InclusiveRange(unsorted, leftSorted, bottom, middle);
    InclusiveRange(leftSorted, bothSorted, middle + 1, top);
    assert bothSorted[bottom..middle + 1] == leftSorted[bottom..middle + 1];
  }

  /**
   * Sorting [bottom, middle], then [middle + 1, top], then merging the whole
   * of [bottom, top] in place sorts [bottom, top] of the original sequence.
   */
  lemma HalvesThenWhole(unsorted: seq<int>, leftSorted: seq<int>, bothSorted: seq<int>, sorted: seq<int>,
                        bottom: int, middle: int, top: int)
    requires 0 <= bottom <= middle < top < |unsorted|
    requires SortsInclusive(unsorted, leftSorted, bottom, middle)
    requires SortsInclusive(leftSorted, bothSorted, middle + 1, top)
    requires |sorted| == |unsorted| && Sorted(sorted[bottom..top + 1])
    requires multiset(sorted[bottom..top + 1]) == multiset(bothSorted[bottom..top + 1])
    requires forall k :: 0 <= k < |sorted| && !(bottom <= k <= top) ==> sorted[k] == bothSorted[k]
    ensures SortsInclusive(unsorted, sorted, bottom, top)
  {
    InclusiveRange(unsorted, leftSorted, bottom, middle);
    InclusiveRange(leftSorted, bothSorted, middle + 1, top);
    assert SortsRange(bothSorted, sorted, bottom, top + 1);
    SortedThenMerged(unsorted, leftSorted, bothSorted, sorted, bottom, middle + 1, top + 1);
  }

  /** HalvesThenWhole on half-open ranges: [lo, mid) and [mid, hi). */
  lemma SortedThenMerged(unsorted: seq<int>, leftSorted: seq<int>, bothSorted: seq<int>, sorted: seq<int>,
                         lo: int, mid: int, hi: int)
    requires lo <= mid <= hi
    requires SortsRange(unsorted, leftSorted, lo, mid)
    requires SortsRange(leftSorted, bothSorted, mid, hi)
    requires SortsRange(bothSorted, sorted, lo, hi)
    ensures SortsRange(unsorted, sorted, lo, hi)
  {
    SplitMultiset(unsorted, lo, mid, hi);
    SplitMultiset(bothSorted, lo, mid, hi);
    assert bothSorted[lo..mid] == leftSorted[lo..mid];
    assert leftSorted[mid..hi] == unsorted[mid..hi];
  }

  /**
   * The loop of quickSort's Lomuto partition: with pivot = v[top], the loop
   * over j in [bottom, top) keeps [bottom, i] at most the pivot and (i, j)
   * above it, swapping v[i] and v[j] whenever v[j] is at most the pivot; it
   * never touches v[top] or anything outside [bottom, top).
   */
  method PartitionScan(a: array<int>, bottom: int, top: int) returns (i: int)
    requires 0 <= bottom < top < a.Length
    modifies a
    ensures bottom - 1 <= i < top
    ensures a[top] == old(a[top])
    ensures forall k :: bottom <= k <= i ==> a[k] <= a[top]
    ensures forall k :: i < k < top ==> a[k] > a[top]
    ensures multiset(a[..]) == multiset(old(a[..]))
    ensures forall k :: 0 <= k < a.Length && !(bottom <= k < top) ==> a[k] == old(a[k])
  {
    var pivot := a[top];
    i := bottom - 1;
    var j := bottom;
    while j <= top - 1
      invariant bottom - 1 <= i < j <= top
      invariant a[top] == pivot
      invariant forall k :: bottom <= k <= i ==> a[k] <= pivot
      invariant forall k :: i < k < j ==> a[k] > pivot
      invariant multiset(a[..]) == multiset(old(a[..]))
      invariant forall k :: 0 <= k < a.Length && !(bottom <= k < top) ==> a[k] == old(a[k])
    {
      if a[j] <= pivot {
        i := i + 1;
        Swap(a, i, j);
      }
      j := j + 1;
    }
  }

  /**
   * quickSort's partition: after the scan, swapping v[i + 1] with v[top]
   * puts the pivot at p = i + 1.
   */
  method Partition(a: array<int>, bottom: int, top: int) returns (p: int)
    requires 0 <= bottom < top < a.Length
    modifies a
    ensures PartitionedAt(old(a[..]), a[..], bottom, p, top + 1)
  {
    var i := PartitionScan(a, bottom, top);
    p := i + 1;
    Swap(a, p, top);
    PermutationWithin(old(a[..]), a[..], bottom, top + 1);
  }

  /**
   * What the partition leaves: the pivot, the last element of [lo, hi), now
   * sits at p, everything in [lo, p) is at most it and everything in
   * (p, hi) above it; the range holds the same elements and nothing outside
   * it changed.
   */
  predicate PartitionedAt(before: seq<int>, after: seq<int>, lo: int, p: int, hi: int)
  {
    0 <= lo <= p < hi <= |before| == |after|
    && after[p] == before[hi - 1]
    && (forall k :: lo <= k < p ==> after[k] <= after[p])
    && (forall k :: p < k < hi ==> after[k] > after[p])
    && multiset(after[lo..hi]) == multiset(before[lo..hi])
    && forall k :: 0 <= k < |after| && !(lo <= k < hi) ==> after[k] == before[k]
  }

  /**
   * quickSort(vec, bottom, top): partition around the last element, then sort
   * [bottom, p - 1] and [p + 1, top] recursively.
   */
  method QuickSort(a: array<int>, bottom: int, top: int)
    requires bottom < top ==> 0 <= bottom && top < a.Length
    modifies a
    ensures SortsInclusive(old(a[..]), a[..], bottom, top)
    decreases top - bottom
  {
    if bottom >= top {
      return;
    }
    var p := Partition(a, bottom, top);
    ghost var parted := a[..];
    QuickSort(a, bottom, p - 1);
    ghost var leftSorted := a[..];
    QuickSort(a, p + 1, top);
    QuickStep(old(a[..]), parted, leftSorted, a[..], bottom, p, top);
  }

  /**
   * Why quickSort sorts [bottom, top]: after partitioning at p, sorting
   * [bottom, p - 1] and [p + 1, top] in place leaves the small side, the
   * pivot and the large side in order.
   */
  lemma QuickStep(unsorted: seq<int>, parted: seq<int>, leftSorted: seq<int>, sorted: seq<int>, bottom: int, p: int, top: int)
    requires bottom < top
    requires PartitionedAt(unsorted, parted, bottom, p, top + 1)
    requires SortsInclusive(parted, leftSorted, bottom, p - 1)
    requires SortsInclusive(leftSorted, sorted, p + 1, top)
    ensures SortsInclusive(unsorted, sorted, bottom, top)
  {
    InclusiveRange(parted, leftSorted, bottom, p - 1);
    InclusiveRange(leftSorted, sorted, p + 1, top);
    PartitionThenSides(unsorted, parted, leftSorted, sorted, bottom, p, top + 1);
  }

  /** QuickStep on half-open ranges: [lo, p) and [p + 1, hi) around the pivot at p. */
  lemma PartitionThenSides(unsorted: seq<int>, parted: seq<int>, leftSorted: seq<int>, sorted: seq<int>, lo: int, p: int, hi: int)
    requires PartitionedAt(unsorted, parted, lo, p, hi)
    requires SortsRange(parted, leftSorted, lo, p)
    requires SortsRange(leftSorted, sorted, p + 1, hi)
    ensures SortsRange(unsorted, sorted, lo, hi)
  {
    var pivot := parted[p];
    assert sorted[lo..p] == leftSorted[lo..p];
    assert leftSorted[p + 1..hi] == parted[p + 1..hi];
    assert AllAtMost(parted[lo..p], pivot);
    assert AllAbove(parted[p + 1..hi], pivot);
    PermutationKeepsBounds(parted[lo..p], sorted[lo..p], pivot);
    PermutationKeepsBounds(parted[p + 1..hi], sorted[p + 1..hi], pivot);
    SortedAroundPivot(sorted, lo, p, hi);
    SortsRangePermutes(parted, leftSorted, lo, p);
    SortsRangePermutes(leftSorted, sorted, p + 1, hi);
    PermutationWithin(parted, sorted, lo, hi);
  }

  /** [1, 3, 5, 8] holds the elements of [5, 3, 8, 1]. */
  lemma ScenarioElements()
    ensures multiset([1, 3, 5, 8]) == multiset([5, 3, 8, 1])
  {
    assert multiset([5, 3, 8, 1]) == multiset{5, 3, 8, 1};
    assert multiset([1, 3, 5, 8]) == multiset{1, 3, 5, 8};
  }

  /** The concrete scenario: [5, 3, 8, 1] sorts to [1, 3, 5, 8], whichever sort is used. */
  lemma SortScenario(sorted: seq<int>)
    requires SortsRange([5, 3, 8, 1], sorted, 0, 4)
    ensures sorted == [1, 3, 5, 8]
  {
    var input := [5, 3, 8, 1];
    assert input[0..4] == input && sorted[0..4] == sorted;
    ScenarioElements();
    assert Sorted([1, 3, 5, 8]);
    SortedPermutationUnique(sorted, [1, 3, 5, 8]);
  }
}
