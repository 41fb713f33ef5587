/**
 * What the three in-place sorts of tarea1/sorting.cpp promise: the range they
 * are given ends up non-decreasing and holds the same elements as before.
 * Also the functional merge that the merge loops of mergeSort compute.
 */
module SortSpec {

  /** Non-decreasing: each element is at most the next one. */
  predicate Sorted(s: seq<int>)
    decreases |s|
  {
    |s| <= 1 || (s[0] <= s[1] && Sorted(s[1..]))
  }

  /** In a sorted sequence every element is at most every later one. */
  lemma {:induction false} SortedPairs(s: seq<int>)
    requires Sorted(s)
    ensures forall i, j :: 0 <= i <= j < |s| ==> s[i] <= s[j]
    decreases |s|
  {
    if |s| > 1 {
      SortedPairs(s[1..]);
      forall i, j | 0 <= i <= j < |s|
        ensures s[i] <= s[j]
      {
        if 0 < i {
          assert s[i] == s[1..][i - 1] && s[j] == s[1..][j - 1];
        } else if 0 < j {
          assert s[1] == s[1..][0] && s[j] == s[1..][j - 1];
        }
      }
    }
  }

  /** A sequence whose every element is at most every later one is sorted. */
  lemma {:induction false} PairsSorted(s: seq<int>)
    requires forall i, j :: 0 <= i <= j < |s| ==> s[i] <= s[j]
    ensures Sorted(s)
    decreases |s|
  {
    if |s| > 1 {
      assert s[0] <= s[1];
      forall i, j | 0 <= i <= j < |s[1..]|
        ensures s[1..][i] <= s[1..][j]
      {
        assert s[1..][i] == s[i + 1] && s[1..][j] == s[j + 1];
      }
      PairsSorted(s[1..]);
    }
  }

  predicate AllAtMost(s: seq<int>, bound: int)
  {
    forall k :: 0 <= k < |s| ==> s[k] <= bound
  }

  predicate AllAbove(s: seq<int>, bound: int)
  {
    forall k :: 0 <= k < |s| ==> s[k] > bound
  }

  /** The elements of a sequence are its head and the elements of its tail. */
  lemma HeadTail(s: seq<int>)
    requires s != []
    ensures multiset(s) == multiset{s[0]} + multiset(s[1..])
  {
    assert s == [s[0]] + s[1..];
  }

  /** Two sorted permutations of each other start with the same, least, element. */
  lemma SortedPermutationsShareHead(s: seq<int>, t: seq<int>)
    requires Sorted(s) && Sorted(t) && |s| > 0
    requires multiset(s) == multiset(t)
    ensures |t| > 0 && s[0] == t[0]
  {
    SortedPairs(s);
    SortedPairs(t);
    assert s[0] in multiset(t);
    assert t != [];
    assert t[0] in multiset(s);
    assert s[0] in t && t[0] in s;
  }

  /** Dropping the same first element from two permutations of each other leaves permutations. */
  lemma PermutationTails(s: seq<int>, t: seq<int>)
    requires |s| > 0 && |t| > 0 && s[0] == t[0]
    requires multiset(s) == multiset(t)
    ensures multiset(s[1..]) == multiset(t[1..])
  {
    HeadTail(s);
    HeadTail(t);
    assert multiset(s[1..]) == multiset(s) - multiset{s[0]};
  }

  /**
   * A sorted permutation is unique: whichever sort produced it, and whatever
   * order the input had, the result is the same sequence. In particular an
   * already sorted input (an empty or one-element one among them) comes back
   * unchanged.
   */
  lemma {:induction false} SortedPermutationUnique(s: seq<int>, t: seq<int>)
    requires Sorted(s) && Sorted(t)
    requires multiset(s) == multiset(t)
    ensures s == t
    decreases |s|
  {
    if s == [] {
      assert |t| == |multiset(t)| == 0;
    } else {
      SortedPermutationsShareHead(s, t);
      PermutationTails(s, t);
      SortedPermutationUnique(s[1..], t[1..]);
      assert s == [s[0]] + s[1..] && t == [t[0]] + t[1..];
    }
  }

  /** Rearranging a sequence keeps every bound that all its elements meet. */
  lemma PermutationKeepsBounds(s: seq<int>, t: seq<int>, bound: int)
    requires multiset(s) == multiset(t)
    ensures AllAtMost(s, bound) ==> AllAtMost(t, bound)
    ensures AllAbove(s, bound) ==> AllAbove(t, bound)
  {
    forall k | 0 <= k < |t|
      ensures exists i :: 0 <= i < |s| && s[i] == t[k]
    {
      assert t[k] in multiset(t);
      assert t[k] in s;
    }
  }

  /** Cutting a slice in two splits its multiset. */
  lemma SplitMultiset(s: seq<int>, lo: int, mid: int, hi: int)
    requires 0 <= lo <= mid <= hi <= |s|
    ensures multiset(s[lo..hi]) == multiset(s[lo..mid]) + multiset(s[mid..hi])
  {
    assert s[lo..hi] == s[lo..mid] + s[mid..hi];
  }

  /** A sequence's elements are those before lo, those in [lo, hi) and those from hi on. */
  lemma ThreeParts(s: seq<int>, lo: int, hi: int)
    requires 0 <= lo <= hi <= |s|
    ensures multiset(s) == multiset(s[..lo]) + multiset(s[lo..hi]) + multiset(s[hi..])
  {
    assert s == s[..lo] + s[lo..hi] + s[hi..];
  }

  /**
   * When two sequences agree outside [lo, hi), one is a rearrangement of the
   * other exactly when their [lo, hi) slices are.
   */
  lemma PermutationWithin(s: seq<int>, t: seq<int>, lo: int, hi: int)
    requires 0 <= lo <= hi <= |s| == |t|
    requires forall k :: 0 <= k < |s| && !(lo <= k < hi) ==> s[k] == t[k]
    ensures multiset(s[lo..hi]) == multiset(t[lo..hi]) <==> multiset(s) == multiset(t)
  {
    ThreeParts(s, lo, hi);
    ThreeParts(t, lo, hi);
    assert s[..lo] == t[..lo] && s[hi..] == t[hi..];
    if multiset(s) == multiset(t) {
      Cancel(multiset(s[lo..hi]), multiset(t[lo..hi]), multiset(s[..lo]), multiset(s[hi..]));
    }
  }

  /** Multiset union cancels. */
  lemma Cancel(x: multiset<int>, y: multiset<int>, before: multiset<int>, after: multiset<int>)
    requires before + x + after == before + y + after
    ensures x == y
  {
    assert x == before + x + after - before - after;
    assert y == before + y + after - before - after;
  }

  /**
   * A range whose part before p is sorted and at most s[p], and whose part
   * after p is sorted and above s[p], is sorted.
   */
  lemma SortedAroundPivot(s: seq<int>, lo: int, p: int, hi: int)
    requires 0 <= lo <= p < hi <= |s|
    requires Sorted(s[lo..p]) && AllAtMost(s[lo..p], s[p])
    requires Sorted(s[p + 1..hi]) && AllAbove(s[p + 1..hi], s[p])
    ensures Sorted(s[lo..hi])
  {
    SortedPairs(s[lo..p]);
    SortedPairs(s[p + 1..hi]);
    forall i, j | 0 <= i <= j < hi - lo
      ensures s[lo..hi][i] <= s[lo..hi][j]
    {
      var x, y := lo + i, lo + j;
      assert s[lo..hi][i] == s[x] && s[lo..hi][j] == s[y];
      if y < p {
        assert s[x] == s[lo..p][i] && s[y] == s[lo..p][j];
      } else if p < x {
        assert s[x] == s[p + 1..hi][x - p - 1] && s[y] == s[p + 1..hi][y - p - 1];
      } else {
        if x < p {
          assert s[x] == s[lo..p][i];
        }
        if p < y {
          assert s[y] == s[p + 1..hi][y - p - 1];
        }
      }
    }
    PairsSorted(s[lo..hi]);
  }

  /**
   * `after` is `before` with the range [lo, hi) sorted in place: the range is
   * now non-decreasing, holds the same elements as before, and nothing outside
   * it changed. This is what each sort of tarea1/sorting.cpp does to the range
   * it is given.
   */
  predicate SortsRange(before: seq<int>, after: seq<int>, lo: int, hi: int)
  {
    0 <= lo <= hi <= |before| == |after|
    && Sorted(after[lo..hi])
    && multiset(after[lo..hi]) == multiset(before[lo..hi])
    && forall k :: 0 <= k < |after| && !(lo <= k < hi) ==> after[k] == before[k]
  }

  /** Equal on [lo, hi) and outside it means equal. */
  lemma Unchanged(s: seq<int>, t: seq<int>, lo: int, hi: int)
    requires 0 <= lo <= hi <= |s| == |t|
    requires s[lo..hi] == t[lo..hi]
    requires forall k :: 0 <= k < |s| && !(lo <= k < hi) ==> s[k] == t[k]
    ensures s == t
  {
    forall k | lo <= k < hi
      ensures s[k] == t[k]
    {
      assert s[k] == s[lo..hi][k - lo];
    }
  }

  /** Sorting a range rearranges the whole sequence. */
  lemma SortsRangePermutes(before: seq<int>, after: seq<int>, lo: int, hi: int)
    requires SortsRange(before, after, lo, hi)
    ensures multiset(after) == multiset(before)
  {
    PermutationWithin(before, after, lo, hi);
  }

  /**
   * Sorting a range has only one possible outcome: any two ways of doing it,
   * bubbleSort, mergeSort and quickSort among them, give the same sequence.
   */
  lemma SortsRangeUnique(before: seq<int>, x: seq<int>, y: seq<int>, lo: int, hi: int)
    requires SortsRange(before, x, lo, hi) && SortsRange(before, y, lo, hi)
    ensures x == y
  {
    SortedPermutationUnique(x[lo..hi], y[lo..hi]);
    Unchanged(x, y, lo, hi);
  }

  /** Sorting a range that is already sorted changes nothing. */
  lemma SortsRangeIdempotent(before: seq<int>, after: seq<int>, lo: int, hi: int)
    requires SortsRange(before, after, lo, hi)
    requires Sorted(before[lo..hi])
    ensures after == before
  {
    assert SortsRange(before, before, lo, hi);
    SortsRangeUnique(before, after, before, lo, hi);
  }

  /**
   * The merge performed by the loops of mergeSort: repeatedly take the smaller
   * head, the left one on a tie, and once a run is used up append the rest of
   * the other.
   */
  function Merge(xs: seq<int>, ys: seq<int>): (r: seq<int>)
    decreases |xs| + |ys|
  {
    if xs == [] then ys
    else if ys == [] then xs
    else if xs[0] <= ys[0] then [xs[0]] + Merge(xs[1..], ys)
    else [ys[0]] + Merge(xs, ys[1..])
  }

  /** Merging rearranges: the result holds exactly the elements of both runs. */
  lemma {:induction false} MergePermutation(xs: seq<int>, ys: seq<int>)
    ensures multiset(Merge(xs, ys)) == multiset(xs) + multiset(ys)
    decreases |xs| + |ys|
  {
    if xs != [] && ys != [] {
      var m := Merge(xs, ys);
      HeadTail(m);
      if xs[0] <= ys[0] {
        MergePermutation(xs[1..], ys);
        HeadTail(xs);
      } else {
        MergePermutation(xs, ys[1..]);
        HeadTail(ys);
      }
    }
  }

  /** The merge is as long as both runs together. */
  lemma {:induction false} MergeLength(xs: seq<int>, ys: seq<int>)
    ensures |Merge(xs, ys)| == |xs| + |ys|
    decreases |xs| + |ys|
  {
    if xs != [] && ys != [] {
      if xs[0] <= ys[0] {
        MergeLength(xs[1..], ys);
      } else {
        MergeLength(xs, ys[1..]);
      }
    }
  }

  /** Merging two sorted runs gives a sorted run. */
  lemma {:induction false} MergeSorted(xs: seq<int>, ys: seq<int>)
    requires Sorted(xs) && Sorted(ys)
    ensures Sorted(Merge(xs, ys))
    decreases |xs| + |ys|
  {
    if xs != [] && ys != [] {
      var m := Merge(xs, ys);
      if xs[0] <= ys[0] {
        MergeSorted(xs[1..], ys);
        assert m[1..] == Merge(xs[1..], ys);
        assert |xs| > 1 ==> xs[1..][0] == xs[1];
      } else {
        MergeSorted(xs, ys[1..]);
        assert m[1..] == Merge(xs, ys[1..]);
        assert |ys| > 1 ==> ys[1..][0] == ys[1];
      }
    }
  }

  /**
   * `done` holds, in merge order, the elements taken so far once l elements of
   * left and r of right are used: followed by the merge of what is left it
   * spells out the whole merge.
   */
  predicate Merging(left: seq<int>, l: nat, right: seq<int>, r: nat, done: seq<int>)
  {
    l <= |left| && r <= |right| && done + Merge(left[l..], right[r..]) == Merge(left, right)
  }

  /** Taking the left head when it is no larger than the right one keeps Merging. */
  lemma TakeLeft(left: seq<int>, l: nat, right: seq<int>, r: nat, done: seq<int>)
    requires Merging(left, l, right, r, done)
    requires l < |left| && r < |right| && left[l] <= right[r]
    ensures Merging(left, l + 1, right, r, done + [left[l]])
  {
    assert left[l..][1..] == left[l + 1..];
    assert (done + [left[l]]) + Merge(left[l + 1..], right[r..]) == done + ([left[l]] + Merge(left[l + 1..], right[r..]));
  }

  /** Taking the right head when it is the smaller one keeps Merging. */
  lemma TakeRight(left: seq<int>, l: nat, right: seq<int>, r: nat, done: seq<int>)
    requires Merging(left, l, right, r, done)
    requires l < |left| && r < |right| && left[l] > right[r]
    ensures Merging(left, l, right, r + 1, done + [right[r]])
  {
    assert right[r..][1..] == right[r + 1..];
    assert (done + [right[r]]) + Merge(left[l..], right[r + 1..]) == done + ([right[r]] + Merge(left[l..], right[r + 1..]));
  }

  /** Once a run is used up, the merge is done by appending the rest of the other. */
  lemma FinishMerge(left: seq<int>, l: nat, right: seq<int>, r: nat, done: seq<int>)
    requires Merging(left, l, right, r, done)
    requires l == |left| || r == |right|
    ensures done + left[l..] + right[r..] == Merge(left, right)
  {
    if l == |left| {
      assert left[l..] == [];
    } else {
      assert right[r..] == [];
    }
  }
}
