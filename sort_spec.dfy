// What the sorting routines promise, stated on sequences: a sorted range, an
// in-range permutation that leaves the rest of the array alone, and the stable
// two-way merge that merge_arrays performs.
module SortSpec {

  /** Every pair of positions in [lo, hi) is in order. */
  ghost predicate SortedRange(a: seq<int>, lo: int, hi: int)
    requires 0 <= lo && hi <= |a|
  {
    forall x, y :: lo <= x < y < hi ==> a[x] <= a[y]
  }

  /** Every element is at most its successor: the check is_sorted makes. */
  predicate AdjacentSorted(s: seq<int>)
  {
    forall i :: 0 < i < |s| ==> s[i - 1] <= s[i]
  }

  ghost predicate Sorted(s: seq<int>)
  {
    forall i, j :: 0 <= i < j < |s| ==> s[i] <= s[j]
  }

  /** The local check is_sorted makes decides global order. */
  lemma {:induction false} AdjacentSortedIffSorted(s: seq<int>)
    ensures AdjacentSorted(s) <==> Sorted(s)
  {
    if AdjacentSorted(s) {
      AdjacentToPairwise(s, |s|);
    }
  }

  lemma {:induction false} AdjacentToPairwise(s: seq<int>, n: nat)
    requires n <= |s| && AdjacentSorted(s)
    ensures forall i, j :: 0 <= i < j < n ==> s[i] <= s[j]
  {
    if n > 0 {
      AdjacentToPairwise(s, n - 1);
      forall i | 0 <= i < n - 1 ensures s[i] <= s[n - 1] {
        assert s[i] <= s[n - 2];
      }
    }
  }

  lemma SortedSlice(a: seq<int>, lo: int, hi: int)
    requires 0 <= lo <= hi <= |a|
    ensures SortedRange(a, lo, hi) <==> Sorted(a[lo..hi])
  {
    if Sorted(a[lo..hi]) {
      forall x, y | lo <= x < y < hi ensures a[x] <= a[y] {
        assert a[x] == a[lo..hi][x - lo] && a[y] == a[lo..hi][y - lo];
      }
    }
  }

  /** b is a rearrangement of a that leaves every position outside [lo, hi)
      alone. */
  ghost predicate Permuted(a: seq<int>, b: seq<int>, lo: int, hi: int)
  {
    0 <= lo <= hi <= |a| == |b|
    && (forall k :: 0 <= k < lo ==> a[k] == b[k])
    && (forall k :: hi <= k < |a| ==> a[k] == b[k])
    && multiset(a) == multiset(b)
  }

  lemma PermutedTrans(a: seq<int>, b: seq<int>, c: seq<int>, lo: int, hi: int)
    requires Permuted(a, b, lo, hi) && Permuted(b, c, lo, hi)
    ensures Permuted(a, c, lo, hi)
  {
  }

  /** A permutation of a sub-range is a permutation of every range around it. */
  lemma PermutedWiden(a: seq<int>, b: seq<int>, lo: int, hi: int, lo2: int, hi2: int)
    requires Permuted(a, b, lo, hi)
    requires 0 <= lo2 <= lo && hi <= hi2 <= |a|
    ensures Permuted(a, b, lo2, hi2)
  {
  }

  /** Inside the range the elements are the same multiset, and the parts outside
      are equal as sequences. */
  lemma {:induction false} PermutedRange(a: seq<int>, b: seq<int>, lo: int, hi: int)
    requires Permuted(a, b, lo, hi)
    ensures a[..lo] == b[..lo] && a[hi..] == b[hi..]
    ensures multiset(a[lo..hi]) == multiset(b[lo..hi])
  {
    assert a[..lo] == b[..lo];
    assert a[hi..] == b[hi..];
    assert a == a[..lo] + a[lo..hi] + a[hi..];
    assert b == b[..lo] + b[lo..hi] + b[hi..];
    var outside := multiset(a[..lo]) + multiset(a[hi..]);
    assert multiset(a) == multiset(a[lo..hi]) + outside;
    assert multiset(b) == multiset(b[lo..hi]) + outside;
    assert multiset(a[lo..hi]) == multiset(a) - outside;
  }

  /** The converse of PermutedRange: equal outside [lo, hi) and the same
      multiset inside is a permutation of [lo, hi). */
  lemma {:induction false} RangePermuted(a: seq<int>, b: seq<int>, lo: int, hi: int)
    requires 0 <= lo <= hi <= |a| == |b|
    requires a[..lo] == b[..lo] && a[hi..] == b[hi..]
    requires multiset(a[lo..hi]) == multiset(b[lo..hi])
    ensures Permuted(a, b, lo, hi)
  {
    forall k | 0 <= k < lo ensures a[k] == b[k] {
      assert a[k] == a[..lo][k] && b[k] == b[..lo][k];
    }
    forall k | hi <= k < |a| ensures a[k] == b[k] {
      assert a[k] == a[hi..][k - hi] && b[k] == b[hi..][k - hi];
    }
    assert a == a[..lo] + a[lo..hi] + a[hi..];
    assert b == b[..lo] + b[lo..hi] + b[hi..];
  }

  /** Every element of s is at most v. */
  ghost predicate AllAtMost(s: seq<int>, v: int)
  {
    forall k :: 0 <= k < |s| ==> s[k] <= v
  }

  /** Every element of s is greater than v. */
  ghost predicate AllAbove(s: seq<int>, v: int)
  {
    forall k :: 0 <= k < |s| ==> v < s[k]
  }

  /** Every element of s is at least v. */
  ghost predicate AllAtLeast(s: seq<int>, v: int)
  {
    forall k :: 0 <= k < |s| ==> v <= s[k]
  }

  /** Bounds depend only on the multiset of the elements. */
  lemma BoundsOfPermutation(s: seq<int>, t: seq<int>, v: int)
    requires multiset(s) == multiset(t)
    ensures AllAtMost(s, v) ==> AllAtMost(t, v)
    ensures AllAbove(s, v) ==> AllAbove(t, v)
    ensures AllAtLeast(s, v) ==> AllAtLeast(t, v)
  {
    forall k | 0 <= k < |t| ensures t[k] in s {
      assert t[k] in multiset(t);
    }
  }

  /** merge_arrays: repeatedly take the smaller head, the left run's on a tie.
      MergeFrom(xs, ys, i, j) merges what remains once i elements of xs and j
      of ys have been taken. */
  function MergeFrom(xs: seq<int>, ys: seq<int>, i: int, j: int): (merged: seq<int>)
    requires 0 <= i <= |xs| && 0 <= j <= |ys|
    ensures |merged| == (|xs| - i) + (|ys| - j)
    decreases (|xs| - i) + (|ys| - j)
  {
    if i == |xs| then ys[j..]
    else if j == |ys| then xs[i..]
    else if xs[i] <= ys[j] then [xs[i]] + MergeFrom(xs, ys, i + 1, j)
    else [ys[j]] + MergeFrom(xs, ys, i, j + 1)
  }

  /** The merge merge_arrays writes back: every element of both runs, once. */
  function Merge(xs: seq<int>, ys: seq<int>): (merged: seq<int>)
    ensures |merged| == |xs| + |ys|
  {
    MergeFrom(xs, ys, 0, 0)
  }

  /** The merge keeps every element of both runs, and nothing else. */
  lemma {:induction false} MergePermutes(xs: seq<int>, ys: seq<int>, i: int, j: int)
    requires 0 <= i <= |xs| && 0 <= j <= |ys|
    ensures multiset(MergeFrom(xs, ys, i, j)) == multiset(xs[i..]) + multiset(ys[j..])
    decreases (|xs| - i) + (|ys| - j)
  {
    if i == |xs| {
      assert xs[i..] == [];
    } else if j == |ys| {
      assert ys[j..] == [];
    } else if xs[i] <= ys[j] {
      MergePermutes(xs, ys, i + 1, j);
      SuffixMultiset(xs, i);
    } else {
      MergePermutes(xs, ys, i, j + 1);
      SuffixMultiset(ys, j);
    }
  }

  /** A suffix holds its first element and the suffix after it. */
  lemma SuffixMultiset(s: seq<int>, i: int)
    requires 0 <= i < |s|
    ensures multiset(s[i..]) == multiset{s[i]} + multiset(s[i + 1..])
  {
    assert s[i..] == [s[i]] + s[i + 1..];
  }

  /** The merge of two runs is a rearrangement of the two runs laid end to end. */
  lemma MergeIsPermutation(xs: seq<int>, ys: seq<int>)
    ensures multiset(Merge(xs, ys)) == multiset(xs + ys)
  {
    MergePermutes(xs, ys, 0, 0);
    assert xs[0..] == xs && ys[0..] == ys;
  }

  /** Merging two sorted runs gives a sorted run. */
  lemma {:induction false} MergeSorted(xs: seq<int>, ys: seq<int>, i: int, j: int)
    requires 0 <= i <= |xs| && 0 <= j <= |ys|
    requires Sorted(xs) && Sorted(ys)
    ensures Sorted(MergeFrom(xs, ys, i, j))
    decreases (|xs| - i) + (|ys| - j)
  {
    if i == |xs| || j == |ys| {
    } else if xs[i] <= ys[j] {
      MergeSorted(xs, ys, i + 1, j);
      MergeHeadBound(xs, ys, i + 1, j, xs[i]);
      SortedCons(xs[i], MergeFrom(xs, ys, i + 1, j));
    } else {
      MergeSorted(xs, ys, i, j + 1);
      MergeHeadBound(xs, ys, i, j + 1, ys[j]);
      SortedCons(ys[j], MergeFrom(xs, ys, i, j + 1));
    }
  }

  /** A value at most both remaining heads of two sorted runs is at most
      everything in their merge. */
  lemma MergeHeadBound(xs: seq<int>, ys: seq<int>, i: int, j: int, v: int)
    requires 0 <= i <= |xs| && 0 <= j <= |ys|
    requires Sorted(xs) && Sorted(ys)
    requires i < |xs| ==> v <= xs[i]
    requires j < |ys| ==> v <= ys[j]
    ensures forall k :: 0 <= k < |MergeFrom(xs, ys, i, j)| ==> v <= MergeFrom(xs, ys, i, j)[k]
  {
    MergePermutes(xs, ys, i, j);
    var m := MergeFrom(xs, ys, i, j);
    forall k | 0 <= k < |m| ensures v <= m[k] {
      assert m[k] in multiset(m);
      if m[k] in multiset(xs[i..]) {
        var p :| i <= p < |xs| && xs[p] == m[k];
      } else {
        assert m[k] in multiset(ys[j..]);
        var q :| j <= q < |ys| && ys[q] == m[k];
      }
    }
  }

  lemma SortedCons(v: int, s: seq<int>)
    requires Sorted(s)
    requires forall k :: 0 <= k < |s| ==> v <= s[k]
    ensures Sorted([v] + s)
  {
    var t := [v] + s;
    forall i, j | 0 <= i < j < |t| ensures t[i] <= t[j] {
      assert t[j] == s[j - 1];
      if i > 0 { assert t[i] == s[i - 1]; }
    }
  }

  /** [lo, hi] is split at p: nothing before p is above a[p], everything after
      p is above it. */
  ghost predicate PartitionedAt(a: seq<int>, lo: int, hi: int, p: int)
  {
    0 <= lo <= p <= hi < |a|
    && (forall k :: lo <= k < p ==> a[k] <= a[p])
    && (forall k :: p < k <= hi ==> a[p] < a[k])
  }

  /** A range split at p with everything on the left at most a[p], everything
      on the right above it, and both sides sorted, is sorted. */
  lemma SortedAroundPivot(a: seq<int>, lo: int, p: int, hi: int)
    requires 0 <= lo <= p < hi <= |a|
    requires SortedRange(a, lo, p) && SortedRange(a, p + 1, hi)
    requires forall k :: lo <= k < p ==> a[k] <= a[p]
    requires forall k :: p < k < hi ==> a[p] < a[k]
    ensures SortedRange(a, lo, hi)
  {
  }
}
