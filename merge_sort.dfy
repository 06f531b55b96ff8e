// merge_arrays, merge_sort_serial and merge_sort_parallel (the branch built
// without OpenMP, where the two halves are sorted one after the other).
module MergeSort {
  import opened SortTypes
  import opened SortSpec

  /** merge_sort_parallel hands a range to the serial sort when right - left
      is below this. */
  const ParallelThreshold := 1000

  /** An array range rewritten with the merge of its two halves is a
      rearrangement of the range. */
  lemma MergedRangePermuted(a: seq<int>, b: seq<int>, left: int, mid: int, right: int)
    requires 0 <= left <= mid <= right < |a| == |b|
    requires b[..left] == a[..left] && b[right + 1..] == a[right + 1..]
    requires b[left..right + 1] == Merge(a[left..mid + 1], a[mid + 1..right + 1])
    ensures Permuted(a, b, left, right + 1)
  {
    var xs, ys := a[left..mid + 1], a[mid + 1..right + 1];
    assert a[left..right + 1] == xs + ys;
    MergeIsPermutation(xs, ys);
    RangePermuted(a, b, left, right + 1);
  }

  /** An array range rewritten with the merge of its two sorted halves is
      sorted. */
  lemma MergedRangeSorted(a: seq<int>, b: seq<int>, left: int, mid: int, right: int)
    requires 0 <= left <= mid <= right < |a| == |b|
    requires b[left..right + 1] == Merge(a[left..mid + 1], a[mid + 1..right + 1])
    requires SortedRange(a, left, mid + 1) && SortedRange(a, mid + 1, right + 1)
    ensures SortedRange(b, left, right + 1)
  {
    var xs, ys := a[left..mid + 1], a[mid + 1..right + 1];
    SortedSlice(a, left, mid + 1);
    SortedSlice(a, mid + 1, right + 1);
    MergeSorted(xs, ys, 0, 0);
    var merged := b[left..right + 1];
    forall x, y | left <= x < y < right + 1 ensures b[x] <= b[y] {
      assert b[x] == merged[x - left] && b[y] == merged[y - left];
    }
  }

  /** A suffix that starts with x: its first element is x and the rest follows. */
  lemma SuffixHead(s: seq<int>, n: int, x: int, tail: seq<int>)
    requires 0 <= n <= |s| && s[n..] == [x] + tail
    ensures n < |s| && s[n] == x && s[n + 1..] == tail
  {
    assert s[n..][0] == s[n];
    assert s[n + 1..] == s[n..][1..];
  }

  /** The state of merge_arrays after i elements of the left buffer ls and j of
      the right buffer rs have been written back: arr[left .. left + i + j - 1]
      holds the start of their merge, the rest of arr is as it was (a), and
      the merge of what remains of the buffers is the rest of the merge. */
  ghost predicate MergedUpTo(b: seq<int>, a: seq<int>, left: int, ls: seq<int>, rs: seq<int>, i: int, j: int)
  {
    0 <= i <= |ls| && 0 <= j <= |rs| && 0 <= left && left + |ls| + |rs| <= |a| == |b|
    && (forall t :: 0 <= t < |b| && !(left <= t < left + i + j) ==> b[t] == a[t])
    && (forall t :: left <= t < left + i + j ==> b[t] == Merge(ls, rs)[t - left])
    && MergeFrom(ls, rs, i, j) == Merge(ls, rs)[i + j..]
  }

  /** Writing back the left head when it is the next element of the merge. */
  lemma MergedTakeLeft(b: seq<int>, a: seq<int>, left: int, ls: seq<int>, rs: seq<int>, i: int, j: int)
    requires MergedUpTo(b, a, left, ls, rs, i, j)
    requires i < |ls| && (j == |rs| || ls[i] <= rs[j])
    ensures MergedUpTo(b[left + i + j := ls[i]], a, left, ls, rs, i + 1, j)
  {
    SuffixHead(Merge(ls, rs), i + j, ls[i], MergeFrom(ls, rs, i + 1, j));
  }

  /** Writing back the right head when it is the next element of the merge. */
  lemma MergedTakeRight(b: seq<int>, a: seq<int>, left: int, ls: seq<int>, rs: seq<int>, i: int, j: int)
    requires MergedUpTo(b, a, left, ls, rs, i, j)
    requires j < |rs| && (i == |ls| || ls[i] > rs[j])
    ensures MergedUpTo(b[left + i + j := rs[j]], a, left, ls, rs, i, j + 1)
  {
    SuffixHead(Merge(ls, rs), i + j, rs[j], MergeFrom(ls, rs, i, j + 1));
  }

  /** Before anything is written back, nothing of the merge is claimed. */
  lemma MergedNone(a: seq<int>, left: int, ls: seq<int>, rs: seq<int>)
    requires 0 <= left && left + |ls| + |rs| <= |a|
    ensures MergedUpTo(a, a, left, ls, rs, 0, 0)
  {
    assert Merge(ls, rs)[0..] == Merge(ls, rs);
  }

  /** When both buffers are used up, the range holds the whole merge. */
  lemma MergedAll(b: seq<int>, a: seq<int>, left: int, ls: seq<int>, rs: seq<int>)
    requires MergedUpTo(b, a, left, ls, rs, |ls|, |rs|)
    ensures b[..left] == a[..left] && b[left + |ls| + |rs|..] == a[left + |ls| + |rs|..]
    ensures b[left..left + |ls| + |rs|] == Merge(ls, rs)
  {
  }

  /** merge_arrays: copies arr[left..mid] and arr[mid+1..right] into two
      buffers, then writes their merge back over arr[left..right]: first by
      taking the smaller head while both buffers have elements left, then by
      copying what remains of each buffer. */
  method MergeArrays(arr: array<int>, left: int, mid: int, right: int)
    requires 0 <= left <= mid <= right < arr.Length
    modifies arr
    ensures arr[..left] == old(arr[..left]) && arr[right + 1..] == old(arr[right + 1..])
    ensures arr[left..right + 1] == Merge(old(arr[left..mid + 1]), old(arr[mid + 1..right + 1]))
  {
    ghost var a := arr[..];
    var leftSize := mid - left + 1;
    var rightSize := right - mid;
    var leftArr := new int[leftSize];
    var rightArr := new int[rightSize];
    FillBuffer(leftArr, arr, left);
    FillBuffer(rightArr, arr, mid + 1);
    ghost var ls, rs := leftArr[..], rightArr[..];
    assert ls == a[left..mid + 1] && rs == a[mid + 1..right + 1];
    assert left + |ls| + |rs| == right + 1;
    MergedNone(a, left, ls, rs);
    assert arr[..] == a;
    var i, j := MergeHeads(arr, left, leftArr, rightArr, a);
    i := CopyLeftRest(arr, left, leftArr, rightArr, a, i, j);
    j := CopyRightRest(arr, left, leftArr, rightArr, a, i, j);
    assert leftArr[..] == ls && rightArr[..] == rs && i == |ls| && j == |rs|;
    MergedAll(arr[..], a, left, ls, rs);
  }

  /** The first loop of merge_arrays: while both buffers have elements left,
      write back the smaller head, the left one on a tie. */
  method MergeHeads(arr: array<int>, left: int, leftArr: array<int>, rightArr: array<int>, ghost a: seq<int>)
    returns (i: int, j: int)
    requires arr != leftArr && arr != rightArr
    requires MergedUpTo(arr[..], a, left, leftArr[..], rightArr[..], 0, 0)
    modifies arr
    ensures MergedUpTo(arr[..], a, left, leftArr[..], rightArr[..], i, j)
    ensures i == leftArr.Length || j == rightArr.Length
  {
    ghost var ls, rs := leftArr[..], rightArr[..];
    i, j := 0, 0;
    var k := left;
    while i < leftArr.Length && j < rightArr.Length
      invariant k == left + i + j && MergedUpTo(arr[..], a, left, ls, rs, i, j)
    {
      if leftArr[i] <= rightArr[j] {
        MergedTakeLeft(arr[..], a, left, ls, rs, i, j);
        arr[k] := leftArr[i];
        i := i + 1;
      } else {
        MergedTakeRight(arr[..], a, left, ls, rs, i, j);
        arr[k] := rightArr[j];
        j := j + 1;
      }
      k := k + 1;
    }
  }

  /** The second loop of merge_arrays: once the right buffer is used up, copy
      what remains of the left one. */
  method CopyLeftRest(arr: array<int>, left: int, leftArr: array<int>, rightArr: array<int>, ghost a: seq<int>,
                      i0: int, j: int)
    returns (i: int)
    requires arr != leftArr && arr != rightArr
    requires MergedUpTo(arr[..], a, left, leftArr[..], rightArr[..], i0, j)
    requires i0 == leftArr.Length || j == rightArr.Length
    modifies arr
    ensures MergedUpTo(arr[..], a, left, leftArr[..], rightArr[..], i, j) && i == leftArr.Length
  {
    ghost var ls, rs := leftArr[..], rightArr[..];
    i := i0;
    var k := left + i + j;
    while i < leftArr.Length
      invariant k == left + i + j && MergedUpTo(arr[..], a, left, ls, rs, i, j)
      invariant i < leftArr.Length ==> j == rightArr.Length
    {
      MergedTakeLeft(arr[..], a, left, ls, rs, i, j);
      arr[k] := leftArr[i];
      i := i + 1;
      k := k + 1;
    }
  }

  /** The third loop of merge_arrays: copy what remains of the right buffer. */
  method CopyRightRest(arr: array<int>, left: int, leftArr: array<int>, rightArr: array<int>, ghost a: seq<int>,
                       i: int, j0: int)
    returns (j: int)
    requires arr != leftArr && arr != rightArr
    requires MergedUpTo(arr[..], a, left, leftArr[..], rightArr[..], i, j0) && i == leftArr.Length
    modifies arr
    ensures MergedUpTo(arr[..], a, left, leftArr[..], rightArr[..], i, j) && j == rightArr.Length
  {
    ghost var ls, rs := leftArr[..], rightArr[..];
    j := j0;
    var k := left + i + j;
    while j < rightArr.Length
      invariant k == left + i + j && MergedUpTo(arr[..], a, left, ls, rs, i, j)
    {
      MergedTakeRight(arr[..], a, left, ls, rs, i, j);
      arr[k] := rightArr[j];
      j := j + 1;
      k := k + 1;
    }
  }

  /** One copy loop of merge_arrays: fills the buffer buf with the elements of
      arr starting at position from. */
  method FillBuffer(buf: array<int>, arr: array<int>, from: int)
    requires buf != arr && 0 <= from && from + buf.Length <= arr.Length
    modifies buf
    ensures buf[..] == arr[from..from + buf.Length]
  {
    for i := 0 to buf.Length
      invariant forall t :: 0 <= t < i ==> buf[t] == arr[from + t]
    {
      buf[i] := arr[from + i];
    }
  }

  /** Sorting both halves and merging them sorts the range. */
  lemma MergeSortCombine(a0: seq<int>, a1: seq<int>, a2: seq<int>, a3: seq<int>, left: int, mid: int, right: int)
    requires 0 <= left <= mid < right < |a0|
    requires Permuted(a0, a1, left, mid + 1) && SortedRange(a1, left, mid + 1)
    requires Permuted(a1, a2, mid + 1, right + 1) && SortedRange(a2, mid + 1, right + 1)
    requires |a3| == |a2| && a3[..left] == a2[..left] && a3[right + 1..] == a2[right + 1..]
    requires a3[left..right + 1] == Merge(a2[left..mid + 1], a2[mid + 1..right + 1])
    ensures SortedRange(a3, left, right + 1)
    ensures Permuted(a0, a3, left, right + 1)
  {
    assert SortedRange(a2, left, mid + 1);
    MergedRangeSorted(a2, a3, left, mid, right);
    MergedRangePermuted(a2, a3, left, mid, right);
    PermutedWiden(a0, a1, left, mid + 1, left, right + 1);
    PermutedWiden(a1, a2, mid + 1, right + 1, left, right + 1);
    PermutedTrans(a0, a1, a2, left, right + 1);
    PermutedTrans(a0, a2, a3, left, right + 1);
  }

  /** merge_sort_serial: sorts both halves around the midpoint, then merges
      them. Both halves are non-empty, so the recursive calls cannot fail. */
  method MergeSortSerial(arr: array?<int>, left: int, right: int) returns (result: SortError)
    requires arr != null && 0 <= left <= right ==> right < arr.Length
    modifies arr
    ensures arr == null ==> result == NullPointer
    ensures arr != null && (left < 0 || right < 0 || left > right) ==>
      result == InvalidSize && arr[..] == old(arr[..])
    ensures arr != null && 0 <= left <= right ==>
      result == Success
      && SortedRange(arr[..], left, right + 1)
      && Permuted(old(arr[..]), arr[..], left, right + 1)
    decreases if left <= right then right - left + 1 else 0
  {
    if arr == null {
      return NullPointer;
    }
    if left < 0 || right < 0 || left > right {
      return InvalidSize;
    }
    if left < right {
      ghost var a0 := arr[..];
      var mid := left + (right - left) / 2;
      var leftError := MergeSortSerial(arr, left, mid);
      if leftError != Success {
        return leftError;
      }
      ghost var a1 := arr[..];
      var rightError := MergeSortSerial(arr, mid + 1, right);
      if rightError != Success {
        return rightError;
      }
      ghost var a2 := arr[..];
      MergeArrays(arr, left, mid, right);
      MergeSortCombine(a0, a1, a2, arr[..], left, mid, right);
    }
    return Success;
  }

  /** merge_sort_parallel as built without OpenMP: ranges with right - left
      below the threshold go to the serial sort; larger ones sort both halves
      by recursion, ignoring the results, and merge them. */
  method MergeSortParallel(arr: array?<int>, left: int, right: int) returns (result: SortError)
    requires arr != null && 0 <= left <= right ==> right < arr.Length
    modifies arr
    ensures arr == null ==> result == NullPointer
    ensures arr != null && (left < 0 || right < 0 || left > right) ==>
      result == InvalidSize && arr[..] == old(arr[..])
    ensures arr != null && 0 <= left <= right ==>
      result == Success
      && SortedRange(arr[..], left, right + 1)
      && Permuted(old(arr[..]), arr[..], left, right + 1)
    decreases if left <= right then right - left + 1 else 0
  {
    if arr == null {
      return NullPointer;
    }
    if left < 0 || right < 0 || left > right {
      return InvalidSize;
    }
    if right - left < ParallelThreshold {
      result := MergeSortSerial(arr, left, right);
      return;
    }
    if left < right {
      ghost var a0 := arr[..];
      var mid := left + (right - left) / 2;
      var leftResult := MergeSortParallel(arr, left, mid);
      ghost var a1 := arr[..];
      var rightResult := MergeSortParallel(arr, mid + 1, right);
      ghost var a2 := arr[..];
      MergeArrays(arr, left, mid, right);
      MergeSortCombine(a0, a1, a2, arr[..], left, mid, right);
    }
    return Success;
  }
}
