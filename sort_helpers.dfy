// The basic helpers of sort_algorithms.c: swap_elements, is_sorted, copy_array.
module SortHelpers {
  import opened SortTypes
  import opened SortSpec

  /** swap_elements on two positions of one array (the same position is allowed). */
  method Swap(arr: array<int>, i: int, j: int)
    requires 0 <= i < arr.Length && 0 <= j < arr.Length
    modifies arr
    ensures arr[i] == old(arr[j]) && arr[j] == old(arr[i])
    ensures forall k :: 0 <= k < arr.Length && k != i && k != j ==> arr[k] == old(arr[k])
    ensures multiset(arr[..]) == old(multiset(arr[..]))
  {
    var temp := arr[i];
    arr[i] := arr[j];
    arr[j] := temp;
  }

  /** is_sorted: 1 exactly when the array exists, n is positive and the first n
      elements are in order; an empty range counts as not sorted. */
  method IsSorted(arr: array?<int>, n: int) returns (r: int)
    requires arr != null && n > 0 ==> n <= arr.Length
    ensures r == 0 || r == 1
    ensures r == 1 <==> arr != null && n > 0 && AdjacentSorted(arr[..n])
    ensures r == 1 <==> arr != null && n > 0 && SortedRange(arr[..], 0, n)
  {
    if arr == null || n <= 0 {
      return 0;
    }
    for i := 1 to n
      invariant AdjacentSorted(arr[..i])
    {
      if arr[i] < arr[i - 1] {
        assert !AdjacentSorted(arr[..n]) by {
          assert arr[..n][i] < arr[..n][i - 1];
        }
        SortedSlice(arr[..], 0, n);
        AdjacentSortedIffSorted(arr[..n]);
        return 0;
      }
      assert arr[..i + 1] == arr[..i] + [arr[i]];
    }
    assert arr[..n] == arr[..][0..n];
    SortedSlice(arr[..], 0, n);
    AdjacentSortedIffSorted(arr[..n]);
    return 1;
  }

  /** copy_array: copies the first n elements of src over dest. */
  method CopyArray(dest: array?<int>, src: array?<int>, n: int) returns (result: SortError)
    requires dest != null && src != null && n > 0 ==> n <= dest.Length && n <= src.Length
    modifies dest
    ensures dest == null || src == null ==> result == NullPointer
    ensures dest != null && src != null && n <= 0 ==> result == InvalidSize
    ensures dest != null && src != null && n > 0 ==> result == Success
    ensures dest != null && (src == null || n <= 0) ==> dest[..] == old(dest[..])
    ensures dest != null && src != null && n > 0 ==>
      dest[..n] == old(src[..n]) && dest[n..] == old(dest[n..]) && src[..] == old(src[..])
  {
    if dest == null || src == null {
      return NullPointer;
    }
    if n <= 0 {
      return InvalidSize;
    }
    for i := 0 to n
      invariant dest[..i] == old(src[..i])
      invariant dest[i..] == old(dest[i..])
      invariant src[..] == old(src[..])
    {
      dest[i] := src[i];
    }
    return Success;
  }
}
