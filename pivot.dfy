// Pivot selection (select_pivot) and Lomuto partitioning (partition_array).
module Pivot {
  import opened SortTypes
  import opened SortSpec
  import opened SortHelpers

  /** An unsigned 32-bit value. */
  type Uint32 = x: int | 0 <= x < 0x1_0000_0000

  /** The function-static `seed` of select_pivot: one object shared by every
      routine that can draw a random pivot. */
  class PivotSeed {
    var seed: Uint32

    constructor ()
      ensures seed == InitialSeed
    {
      seed := InitialSeed;
    }
  }

  const InitialSeed: Uint32 := 123456789

  /** One step of the generator: unsigned 32-bit multiply-add (wrapping modulo
      2^32), then `& 0x7fffffff`, which keeps the low 31 bits. The seed therefore
      stays below 2^31 after every draw. */
  function NextSeed(seed: Uint32): (next: Uint32)
    ensures next < 0x8000_0000
  {
    var wrapped := (seed * 1103515245 + 12345) % 0x1_0000_0000;
    wrapped % 0x8000_0000
  }

  /** The midpoint low + (high - low) / 2 (high >= low, so C's truncating
      division and Dafny's agree). */
  function Mid(low: int, high: int): (mid: int)
    requires low <= high
    ensures low <= mid <= high
    ensures mid - low == (high - low) / 2
  {
    low + (high - low) / 2
  }

  /** The index select_pivot returns; for Random it is computed from the seed
      after the step. */
  function PivotIndex(low: int, high: int, strategy: PivotStrategy, seed: Uint32): (idx: int)
    ensures low <= high ==> low <= idx <= high
    ensures low > high ==> idx == low
  {
    if low > high then low
    else
      match strategy
      case First => low
      case Last => high
      case Middle => Mid(low, high)
      case Random => low + seed % (high - low + 1)
      case MedianOfThree => Mid(low, high)
      case OutOfRange => low
  }

  /** select_pivot. Median-of-three orders arr[low], arr[mid], arr[high] in place
      with three conditional swaps and returns mid. */
  method SelectPivot(arr: array<int>, low: int, high: int, strategy: PivotStrategy, state: PivotSeed)
    returns (idx: int)
    requires strategy == MedianOfThree && low <= high ==> 0 <= low && high < arr.Length
    modifies arr, state
    ensures state.seed == if strategy == Random && low <= high then NextSeed(old(state.seed)) else old(state.seed)
    ensures idx == PivotIndex(low, high, strategy, state.seed)
    ensures strategy != MedianOfThree || low > high ==> arr[..] == old(arr[..])
    ensures low <= high && 0 <= low && high < arr.Length ==> Permuted(old(arr[..]), arr[..], low, high + 1)
    ensures strategy == MedianOfThree && low <= high ==>
      arr[low] <= arr[idx] <= arr[high]
      && forall k :: 0 <= k < arr.Length && k != low && k != idx && k != high ==> arr[k] == old(arr[k])
  {
    if low > high {
      return low;
    }
    match strategy
    case First =>
      return low;
    case Last =>
      return high;
    case Middle =>
      return Mid(low, high);
    case Random =>
      state.seed := NextSeed(state.seed);
      return low + state.seed % (high - low + 1);
    case MedianOfThree =>
      var mid := Mid(low, high);
      OrderThree(arr, low, mid, high);
      return mid;
    case OutOfRange =>
      return low;
  }

  /** One compare-and-exchange of median-of-three: swap arr[i] and arr[j] when
      arr[i] > arr[j]. */
  method SwapIfGreater(arr: array<int>, i: int, j: int, ghost lo: int, ghost hi: int)
    requires 0 <= lo <= i <= j < hi <= arr.Length
    modifies arr
    ensures arr[i] <= arr[j]
    ensures (arr[i] == old(arr[i]) && arr[j] == old(arr[j])) || (arr[i] == old(arr[j]) && arr[j] == old(arr[i]))
    ensures forall k :: 0 <= k < arr.Length && k != i && k != j ==> arr[k] == old(arr[k])
    ensures Permuted(old(arr[..]), arr[..], lo, hi)
  {
    if arr[i] > arr[j] {
      Swap(arr, i, j);
    }
  }

  /** The three conditional swaps of median-of-three: afterwards
      arr[low] <= arr[mid] <= arr[high], the three values are the old three in
      some order, and nothing else moved. */
  method OrderThree(arr: array<int>, low: int, mid: int, high: int)
    requires 0 <= low <= mid <= high < arr.Length
    modifies arr
    ensures arr[low] <= arr[mid] <= arr[high]
    ensures Permuted(old(arr[..]), arr[..], low, high + 1)
    ensures forall k :: 0 <= k < arr.Length && k != low && k != mid && k != high ==> arr[k] == old(arr[k])
  {
    ghost var a0 := arr[..];
    SwapIfGreater(arr, low, mid, low, high + 1);
    ghost var a1 := arr[..];
    SwapIfGreater(arr, low, high, low, high + 1);
    ghost var a2 := arr[..];
    PermutedTrans(a0, a1, a2, low, high + 1);
    SwapIfGreater(arr, mid, high, low, high + 1);
    PermutedTrans(a0, a2, arr[..], low, high + 1);
  }

  /** partition_array: picks a pivot, parks it at high, sweeps [low, high) moving
      every element <= pivot to the front, then drops the pivot between the two
      groups and returns its position. */
  method Partition(arr: array<int>, low: int, high: int, strategy: PivotStrategy, state: PivotSeed)
    returns (p: int)
    requires low < high ==> 0 <= low && high < arr.Length
    modifies arr, state
    ensures state.seed == if strategy == Random && low < high then NextSeed(old(state.seed)) else old(state.seed)
    ensures low >= high ==> p == low && arr[..] == old(arr[..])
    ensures low < high ==>
      Permuted(old(arr[..]), arr[..], low, high + 1) && PartitionedAt(arr[..], low, high, p)
  {
    if low >= high {
      return low;
    }
    ghost var a0 := arr[..];
    var pivotIndex := SelectPivot(arr, low, high, strategy, state);
    var pivotValue := arr[pivotIndex];
    ghost var a1 := arr[..];
    Swap(arr, pivotIndex, high);
    ghost var a2 := arr[..];
    PermutedTrans(a0, a1, a2, low, high + 1);
    p := SweepAroundLast(arr, low, high, pivotValue);
    PermutedTrans(a0, a2, arr[..], low, high + 1);
  }

  /** The sweep of partition_array once the pivot value, read before the swap,
      sits at arr[high]: i marks the end of the elements <= pivot, j scans
      [low, high), and the pivot finally moves to i + 1. */
  method SweepAroundLast(arr: array<int>, low: int, high: int, pivotValue: int) returns (p: int)
    requires 0 <= low < high < arr.Length && arr[high] == pivotValue
    modifies arr
    ensures PartitionedAt(arr[..], low, high, p)
    ensures arr[p] == old(arr[high])
    ensures Permuted(old(arr[..]), arr[..], low, high + 1)
  {
    ghost var a0 := arr[..];
    var i := low - 1;
    for j := low to high
      invariant low - 1 <= i < j
      invariant arr[high] == pivotValue
      invariant forall k :: low <= k <= i ==> arr[k] <= pivotValue
      invariant forall k :: i < k < j ==> pivotValue < arr[k]
      invariant Permuted(a0, arr[..], low, high + 1)
    {
      if arr[j] <= pivotValue {
        i := i + 1;
        ghost var b := arr[..];
        Swap(arr, i, j);
        PermutedTrans(a0, b, arr[..], low, high + 1);
      }
    }
    ghost var b := arr[..];
    Swap(arr, i + 1, high);
    PermutedTrans(a0, b, arr[..], low, high + 1);
    p := i + 1;
  }
}
