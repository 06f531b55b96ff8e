# Sorting kernel of the quick-sort / merge-sort benchmark

This project models the in-place sorting routines of the benchmark's C library
(`sort_algorithms.c`, with the enumerations of `sort_algorithms.h`) in Dafny, and proves
what they promise. The routines are the helpers `swap_elements`, `is_sorted`,
`copy_array` and `pivot_strategy_name`, then `select_pivot` with its five strategies and
the generator's static seed, and Lomuto partitioning (`partition_array`). It also covers
recursive and stack-based quick sort (`quick_sort_recursive`, `quick_sort_iterative`),
and `merge_arrays`, `merge_sort_serial` and `merge_sort_parallel` as built without
OpenMP.

The C code works on arrays in place, so the model does too. Every routine is a `method`
on a Dafny `array<int>` (`array?<int>` where the C code tests for `NULL`). Each carries
`modifies` clauses, loop invariants, and postconditions that relate the new contents to
the old ones. The static `seed` of `select_pivot` becomes the field of a `PivotSeed`
object. Every routine that may draw a random pivot receives that object.

The promises are stated on sequences in module `SortSpec`:
- `SortedRange(a, lo, hi)`: every pair of positions in `[lo, hi)` is in order.
- `Permuted(a, b, lo, hi)`: `b` has the same multiset as `a`, and every position outside
  `[lo, hi)` is unchanged.
- `Merge(xs, ys)`: the stable two-way merge that `merge_arrays` performs, defined by
  recursion.

Every sort is proved to return `Success` on a valid range. It leaves that range sorted
and a rearrangement of what it held, and touches nothing else. The error codes for
`NULL` and for an invalid range are proved as well. The exception is the as-written
`quick_sort_recursive` (see Findings).

Modules:
- `SortTypes` (`sort_types.dfy`): `SortError`, `PivotStrategy`, their C codes and
  `pivot_strategy_name`.
- `SortSpec` (`sort_spec.dfy`): the specification predicates, the merge function and
  their lemmas.
- `SortHelpers` (`sort_helpers.dfy`): `swap_elements`, `is_sorted`, `copy_array`.
- `Pivot` (`pivot.dfy`): `select_pivot`, `partition_array`.
- `QuickSort` (`quick_sort.dfy`): both quick sorts.
- `MergeSort` (`merge_sort.dfy`): `merge_arrays` and both merge sorts.

Some C functions are split into a main method and helper methods, one per loop or loop
body:
- `SweepAroundLast` for the partition loop;
- `PartitionAndPush` for the body of the stack loop;
- `FillBuffer` for the two copy loops of `merge_arrays`;
- `MergeHeads`, `CopyLeftRest` and `CopyRightRest` for its three write-back loops.

Together the pieces perform the C function's reads, writes and comparisons in the same
order. The split adds method boundaries but no extra work.

Some of the C code's structure lives in method bodies rather than in contracts:
- `StackItem` is the `{low, high}` struct of `quick_sort_iterative`
  (sort_algorithms.c:161-164).
- `QuickSortIterative` allocates a stack of `high - low + 1` slots
  (sort_algorithms.c:171-172). `PartitionAndPush` proves that `top` stays inside it.
- `ParallelThreshold` is `PARALLEL_THRESHOLD`, 1000 (sort_algorithms.c:291).
  `MergeSortParallel` hands a range to `MergeSortSerial` when `right - left` is below it
  (sort_algorithms.c:293-295). Otherwise it sorts both halves by recursion, one after the
  other, ignores their results, and merges (sort_algorithms.c:314-321). Both paths meet
  the same contract.

## Model

| member | source | states |
|---|---|---|
| SortTypes.ErrorCode | sort_algorithms.h:13-18 | the C value of each error code lies in -3..0 and is 0 exactly for `SORT_SUCCESS` |
| SortTypes.ErrorOfCode | sort_algorithms.h:13-18 | a C value names an error code exactly when it lies in -3..0 |
| SortTypes.ErrorCodeRoundTrip | sort_algorithms.h:13-18 | reading back the C value of an error code gives that code |
| SortTypes.StrategyCode | sort_algorithms.h:21-27 | the five strategies are numbered 0..4 |
| SortTypes.StrategyOfCode | sort_algorithms.h:21-27 | an int outside 0..4 is exactly the out-of-range strategy that the `default:` branches handle |
| SortTypes.StrategyCodeRoundTrip | sort_algorithms.h:21-27 | reading back a strategy's enumerator value gives the strategy |
| SortTypes.StrategyName | sort_algorithms.c:52-61 | the label is "Unknown" exactly for a value outside the enumeration |
| SortTypes.StrategyOfName | sort_algorithms.c:52-61 | a label that reads back names one of the five real strategies |
| SortTypes.StrategyNameRoundTrip | sort_algorithms.c:52-61 | the labels are distinct: each reads back to its strategy, and "Unknown" reads back to none |
| SortSpec.AdjacentSortedIffSorted | sort_algorithms.c:19-23 | checking each adjacent pair, as `is_sorted` does, holds exactly when every pair is in order |
| SortSpec.MergeFrom | sort_algorithms.c:233-256 | once i left and j right elements are taken, the rest of the merge is as long as what is left of the two runs (the body takes the smaller head, the left one on a tie) |
| SortSpec.Merge | sort_algorithms.c:233-256 | the merge that is written back is as long as the two runs together |
| SortSpec.MergePermutes | sort_algorithms.c:233-256 | what is left to merge holds exactly the elements left in both buffers |
| SortSpec.MergeIsPermutation | sort_algorithms.c:233-256 | the merge of two runs is a rearrangement of the two runs end to end |
| SortSpec.MergeSorted | sort_algorithms.c:233-256 | merging two sorted runs gives a sorted run |
| SortSpec.MergeHeadBound | sort_algorithms.c:234-243 | a value at most both heads of two sorted runs is at most everything in their merge |
| SortSpec.SortedAroundPivot | sort_algorithms.c:145-155 | a range split at a pivot, with smaller-or-equal elements left and larger ones right and both sides sorted, is sorted |
| SortHelpers.Swap | sort_algorithms.c:8-13 | the two positions exchange values, every other position is unchanged, and the multiset is kept |
| SortHelpers.IsSorted | sort_algorithms.c:16-25 | returns 1 exactly when the array is non-null, n > 0 and the first n elements are in order, else 0 |
| SortHelpers.CopyArray | sort_algorithms.c:28-36 | `NULL` gives `SORT_ERROR_NULL_POINTER`; n <= 0 gives `SORT_ERROR_INVALID_SIZE` and leaves dest alone; otherwise dest[0..n) equals src[0..n), the rest of dest is kept, and the result is success |
| Pivot.PivotSeed.constructor | sort_algorithms.c:83 | the seed starts at 123456789 |
| Pivot.NextSeed | sort_algorithms.c:84 | the unsigned 32-bit step, masked with `0x7fffffff`, stays below 2^31 |
| Pivot.Mid | sort_algorithms.c:79 | the midpoint lies in [low, high] at offset (high - low) / 2 |
| Pivot.PivotIndex | sort_algorithms.c:68-105 | every strategy picks an index in [low, high]; an empty range gives low |
| Pivot.SelectPivot | sort_algorithms.c:68-105 | returns `PivotIndex` for the seed after the step; only Random advances the seed, once; only median-of-three moves elements, leaving arr[low] <= arr[mid] <= arr[high], a rearrangement of the range, and nothing else changed |
| Pivot.SwapIfGreater | sort_algorithms.c:92-97 | afterwards arr[i] <= arr[j]; the two values are kept or exchanged and nothing else moves |
| Pivot.OrderThree | sort_algorithms.c:87-100 | the three positions end in order, hold the same three values, and nothing else moves |
| Pivot.Partition | sort_algorithms.c:112-134 | low >= high returns low and changes nothing; otherwise the range is rearranged and split at the returned p: elements before p are <= arr[p] and elements after are > arr[p] |
| Pivot.SweepAroundLast | sort_algorithms.c:122-133 | with the pivot value (read before the swap) parked at high, the sweep splits the range at p, puts the pivot value at p and only rearranges the range |
| QuickSort.QuickSortCombine | sort_algorithms.c:145-155 | a range partitioned at p whose two sides are then sorted in place is sorted and rearranged |
| QuickSort.QuickSortRecursive | sort_algorithms.c:141-158 | corrected version: `NULL` and invalid ranges give their errors and leave the array alone; every valid range ends sorted, rearranged, and with success |
| QuickSort.QuickSortRecursiveAsWritten | sort_algorithms.c:141-158 | as written: the range is always rearranged; success implies sorted; every even-length range returns `SORT_ERROR_INVALID_SIZE` |
| QuickSort.PermutedAfterSides | sort_algorithms.c:145-154 | partitioning and then rearranging either side rearranges the whole range, even when an error cuts the recursion short |
| QuickSort.AsWrittenRejectsTwoElements | sort_algorithms.c:141-158 | on {2, 1}, the as-written routine returns `SORT_ERROR_INVALID_SIZE` for every strategy |
| QuickSort.PendingPush | sort_algorithms.c:178-198 | pushing a range adds its size to what is pending |
| QuickSort.PushedSides | sort_algorithms.c:189-199 | below the pushes the stack is unchanged and at most two ranges are pushed; each lies inside the popped range on one side of the pivot; a side is pushed exactly when it holds at least two elements |
| QuickSort.PendingShrinks | sort_algorithms.c:186-200 | replacing the popped range by its sides without the pivot strictly shrinks what is pending, so the loop ends |
| QuickSort.ShapeAfterPartition | sort_algorithms.c:189-199 | the pushed sides keep the stack's ranges disjoint and ordered, with the k-th starting at least 2k past low |
| QuickSort.OnlyTopCovers | sort_algorithms.c:181-200 | no pending range other than the top one reaches into the top range |
| QuickSort.NotInSameBefore | sort_algorithms.c:186-200 | two positions outside the popped range that the new stack does not hold together were not held together before |
| QuickSort.OrderAfterPartition | sort_algorithms.c:186-200 | two positions that no pending range holds together stay in order after the top range is partitioned and its sides pushed |
| QuickSort.PopSingleton | sort_algorithms.c:183-186 | popping a one-element range keeps the loop invariant and shrinks what is pending |
| QuickSort.PartitionStep | sort_algorithms.c:183-200 | one partition-and-push pass keeps the loop invariant and shrinks what is pending |
| QuickSort.StartPending | sort_algorithms.c:175-179 | with only the initial range on the stack, the loop invariant holds |
| QuickSort.NothingPending | sort_algorithms.c:181-204 | when the stack is empty, the range is sorted and a rearrangement of the original |
| QuickSort.PartitionAndPush | sort_algorithms.c:186-200 | partitions the popped range and pushes exactly the sides with at least two elements, left first, without overflowing the stack |
| QuickSort.QuickSortIterative | sort_algorithms.c:166-205 | `NULL` and invalid ranges give their errors and leave the array alone; every valid range ends sorted, rearranged, and with success |
| MergeSort.MergedRangePermuted | sort_algorithms.c:212-260 | a range overwritten with the merge of its two halves is a rearrangement of the range |
| MergeSort.MergedRangeSorted | sort_algorithms.c:212-260 | a range overwritten with the merge of its two sorted halves is sorted |
| MergeSort.SuffixHead | sort_algorithms.c:234-256 | a suffix starting with x holds x at its first position, and the tail follows |
| MergeSort.MergedNone | sort_algorithms.c:233 | before anything is written back, the merge state holds with nothing taken |
| MergeSort.MergedTakeLeft | sort_algorithms.c:235-237 | writing back the left head, when the merge takes it next, extends the merged prefix by one |
| MergeSort.MergedTakeRight | sort_algorithms.c:238-240 | writing back the right head, when the merge takes it next, extends the merged prefix by one |
| MergeSort.MergedAll | sort_algorithms.c:252-256 | once both buffers are used up, the range holds the whole merge and nothing else changed |
| MergeSort.MergeArrays | sort_algorithms.c:212-260 | arr[left..right] becomes the merge of its old halves [left..mid] and [mid+1..right]; everything else is unchanged |
| MergeSort.MergeHeads | sort_algorithms.c:233-243 | writes the merge while both buffers have elements, and stops when one is used up |
| MergeSort.CopyLeftRest | sort_algorithms.c:246-250 | copying the rest of the left buffer continues the merge |
| MergeSort.CopyRightRest | sort_algorithms.c:252-256 | copying the rest of the right buffer completes the merge |
| MergeSort.FillBuffer | sort_algorithms.c:227-230 | the buffer holds a copy of arr from position `from` on, for the buffer's length |
| MergeSort.MergeSortCombine | sort_algorithms.c:267-280 | sorting both halves in place and merging them sorts and rearranges the range |
| MergeSort.MergeSortSerial | sort_algorithms.c:263-283 | `NULL` and invalid ranges give their errors and leave the array alone; every valid range ends sorted, rearranged, and with success |
| MergeSort.MergeSortParallel | sort_algorithms.c:286-325 | `NULL` and invalid ranges give their errors and leave the array alone; every valid range ends sorted, rearranged, and with success, on the threshold path and the recursive path alike |

## Left out

- `print_array` (sort_algorithms.c:39-49): console output only.
- The `NULL` test of `swap_elements`: its arguments are positions of an existing array,
  which cannot be null in the model.
- Allocation failure: it is left out because allocation in Dafny cannot fail. This covers
  the `SORT_ERROR_MEMORY_ALLOC` return of `quick_sort_iterative` and the early return of
  `merge_arrays` when a buffer cannot be allocated. `free` is left out for the same
  reason. `SortError.MemoryAlloc` exists only as an error code.
- The OpenMP `parallel sections` branch of `merge_sort_parallel`. Only the `#else` branch,
  which sorts the halves one after the other, is modelled. Concurrent writes to disjoint
  halves are not modelled.
- `int` overflow of the C code, for example `high - low + 1` or `left + (right - left) / 2`
  near `INT_MAX`. Indices are unbounded integers limited by the array length. The seed's
  unsigned 32-bit arithmetic is modelled exactly.
- The driver and test-data programs (`main.c`, `test_data.c`), the timing code and the
  Python analysis scripts: they are benchmarking and plotting, not sorting. Which values
  the random strategy draws is modelled (`NextSeed`), but not which pivots it yields on
  particular inputs.
- QuickSortRecursive, QuickSortRecursiveAsWritten and QuickSortIterative: the seed after
  the call is not stated. It depends on how many random pivots were drawn. The per-call
  seed step is stated by `SelectPivot`, `Partition` and `PartitionAndPush`.

## Findings

| source | as written | input that shows it | evidently intended | confidence | as-written member | corrected member |
|---|---|---|---|---|---|---|
| sort_algorithms.c:149-154 | `quick_sort_recursive` recurses on `[low, p - 1]` and `[p + 1, high]` even when one is empty. The callee's check `low > high` then returns `SORT_ERROR_INVALID_SIZE`, which the caller passes up. Every range of even length therefore fails. | `arr = {2, 1}`, `low = 0`, `high = 1`, any strategy: the result is `SORT_ERROR_INVALID_SIZE` | an empty side counts as sorted and the call returns `SORT_SUCCESS`, as `quick_sort_iterative` does by not pushing small sides | high; not executed | QuickSort.QuickSortRecursiveAsWritten, QuickSort.AsWrittenRejectsTwoElements | QuickSort.QuickSortRecursive |
