// quick_sort_recursive and quick_sort_iterative.
module QuickSort {
  import opened SortTypes
  import opened SortSpec
  import opened Pivot

  /** After a partition at p, sorting each side in place sorts the whole range. */
  lemma QuickSortCombine(a1: seq<int>, a2: seq<int>, a3: seq<int>, low: int, p: int, high: int)
    requires PartitionedAt(a1, low, high, p)
    requires Permuted(a1, a2, low, p) && SortedRange(a2, low, p)
    requires Permuted(a2, a3, p + 1, high + 1) && SortedRange(a3, p + 1, high + 1)
    ensures SortedRange(a3, low, high + 1)
    ensures Permuted(a1, a3, low, high + 1)
  {
    var v := a1[p];
    PermutedRange(a1, a2, low, p);
    assert AllAtMost(a1[low..p], v);
    BoundsOfPermutation(a1[low..p], a2[low..p], v);
    PermutedRange(a2, a3, p + 1, high + 1);
    assert AllAbove(a2[p + 1..high + 1], v);
    BoundsOfPermutation(a2[p + 1..high + 1], a3[p + 1..high + 1], v);
    forall k | low <= k < p ensures a3[k] <= a3[p] {
      assert a3[k] == a2[low..p][k - low];
    }
    forall k | p < k <= high ensures a3[p] < a3[k] {
      assert a3[k] == a3[p + 1..high + 1][k - p - 1];
    }
    SortedAroundPivot(a3, low, p, high + 1);
    PermutedWiden(a1, a2, low, p, low, high + 1);
    PermutedWiden(a2, a3, p + 1, high + 1, low, high + 1);
  }

  /** quick_sort_recursive as it was evidently meant to work: the recursion
      skips a side of the pivot that holds no element. Every valid range ends
      sorted and the call succeeds. */
  method QuickSortRecursive(arr: array?<int>, low: int, high: int, strategy: PivotStrategy, state: PivotSeed)
    returns (result: SortError)
    requires arr != null && 0 <= low <= high ==> high < arr.Length
    modifies arr, state
    ensures arr == null ==> result == NullPointer
    ensures arr != null && (low < 0 || high < 0 || low > high) ==>
      result == InvalidSize && arr[..] == old(arr[..])
    ensures arr != null && 0 <= low <= high ==>
      result == Success
      && SortedRange(arr[..], low, high + 1)
      && Permuted(old(arr[..]), arr[..], low, high + 1)
    decreases if low <= high then high - low + 1 else 0
  {
    if arr == null {
      return NullPointer;
    }
    if low < 0 || high < 0 || low > high {
      return InvalidSize;
    }
    ghost var a0 := arr[..];
    if low < high {
      var pivotIndex := Partition(arr, low, high, strategy, state);
      ghost var a1 := arr[..];
      if low < pivotIndex {
        var leftError := QuickSortRecursive(arr, low, pivotIndex - 1, strategy, state);
      }
      ghost var a2 := arr[..];
      if pivotIndex < high {
        var rightError := QuickSortRecursive(arr, pivotIndex + 1, high, strategy, state);
      }
      QuickSortCombine(a1, a2, arr[..], low, pivotIndex, high);
      PermutedTrans(a0, a1, arr[..], low, high + 1);
    }
    return Success;
  }

  /** quick_sort_recursive as written: it recurses on [low, p - 1] and
      [p + 1, high] even when one of them is empty, and the callee's bounds
      check then reports SORT_ERROR_INVALID_SIZE, which is passed up. A range
      of even length can never succeed: its two sides have an odd total, so one
      of them has even length (an empty side included). */
  method QuickSortRecursiveAsWritten(arr: array?<int>, low: int, high: int, strategy: PivotStrategy, state: PivotSeed)
    returns (result: SortError)
    requires arr != null && 0 <= low <= high ==> high < arr.Length
    modifies arr, state
    ensures arr == null ==> result == NullPointer
    ensures arr != null && (low < 0 || high < 0 || low > high) ==>
      result == InvalidSize && arr[..] == old(arr[..])
    ensures arr != null && 0 <= low <= high ==>
      (result == Success || result == InvalidSize)
      && Permuted(old(arr[..]), arr[..], low, high + 1)
      && (result == Success ==> SortedRange(arr[..], low, high + 1))
      && ((high - low + 1) % 2 == 0 ==> result == InvalidSize)
    decreases if low <= high then high - low + 1 else 0
  {
    if arr == null {
      return NullPointer;
    }
    if low < 0 || high < 0 || low > high {
      return InvalidSize;
    }
    ghost var a0 := arr[..];
    if low < high {
      var pivotIndex := Partition(arr, low, high, strategy, state);
      ghost var a1 := arr[..];
      var leftError := QuickSortRecursiveAsWritten(arr, low, pivotIndex - 1, strategy, state);
      if leftError != Success {
        PermutedAfterSides(a0, a1, arr[..], arr[..], low, pivotIndex, high);
        return leftError;
      }
      ghost var a2 := arr[..];
      var rightError := QuickSortRecursiveAsWritten(arr, pivotIndex + 1, high, strategy, state);
      PermutedAfterSides(a0, a1, a2, arr[..], low, pivotIndex, high);
      if rightError != Success {
        return rightError;
      }
      QuickSortCombine(a1, a2, arr[..], low, pivotIndex, high);
    }
    return Success;
  }

  /** Partitioning and then rearranging each side (or leaving a side alone)
      rearranges the whole range. */
  lemma PermutedAfterSides(a0: seq<int>, a1: seq<int>, a2: seq<int>, a3: seq<int>, low: int, p: int, high: int)
    requires 0 <= low <= p <= high
    requires Permuted(a0, a1, low, high + 1)
    requires if low < p then Permuted(a1, a2, low, p) else a2 == a1
    requires if p < high then Permuted(a2, a3, p + 1, high + 1) else a3 == a2
    ensures Permuted(a0, a3, low, high + 1)
  {
    if low < p {
      PermutedWiden(a1, a2, low, p, low, high + 1);
    }
    if p < high {
      PermutedWiden(a2, a3, p + 1, high + 1, low, high + 1);
    }
  }

  /** The smallest input that shows the defect: two elements, any strategy. */
  method AsWrittenRejectsTwoElements(strategy: PivotStrategy) returns (result: SortError, sorted: seq<int>)
    ensures result == InvalidSize
    ensures multiset(sorted) == multiset{2, 1}
  {
    var arr := new int[] [2, 1];
    ghost var before := arr[..];
    assert multiset(before) == multiset{2, 1} by {
      assert before == [2, 1];
    }
    var state := new PivotSeed();
    result := QuickSortRecursiveAsWritten(arr, 0, 1, strategy, state);
    sorted := arr[..];
  }

  /** StackItem of quick_sort_iterative: a range [low, high] still to sort. */
  datatype StackItem = StackItem(low: int, high: int)

  function ItemSize(it: StackItem): nat
  {
    if it.low <= it.high then it.high - it.low + 1 else 0
  }

  /** Number of positions that pending ranges still cover. */
  ghost function Pending(st: seq<StackItem>): nat
  {
    if st == [] then 0 else Pending(st[..|st| - 1]) + ItemSize(st[|st| - 1])
  }

  lemma PendingPush(st: seq<StackItem>, it: StackItem)
    ensures Pending(st + [it]) == Pending(st) + ItemSize(it)
  {
    assert (st + [it])[..|st|] == st;
  }

  /** The stack holds non-empty ranges inside [low, high], ordered from bottom
      to top and disjoint; the k-th one starts at least 2k past low, which is
      what keeps the stack within its high - low + 1 slots. */
  ghost predicate StackShape(st: seq<StackItem>, low: int, high: int)
  {
    (forall k :: 0 <= k < |st| ==> low + 2 * k <= st[k].low <= st[k].high <= high)
    && (forall k1, k2 :: 0 <= k1 < k2 < |st| ==> st[k1].high < st[k2].low)
  }

  /** Some pending range holds both x and y. */
  ghost predicate InSame(st: seq<StackItem>, x: int, y: int)
  {
    exists k :: 0 <= k < |st| && st[k].low <= x && y <= st[k].high
  }

  /** Two positions of [low, high] that no pending range holds together are
      already in order. */
  ghost predicate SortedOutsidePending(a: seq<int>, low: int, high: int, st: seq<StackItem>)
  {
    0 <= low && high < |a|
    && forall x, y :: low <= x < y <= high && !InSame(st, x, y) ==> a[x] <= a[y]
  }

  /** Popping a one-element range leaves every invariant in place. */
  lemma PopSingleton(a0: seq<int>, a: seq<int>, low: int, high: int, rest: seq<StackItem>, c: StackItem)
    requires LoopInv(a0, a, low, high, rest + [c]) && c.low == c.high
    ensures LoopInv(a0, a, low, high, rest)
    ensures Pending(rest) < Pending(rest + [c])
  {
    PendingPush(rest, c);
    var st := rest + [c];
    assert StackShape(rest, low, high) by {
      forall k | 0 <= k < |rest| ensures low + 2 * k <= rest[k].low <= rest[k].high <= high {
        assert st[k] == rest[k];
      }
      forall k1, k2 | 0 <= k1 < k2 < |rest| ensures rest[k1].high < rest[k2].low {
        assert st[k1] == rest[k1] && st[k2] == rest[k2];
      }
    }
    assert SortedOutsidePending(a, low, high, rest) by {
      forall x, y | low <= x < y <= high && !InSame(rest, x, y) ensures a[x] <= a[y] {
        assert !InSame(st, x, y) by {
          forall k | 0 <= k < |st| ensures !(st[k].low <= x && y <= st[k].high) {
            if k < |rest| {
              assert st[k] == rest[k];
            } else {
              assert st[k] == c;
            }
          }
        }
      }
    }
  }

  /** The stack after partitioning the top range c at p: the sides that hold at
      least two elements are pushed, left side first. */
  function AfterPartition(rest: seq<StackItem>, c: StackItem, p: int): seq<StackItem>
  {
    rest + (if p - 1 > c.low then [StackItem(c.low, p - 1)] else [])
         + (if p + 1 < c.high then [StackItem(p + 1, c.high)] else [])
  }

  /** After a partition at p the stack below the pushes is unchanged and at
      most two ranges are pushed; they lie inside c, one on each side of the
      pivot, and a side is pushed exactly when it holds at least two elements. */
  lemma PushedSides(rest: seq<StackItem>, c: StackItem, p: int)
    requires c.low <= p <= c.high
    ensures |rest| <= |AfterPartition(rest, c, p)| <= |rest| + 2 && AfterPartition(rest, c, p)[..|rest|] == rest
    ensures forall it :: it in AfterPartition(rest, c, p)[|rest|..] ==>
      c.low <= it.low < it.high <= c.high && (it.high < p || p < it.low)
    ensures StackItem(c.low, p - 1) in AfterPartition(rest, c, p)[|rest|..] <==> c.low < p - 1
    ensures StackItem(p + 1, c.high) in AfterPartition(rest, c, p)[|rest|..] <==> p + 1 < c.high
  {
    var left := if p - 1 > c.low then [StackItem(c.low, p - 1)] else [];
    var right := if p + 1 < c.high then [StackItem(p + 1, c.high)] else [];
    assert AfterPartition(rest, c, p)[|rest|..] == left + right;
  }

  /** Replacing c by its two sides without the pivot shrinks what is pending. */
  lemma PendingShrinks(rest: seq<StackItem>, c: StackItem, p: int)
    requires c.low <= p <= c.high
    ensures Pending(AfterPartition(rest, c, p)) < Pending(rest + [c])
  {
    var left := StackItem(c.low, p - 1);
    var right := StackItem(p + 1, c.high);
    var withLeft := if p - 1 > c.low then rest + [left] else rest;
    PendingPush(rest, c);
    if p - 1 > c.low {
      PendingPush(rest, left);
    }
    assert Pending(withLeft) <= Pending(rest) + p - c.low;
    if p + 1 < c.high {
      assert AfterPartition(rest, c, p) == withLeft + [right];
      PendingPush(withLeft, right);
    } else {
      assert AfterPartition(rest, c, p) == withLeft;
    }
  }

  /** The sides pushed after a partition keep the stack's shape. */
  lemma ShapeAfterPartition(low: int, high: int, rest: seq<StackItem>, c: StackItem, p: int)
    requires StackShape(rest + [c], low, high)
    requires c.low <= p <= c.high
    ensures StackShape(AfterPartition(rest, c, p), low, high)
  {
    var st := rest + [c];
    var next := AfterPartition(rest, c, p);
    assert forall k :: 0 <= k < |rest| ==> st[k] == rest[k] && next[k] == rest[k];
    assert st[|rest|] == c;
    if p - 1 > c.low { assert next[|rest|] == StackItem(c.low, p - 1); }
    if p + 1 < c.high { assert next[|next| - 1] == StackItem(p + 1, c.high); }
  }

  /** No pending range other than c reaches into c: the stack is disjoint. */
  lemma OnlyTopCovers(low: int, high: int, rest: seq<StackItem>, c: StackItem, x: int, y: int)
    requires StackShape(rest + [c], low, high)
    requires x < y && ((c.low <= x <= c.high && c.high < y) || (x < c.low && c.low <= y <= c.high))
    ensures !InSame(rest + [c], x, y)
  {
    var st := rest + [c];
    forall k | 0 <= k < |st| ensures !(st[k].low <= x && y <= st[k].high) {
      if k < |rest| { assert st[k].high < st[|rest|].low; }
    }
  }

  /** Positions outside c that the new stack does not hold together were not
      held together before either. */
  lemma NotInSameBefore(rest: seq<StackItem>, c: StackItem, p: int, x: int, y: int)
    requires x < y && !InSame(AfterPartition(rest, c, p), x, y)
    requires !(c.low <= x <= c.high)
    ensures !InSame(rest + [c], x, y)
  {
    var st := rest + [c];
    var next := AfterPartition(rest, c, p);
    assert |next| >= |rest|;
    forall k | 0 <= k < |st| ensures !(st[k].low <= x && y <= st[k].high) {
      if k < |rest| {
        assert st[k] == rest[k] == next[k];
      } else {
        assert st[k] == c;
      }
    }
  }

  /** Partitioning the top range c at p keeps the order outside the pending
      ranges. */
  lemma OrderAfterPartition(a: seq<int>, b: seq<int>, low: int, high: int, rest: seq<StackItem>, c: StackItem, p: int)
    requires StackShape(rest + [c], low, high)
    requires SortedOutsidePending(a, low, high, rest + [c])
    requires Permuted(a, b, c.low, c.high + 1) && PartitionedAt(b, c.low, c.high, p)
    ensures SortedOutsidePending(b, low, high, AfterPartition(rest, c, p))
  {
    var next := AfterPartition(rest, c, p);
    PermutedRange(a, b, c.low, c.high + 1);
    var inner := a[c.low..c.high + 1];
    assert (rest + [c])[|rest|] == c;
    assert low <= c.low && c.high <= high;
    forall x, y | low <= x < y <= high && !InSame(next, x, y) ensures b[x] <= b[y] {
      var xIn := c.low <= x <= c.high;
      var yIn := c.low <= y <= c.high;
      if !xIn && !yIn {
        NotInSameBefore(rest, c, p, x, y);
      } else if xIn && !yIn {
        forall z | c.low <= z <= c.high ensures a[z] <= a[y] {
          OnlyTopCovers(low, high, rest, c, z, y);
        }
        assert AllAtMost(inner, a[y]);
        BoundsOfPermutation(inner, b[c.low..c.high + 1], a[y]);
        assert b[x] == b[c.low..c.high + 1][x - c.low];
      } else if !xIn && yIn {
        forall z | c.low <= z <= c.high ensures a[x] <= a[z] {
          OnlyTopCovers(low, high, rest, c, x, z);
        }
        assert AllAtLeast(inner, a[x]);
        BoundsOfPermutation(inner, b[c.low..c.high + 1], a[x]);
        assert b[y] == b[c.low..c.high + 1][y - c.low];
      } else {
        if p - 1 > c.low { assert next[|rest|] == StackItem(c.low, p - 1); }
        if p + 1 < c.high { assert next[|next| - 1] == StackItem(p + 1, c.high); }
      }
    }
  }

  /** One pass of the loop that partitions the top range c at p keeps the
      invariant and shrinks what is pending. */
  lemma PartitionStep(a0: seq<int>, a: seq<int>, b: seq<int>, low: int, high: int,
                      rest: seq<StackItem>, c: StackItem, p: int)
    requires LoopInv(a0, a, low, high, rest + [c])
    requires Permuted(a, b, c.low, c.high + 1) && PartitionedAt(b, c.low, c.high, p)
    ensures LoopInv(a0, b, low, high, AfterPartition(rest, c, p))
    ensures Pending(AfterPartition(rest, c, p)) < Pending(rest + [c])
  {
    PendingShrinks(rest, c, p);
    ShapeAfterPartition(low, high, rest, c, p);
    OrderAfterPartition(a, b, low, high, rest, c, p);
    assert (rest + [c])[|rest|] == c;
    PermutedWiden(a, b, c.low, c.high + 1, low, high + 1);
    PermutedTrans(a0, a, b, low, high + 1);
  }

  /** The invariant of quick_sort_iterative's loop over the stack st: its
      shape, the order already reached outside it, and a rearrangement of the
      original range a0. */
  ghost predicate LoopInv(a0: seq<int>, a: seq<int>, low: int, high: int, st: seq<StackItem>)
  {
    StackShape(st, low, high) && SortedOutsidePending(a, low, high, st) && Permuted(a0, a, low, high + 1)
  }

  /** With the whole range pending, nothing is claimed yet. */
  lemma StartPending(a: seq<int>, low: int, high: int)
    requires 0 <= low <= high < |a|
    ensures LoopInv(a, a, low, high, [StackItem(low, high)])
  {
    var st := [StackItem(low, high)];
    forall x, y | low <= x < y <= high ensures InSame(st, x, y) {
      assert st[0].low <= x && y <= st[0].high;
    }
  }

  /** With nothing pending, the range is sorted. */
  lemma NothingPending(a0: seq<int>, a: seq<int>, low: int, high: int)
    requires LoopInv(a0, a, low, high, [])
    ensures SortedRange(a, low, high + 1) && Permuted(a0, a, low, high + 1)
  {
  }

  /** The loop body of quick_sort_iterative for a popped range of at least two
      elements: partition it, then push each side that holds at least two
      elements, the left side first. */
  method PartitionAndPush(arr: array<int>, stack: array<StackItem>, top: int, currentLow: int, currentHigh: int,
                          strategy: PivotStrategy, state: PivotSeed, ghost low: int, ghost high: int)
    returns (newTop: int, ghost p: int)
    requires 0 <= low && -1 <= top && low + 2 * (top + 1) <= currentLow < currentHigh <= high < arr.Length
    requires stack.Length == high - low + 1
    modifies arr, stack, state
    ensures state.seed == if strategy == Random then NextSeed(old(state.seed)) else old(state.seed)
    ensures -1 <= newTop < stack.Length
    ensures stack[..newTop + 1] == AfterPartition(old(stack[..top + 1]), StackItem(currentLow, currentHigh), p)
    ensures Permuted(old(arr[..]), arr[..], currentLow, currentHigh + 1)
    ensures PartitionedAt(arr[..], currentLow, currentHigh, p)
  {
    var pivotIndex := Partition(arr, currentLow, currentHigh, strategy, state);
    p := pivotIndex;
    ghost var next := stack[..top + 1];
    newTop := top;
    if pivotIndex - 1 > currentLow {
      newTop := newTop + 1;
      stack[newTop] := StackItem(currentLow, pivotIndex - 1);
      next := next + [StackItem(currentLow, pivotIndex - 1)];
      assert stack[..newTop + 1] == next;
    }
    if pivotIndex + 1 < currentHigh {
      newTop := newTop + 1;
      stack[newTop] := StackItem(pivotIndex + 1, currentHigh);
      next := next + [StackItem(pivotIndex + 1, currentHigh)];
      assert stack[..newTop + 1] == next;
    }
  }

  /** quick_sort_iterative: the recursion replaced by an explicit stack of
      ranges of high - low + 1 slots; a side of the pivot is pushed only when it
      holds at least two elements. */
  method QuickSortIterative(arr: array?<int>, low: int, high: int, strategy: PivotStrategy, state: PivotSeed)
    returns (result: SortError)
    requires arr != null && 0 <= low <= high ==> high < arr.Length
    modifies arr, state
    ensures arr == null ==> result == NullPointer
    ensures arr != null && (low < 0 || high < 0 || low > high) ==>
      result == InvalidSize && arr[..] == old(arr[..])
    ensures arr != null && 0 <= low <= high ==>
      result == Success
      && SortedRange(arr[..], low, high + 1)
      && Permuted(old(arr[..]), arr[..], low, high + 1)
  {
    if arr == null {
      return NullPointer;
    }
    if low < 0 || high < 0 || low > high {
      return InvalidSize;
    }
    ghost var a0 := arr[..];
    var stackSize := high - low + 1;
    var stack := new StackItem[stackSize];
    var top := -1;
    top := top + 1;
    stack[top] := StackItem(low, high);
    assert stack[..top + 1] == [StackItem(low, high)];
    StartPending(arr[..], low, high);
    while top >= 0
      invariant -1 <= top < stackSize
      invariant LoopInv(a0, arr[..], low, high, stack[..top + 1])
      decreases Pending(stack[..top + 1])
    {
      ghost var rest := stack[..top];
      ghost var c := stack[top];
      assert stack[..top + 1] == rest + [c];
      assert low + 2 * top <= c.low;
      var currentLow := stack[top].low;
      var currentHigh := stack[top].high;
      top := top - 1;
      if currentLow < currentHigh {
        ghost var a := arr[..];
        ghost var p;
        top, p := PartitionAndPush(arr, stack, top, currentLow, currentHigh, strategy, state, low, high);
        PartitionStep(a0, a, arr[..], low, high, rest, c, p);
      } else {
        PopSingleton(a0, arr[..], low, high, rest, c);
        assert stack[..top + 1] == rest;
      }
    }
    NothingPending(a0, arr[..], low, high);
    return Success;
  }
}
