// The two enumerations of sort_algorithms.h: the error codes every entry point
// returns and the pivot-selection strategies of quick sort.
module SortTypes {

  /** SortError: SORT_SUCCESS, SORT_ERROR_NULL_POINTER, SORT_ERROR_INVALID_SIZE,
      SORT_ERROR_MEMORY_ALLOC. */
  datatype SortError = Success | NullPointer | InvalidSize | MemoryAlloc

  /** The C value of each error code. */
  function ErrorCode(e: SortError): (code: int)
    ensures -3 <= code <= 0
    ensures code == 0 <==> e == Success
  {
    match e
    case Success => 0
    case NullPointer => -1
    case InvalidSize => -2
    case MemoryAlloc => -3
  }

  /** Reads a C error value back; values outside the enumeration have no meaning. */
  function ErrorOfCode(code: int): (e: Option<SortError>)
    ensures e.Some? <==> -3 <= code <= 0
  {
    if code == 0 then Some(Success)
    else if code == -1 then Some(NullPointer)
    else if code == -2 then Some(InvalidSize)
    else if code == -3 then Some(MemoryAlloc)
    else None
  }

  lemma ErrorCodeRoundTrip(e: SortError)
    ensures ErrorOfCode(ErrorCode(e)) == Some(e)
  {
  }

  datatype Option<T> = None | Some(value: T)

  /** PivotStrategy: PIVOT_FIRST .. PIVOT_MEDIAN_OF_THREE. A C enum parameter can
      carry any int; OutOfRange stands for every value outside the five, the case
      the `default:` branches of select_pivot and pivot_strategy_name handle. */
  datatype PivotStrategy = First | Last | Middle | Random | MedianOfThree | OutOfRange

  /** The enumerator value of each strategy (0 .. 4). */
  function StrategyCode(s: PivotStrategy): (code: int)
    requires !s.OutOfRange?
    ensures 0 <= code <= 4
  {
    match s
    case First => 0
    case Last => 1
    case Middle => 2
    case Random => 3
    case MedianOfThree => 4
  }

  function StrategyOfCode(code: int): (s: PivotStrategy)
    ensures s.OutOfRange? <==> !(0 <= code <= 4)
  {
    if code == 0 then First
    else if code == 1 then Last
    else if code == 2 then Middle
    else if code == 3 then Random
    else if code == 4 then MedianOfThree
    else OutOfRange
  }

  lemma StrategyCodeRoundTrip(s: PivotStrategy)
    requires !s.OutOfRange?
    ensures StrategyOfCode(StrategyCode(s)) == s
  {
  }

  /** pivot_strategy_name: the label written to the benchmark log. */
  function StrategyName(s: PivotStrategy): (name: string)
    ensures name == "Unknown" <==> s.OutOfRange?
    ensures |name| >= 4
  {
    match s
    case First => "First"
    case Last => "Last"
    case Middle => "Middle"
    case Random => "Random"
    case MedianOfThree => "Median3"
    case OutOfRange => "Unknown"
  }

  /** Reads a log label back into a strategy. */
  function StrategyOfName(name: string): (s: Option<PivotStrategy>)
    ensures s.Some? ==> !s.value.OutOfRange?
  {
    if name == "First" then Some(First)
    else if name == "Last" then Some(Last)
    else if name == "Middle" then Some(Middle)
    else if name == "Random" then Some(Random)
    else if name == "Median3" then Some(MedianOfThree)
    else None
  }

  /** The labels identify the strategies: reading a label back gives the strategy,
      and the "Unknown" label of an out-of-range value names no strategy. */
  lemma StrategyNameRoundTrip(s: PivotStrategy)
    ensures StrategyOfName(StrategyName(s)) == if s.OutOfRange? then None else Some(s)
  {
  }
}
