/** Python's `None`-or-value, as the monitor's failure records use it. */
module Wrappers {

  datatype Option<+T> = None | Some(value: T)

  /** The list `[x]` for `Some(x)` and `[]` for `None`. */
  function OptionToSeq<T>(o: Option<T>): (s: seq<T>)
    ensures |s| <= 1
    ensures o.Some? <==> |s| == 1
    ensures o.Some? ==> s == [o.value]
  {
    match o
    case None => []
    case Some(v) => [v]
  }
}
