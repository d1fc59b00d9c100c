/** A possibly absent value: the model's stand-in for a null pointer. */
module Wrappers {

  datatype Option<+T> = None | Some(value: T)

  /** The empty or one-element sequence holding the value of `o`. */
  function OptionToSeq<T>(o: Option<T>): (s: seq<T>)
    ensures |s| <= 1
    ensures o.None? ==> s == []
    ensures o.Some? ==> s == [o.value]
  {
    match o
    case None => []
    case Some(v) => [v]
  }
}
