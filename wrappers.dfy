/** Optional values and results, standing in for C# null references and exceptions. */
module Wrappers {

  /** `None` is the model of a null reference. */
  datatype Option<+T> = None | Some(value: T)

  /** A value or the error the C# code would throw instead of returning it. */
  datatype Result<+T, +E> = Success(value: T) | Failure(error: E)

  /** The elements of an optional value: at most one, and exactly the value
      a `Some` holds. */
  function ToSeq<T>(o: Option<T>): (s: seq<T>)
    ensures |s| <= 1
    ensures forall i :: 0 <= i < |s| ==> o == Some(s[i])
    ensures o.Some? ==> o.value in s
  {
    if o.Some? then [o.value] else []
  }
}
