/** Optional values and results shared by the other modules.
    An empty spreadsheet cell is `None`; a failed call is `Failure`. */
module Optional {

  datatype Option<+T> = None | Some(value: T)

  datatype Result<+R, +E> = Success(value: R) | Failure(error: E)

  /** Every entry of `xs` holds a value. */
  predicate AllPresent<T>(xs: seq<Option<T>>) {
    forall i :: 0 <= i < |xs| ==> xs[i].Some?
  }

  /** The values of a sequence whose entries are all present. */
  function Present<T>(xs: seq<Option<T>>): (vs: seq<T>)
    requires AllPresent(xs)
    ensures |vs| == |xs|
    ensures forall i :: 0 <= i < |xs| ==> xs[i] == Some(vs[i])
  {
    seq(|xs|, i requires 0 <= i < |xs| => xs[i].value)
  }
}
