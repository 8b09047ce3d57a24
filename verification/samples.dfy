/** Samples of a stream and the two notions of "same value" the engine uses. */
module Samples {

  /** One sample of a dense stream: a value, or the floating-point NaN. */
  datatype Sample<T> = Known(v: T) | NaN

  /** numpy's elementwise `==`: NaN equals nothing, not even NaN. */
  predicate NumpyEqual<T(==)>(a: Sample<T>, b: Sample<T>)
    ensures NumpyEqual(a, b) <==> a == b && a.Known?
  {
    a.Known? && b.Known? && a.v == b.v
  }

  /** The synchroniser's change test: numpy's `==`, or both samples NaN.
      Unlike numpy, it treats a NaN followed by a NaN as "no change". */
  predicate SameValue<T(==)>(a: Sample<T>, b: Sample<T>)
    ensures SameValue(a, b) <==> a == b
  {
    NumpyEqual(a, b) || (a.NaN? && b.NaN?)
  }
}
