/** Small helpers shared by the scheduler and the logger models: the
    failure-carrying datatypes `Option`, which stands in for a Java reference that
    may be null, and `Result`, for a call that either returns a value or throws;
    and `Math.min` on integers. */
module Wrappers {

  /** A possibly-null reference: `None` is Java's `null`. */
  datatype Option<+T> = None | Some(value: T)

  /** The outcome of a call that may throw the exception `error`. */
  datatype Result<+T, +E> = Ok(value: T) | Err(error: E)

  /** `Math.min`: the smaller of two integers. */
  function Min(a: int, b: int): (m: int)
    ensures m <= a && m <= b
    ensures m == a || m == b
  {
    if a <= b then a else b
  }
}
