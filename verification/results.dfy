/** Failure-compatible wrappers: a missing cell, a value or an error, a pass or a failure. */
module Results {

  /** A table cell that may be missing (pandas' NaN). */
  datatype Option<+T> = None | Some(value: T)

  /** The value of an operation, or the error it raised. */
  datatype Result<+T, +E> = Success(value: T) | Failure(error: E)

  /** The outcome of an operation that returns nothing but may raise. */
  datatype Outcome<+E> = Pass | Fail(error: E)
}
