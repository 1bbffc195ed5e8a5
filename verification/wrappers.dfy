/** Failure-compatible wrappers shared by the crawl model. */
module Wrappers {

  /** A value that may be absent: Python's `None` for optional
      arguments, and the outcome of a step that raises. */
  datatype Option<+T> = None | Some(value: T)

  /** The outcome of a step that either produces a value or fails with
      an error message (a raised Python exception). */
  datatype Result<+R, +E> = Success(value: R) | Failure(error: E)
}
