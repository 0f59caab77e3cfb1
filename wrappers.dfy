/** Failure-carrying results shared by the board, tracer and cache models. */
module Wrappers {

  datatype Option<+T> = None | Some(value: T)

  /** The value an operation returns, or the exception it raises. */
  datatype Result<+R, +E> = Success(value: R) | Failure(error: E)

  /** A void operation that either completes or raises an exception. */
  datatype Outcome<+E> = Pass | Fail(error: E)
}
