/** Failure-carrying values shared by the other modules. */
module Wrappers {

  /** A value that may be absent: Python's `None` versus a present value. */
  datatype Option<+T> = None | Some(value: T)

  /** The outcome of an operation that raises on failure: the value, or the exception's message. */
  datatype Result<+R> = Success(value: R) | Failure(error: string)
}
