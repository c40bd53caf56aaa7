/** The Option and Result datatypes shared by the whole model. */
module Wrappers {

  /** An optional value: Python's `None` or a present value. */
  datatype Option<+T> = None | Some(value: T)

  /** The outcome of an operation that can fail with a reported error. */
  datatype Result<+R, +E> = Success(value: R) | Failure(error: E)
}
