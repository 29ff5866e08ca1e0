/** Failure-compatible result types shared by the other modules. */
module Wrappers {

  /** A value that may be absent: JavaScript's `undefined` versus a present value. */
  datatype Option<+T> = None | Some(value: T)

  /** Either a computed value or the error that the original code throws instead. */
  datatype Result<+T, +E> = Success(value: T) | Failure(error: E)
}
