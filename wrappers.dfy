/** Failure-carrying result types shared by the modules of this model. */
module Wrappers {

  /** A value that may be absent: Rust's `Option`, or a JavaScript `undefined`. */
  datatype Option<+T> = None | Some(value: T)

  /** The outcome of an operation that can throw (JavaScript) or fail. */
  datatype Result<+T, +E> = Success(value: T) | Failure(error: E)
}
