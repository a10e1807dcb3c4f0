/** Failure-compatible result types shared by the other modules. */
module Wrappers {

  datatype Option<+T> = None | Some(value: T)

  /** The outcome of an operation that can throw: the value, or the error it raised. */
  datatype Result<+T, +E> = Ok(value: T) | Err(error: E)
}
