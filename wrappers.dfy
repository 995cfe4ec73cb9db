/** Option and Result, the two failure-carrying shapes the model uses. */
module Wrappers {

  /** An optional value: Python's `Optional[T]`, where `None` is absence. */
  datatype Option<+T> = None | Some(value: T)

  /** The outcome of a constructor that may raise: the built value, or the error message. */
  datatype Result<+T, +E> = Ok(value: T) | Err(error: E)
}
