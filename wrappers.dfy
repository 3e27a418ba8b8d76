/** Option and Result, the two failure-carrying datatypes the model uses. */
module Wrappers {

  /** A value that may be absent (a `null` or a lookup that found nothing). */
  datatype Option<+T> = None | Some(value: T)

  /** Either the value an async operation resolves to, or the error it throws. */
  datatype Result<+T, +E> = Ok(value: T) | Err(error: E)
}
