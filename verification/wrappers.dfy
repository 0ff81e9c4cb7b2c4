/** Failure-carrying shapes used throughout the model. */
module Wrappers {

  /** A value that may be absent: a JSON `null`, an unset column. */
  datatype Option<+T> = None | Some(value: T)

  /** Either a computed value or the reason the request failed. */
  datatype Result<+T, +E> = Ok(value: T) | Err(error: E)
}
