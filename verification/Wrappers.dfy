/** The outcome types shared by the other modules. */
module Wrappers {

  datatype Option<+T> = None | Some(value: T)

  /** Go's `(value, error)` and C's return codes. */
  datatype Result<+T, +E> = Ok(value: T) | Err(error: E)
}
