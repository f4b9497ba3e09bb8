/** Optional values and value-or-error results, shared by every endpoint of the model. */
module Wrappers {

  /** A value that may be absent (a Python `None`). */
  datatype Option<+T> = None | Some(value: T)

  /** Either a value or an error. */
  datatype Result<+T, +E> = Ok(value: T) | Err(error: E)
}
