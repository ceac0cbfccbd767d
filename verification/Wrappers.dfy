/** The two sum types the model uses for Go's `(value, error)` returns and for absent rows. */
module Wrappers {
  datatype Option<+T> = None | Some(value: T)

  datatype Result<+T, +E> = Ok(value: T) | Err(error: E)
}
