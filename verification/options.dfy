/** The two result shapes the models share. */
module Options {

  datatype Option<+T> = None | Some(value: T)

  /** Go's `(value, error)` returns. */
  datatype Result<+T, +E> = Ok(value: T) | Err(error: E)
}
