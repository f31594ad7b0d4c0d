/** Option and Result, the two shapes the reconciler's partial steps return. */
module Wrappers {

  /** Python's `None` or a value. */
  datatype Option<+T> = None | Some(value: T)

  /** A computed value, or the message of the exception that aborts the run. */
  datatype Result<+T, +E> = Ok(value: T) | Err(error: E)
}
