/** Option and Result values for lookups that can fail. */
module Wrappers {

  datatype Option<+T> = None | Some(value: T)

  /** The outcome of an operation that raises instead of returning. */
  datatype Result<+T, +E> = Ok(value: T) | Err(error: E)
}
