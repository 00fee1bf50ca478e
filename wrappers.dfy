/** Option and Result values, used for JavaScript's `null`/`NaN` results and thrown errors. */
module Wrappers {

  /** A value that may be absent (`null` or `NaN` on the JavaScript side). */
  datatype Option<+T> = None | Some(value: T)

  /** The outcome of an operation that may throw instead of returning. */
  datatype Result<+T, +E> = Ok(value: T) | Err(error: E)
}
