/** Option and Result: Python's `None` and raised exceptions, written as values. */
module Wrappers {

  /** `None` stands for Python's `None`; `Some(v)` for any other object. */
  datatype Option<+T> = None | Some(value: T)

  /** A computation that either produced a value or raised an error. */
  datatype Result<+T, +X> = Ok(value: T) | Err(error: X)
}
