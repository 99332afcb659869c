/** Option and Result, for Python's `None` and for operations that raise. */
module Wrappers {

  datatype Option<+T> = None | Some(value: T) {
    /** The value, or `default` when there is none (Python's `x if x is not None else default`). */
    function GetOr(default: T): T {
      match this
      case Some(v) => v
      case None => default
    }
  }

  /** `Err` stands for an exception the Python code raises (or swallows). */
  datatype Result<+T, +E> = Ok(value: T) | Err(error: E)
}
