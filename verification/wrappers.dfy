/** Failure-carrying values used in place of Python's `None` returns and raised exceptions. */
module Wrappers {

  /** A value that may be absent (Python `None`). */
  datatype Option<+T> = None | Some(value: T)

  /** Either a computed value or the error the script would raise or report. */
  datatype Result<+T, +E> = Ok(value: T) | Err(error: E)
}
