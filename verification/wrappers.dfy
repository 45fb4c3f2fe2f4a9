/** Failure-carrying datatypes shared by the whole model. */
module Wrappers {

  /** A value that may be absent: Python's `None`, a missing workbook, no match. */
  datatype Option<+T> = None | Some(value: T)

  /** The outcome of a step that can fail: the scripts' `sys.exit(1)` paths. */
  datatype Result<+R, +E> = Success(value: R) | Failure(error: E)
}
