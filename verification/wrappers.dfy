/** Failure-carrying result types shared by the editor and the exporter. */
module Wrappers {

  /** A value that may be absent (Python's `None`). */
  datatype Option<+T> = None | Some(value: T)

  /** Either a successful value or an error the user is told about. */
  datatype Result<+T, +E> = Success(value: T) | Failure(error: E)
}
