/** Option and Result wrappers shared by the codec and the book service. */
module Wrappers {

  /** A value that may be absent: a Go pointer that may be nil, or a lookup that may miss. */
  datatype Option<+T> = None | Some(value: T)

  /** A value or an error: the `(value, error)` pair of a Go function where exactly one is meaningful. */
  datatype Result<+T, +E> = Success(value: T) | Failure(error: E)
}
