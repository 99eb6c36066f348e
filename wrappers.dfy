/** Optional values and success/failure results shared by the two components. */
module Wrappers {

  /** A value that may be missing (JavaScript `null`, a Python `None`). */
  datatype Option<+T> = None | Some(value: T)

  /** The outcome of a call that either returns a value or raises with a message. */
  datatype Result<+T, +E> = Success(value: T) | Failure(error: E)
}
