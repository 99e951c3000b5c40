/** Optional values and fallible results, used for Go's nil pointers and error returns. */
module Wrappers {

  /** A value that may be absent: a nil pointer or a nil slice in the modelled program. */
  datatype Option<+T> = None | Some(value: T)

  /** The outcome of a call that returns either a value or an error. */
  datatype Result<+T, +E> = Success(value: T) | Failure(error: E)
}
