/** Optional values and fallible results, used for NaN/None values and for the
    errors that end a run. */
module Wrappers {

  /** A value that may be absent; NumPy's NaN and Python's None both become None. */
  datatype Option<+T> = None | Some(value: T)

  /** The outcome of a step that either produces a value or stops the run. */
  datatype Result<+T, +E> = Success(value: T) | Failure(error: E)
}
