/** Optional values and error-or-value results, used wherever the Go code
    returns a `(value, ok)` pair or a `(value, error)` pair. */
module Outcomes {

  datatype Option<+T> = None | Some(value: T)

  datatype Result<+T, +E> = Success(value: T) | Failure(error: E)
}
