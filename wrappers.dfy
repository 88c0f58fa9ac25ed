/** Failure-carrying results shared by the value objects: Go's `(T, error)` pairs. */
module Wrappers {

  datatype Option<+T> = None | Some(value: T)

  /** `Success(v)` is Go's `(v, nil)`; `Failure(e)` is `(zero value, e)`, whose value callers must not use. */
  datatype Result<+T, +E> = Success(value: T) | Failure(error: E)
}
