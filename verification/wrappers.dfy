/** Failure-carrying return values: Go's `(T, error)` pairs and nil pointers. */
module Wrappers {

  /** A value that may be absent; stands for a Go pointer that may be nil. */
  datatype Option<T> = None | Some(value: T)

  /** A value or an error message; stands for a Go `(T, error)` return. */
  datatype Result<T> = Success(value: T) | Failure(error: string)
}
