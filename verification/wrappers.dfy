/** Result shapes shared by every module: Go's `(T, error)` pairs and bare `error` returns. */
module Wrappers {

  datatype Option<+T> = None | Some(value: T)

  /** A Go `(T, error)` pair in which exactly one side is meaningful. */
  datatype Result<+T, +E> = Success(value: T) | Failure(error: E) {
    predicate IsFailure() { Failure? }
  }

  /** A Go `error` return: `Pass` is `nil`. */
  datatype Outcome<+E> = Pass | Fail(error: E) {
    predicate IsFailure() { Fail? }
  }

  /** How a Go call ends: it returns its value, or it panics (a nil dereference, an index out of range). */
  datatype Completion<+T> = Returned(value: T) | Panicked
}
