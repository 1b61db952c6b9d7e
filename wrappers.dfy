/** Failure-compatible wrappers used across the model. */
module Wrappers {

  datatype Option<T> = None | Some(value: T)

  /** A computation that either yields a value or raises (the Python exception is
      modelled by its message). */
  datatype Result<T> = Success(value: T) | Failure(error: string) {
    predicate IsFailure() { Failure? }
    function PropagateFailure<U>(): Result<U>
      requires Failure?
    {
      Failure(error)
    }
    function Extract(): T
      requires Success?
    {
      value
    }
  }
}
