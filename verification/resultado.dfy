/** Failure-compatible wrappers used in place of the source's NULL returns
    and of its `exit(1)` on fatal errors. */
module Resultado {

  /** A value that may be absent; `None` stands for a null pointer. */
  datatype Option<+T> = None | Some(value: T)

  /** The outcome of a phase that can stop the compilation. */
  datatype Result<+T, +E> = Success(value: T) | Failure(error: E) {

    predicate IsFailure() {
      Failure?
    }

    function PropagateFailure<U>(): Result<U, E>
      requires Failure?
    {
      Failure(error)
    }

    function Extract(): T
      requires Success?
    {
      value
    }
  }
}
