/** Failure-compatible wrappers shared by the pipeline stages. */
module Wrappers {

  /** A value that may be missing (a null cell, a failed lookup). */
  datatype Option<+T> = None | Some(value: T)

  /** The outcome of a stage that can raise: a value, or the error it raised. */
  datatype Result<+T, +E> = Ok(value: T) | Err(error: E) {
    predicate IsFailure() {
      Err?
    }

    function PropagateFailure<U>(): Result<U, E>
      requires Err?
    {
      Err(error)
    }

    function Extract(): T
      requires Ok?
    {
      value
    }
  }
}
