/** Absence and failure, shared by every component. */
module Wrappers {

  datatype Option<+T> = None | Some(value: T)

  /** A failure-compatible result, for use with `:-`. */
  datatype Result<+T, +E> = Ok(value: T) | Err(error: E) {

    predicate IsFailure() { Err? }

    function PropagateFailure<U>(): Result<U, E>
      requires Err?
    {
      Err(error)
    }

    function Extract(): T
      requires Ok?
    {
      value
    }
  }
}
