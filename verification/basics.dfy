/** Failure-compatible wrappers shared by every module of the model: Python's `None`
    becomes `Option.None`, and a raised exception becomes `Result.Err`. */
module Basics {

  datatype Option<+T> = None | Some(value: T)

  /** The outcome of an operation that may raise: `Ok(value)` or `Err(error)`.
      It is failure-compatible, so `var x :- F();` propagates the first error. */
  datatype Result<+T, +E> = Ok(value: T) | Err(error: E) {

    predicate IsFailure() {
      Err?
    }

    function PropagateFailure<U>(): Result<U, E>
      requires Err?
    {
      Err(error)
    }

    function Extract(): T
      requires Ok?
    {
      value
    }
  }
}
