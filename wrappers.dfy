/** Failure-carrying values shared by every module of the model. */
module Wrappers {

  /** An optional value: `None` stands for JavaScript's `undefined` / Python's `None`. */
  datatype Option<+T> = None | Some(value: T)

  /** The value of a computation that may raise: `Err` carries the exception raised. */
  datatype Result<+T, +E> = Ok(value: T) | Err(error: E) {
    /** The members the `:-` operator uses to pass an exception on. */
    predicate IsFailure() {
      Err?
    }

    function PropagateFailure<U>(): Result<U, E>
      requires Err?
    {
      Err(error)
    }

    function Extract(): T
      requires Ok?
    {
      value
    }
  }
}
