/** Option and Result, the two failure-carrying datatypes the model uses. */
module Wrappers {

  /** An optional value; `None` also stands for a Python local that was never bound. */
  datatype Option<T> = None | Some(value: T)

  /** The value of a computation, or the exception that stopped it; usable with `:-`. */
  datatype Result<T, E> = Ok(value: T) | Err(error: E) {

    predicate IsFailure() {
      Err?
    }

    function PropagateFailure<U>(): Result<U, E>
      requires Err?
    {
      Err(error)
    }

    function Extract(): T
      requires Ok?
    {
      value
    }
  }
}
