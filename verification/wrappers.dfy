/** Failure-compatible result types used throughout the model.
    `Option` stands for a .NET reference that may be null; `Result` stands for
    a computation that may end in an exception. */
module Wrappers {

  datatype Option<+T> = None | Some(value: T) {
    predicate IsFailure() { None? }

    function PropagateFailure<U>(): Option<U>
      requires None?
    {
      None
    }

    function Extract(): T
      requires Some?
    {
      value
    }

    /** The `??` operator of C#: this value if present, otherwise `other`. */
    function OrElse(other: Option<T>): Option<T>
    {
      match this
      case Some(_) => this
      case None => other
    }
  }

  datatype Result<+R, +E> = Ok(value: R) | Err(error: E) {
    predicate IsFailure() { Err? }

    function PropagateFailure<U>(): Result<U, E>
      requires Err?
    {
      Err(error)
    }

    function Extract(): R
      requires Ok?
    {
      value
    }
  }
}
