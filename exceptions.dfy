/** The failures the library can produce, as values.

    Python raises exceptions; the model returns them. `Unsupported` stands for
    the `NotImplemented` value a binary operator returns for an operand type it
    does not handle (Python then raises TypeError at the operator). */
module Exceptions {

  datatype Error =
    | TypeError
    | ValueError
    | NotImplementedError
    | ZeroDivisionError
    | AssertionError
    | Unsupported

  /** The outcome of a call that may raise. */
  datatype Result<+T> = Ok(value: T) | Err(error: Error) {

    predicate IsFailure() {
      Err?
    }

    function PropagateFailure<U>(): Result<U>
      requires Err?
    {
      Err(error)
    }

    function Extract(): T
      requires Ok?
    {
      value
    }
  }

  /** Python's `Optional[...]`: a value or `None`. */
  datatype Option<+T> = None | Some(value: T)
}
