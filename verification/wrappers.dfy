/** Failure-compatible datatypes used throughout the model, and the two
    Python exceptions the modelled core can raise. */
module Wrappers {

  datatype Option<+T> = None | Some(value: T)

  /** The exceptions the core raises: a missing dictionary key (`KeyError`,
      carrying the key) and subscripting or iterating a value of the wrong
      kind (`TypeError`). */
  datatype Error = KeyError(key: string) | TypeError

  datatype Result<+R> = Success(value: R) | Failure(error: Error) {

    predicate IsFailure() {
      Failure?
    }

    function PropagateFailure<U>(): Result<U>
      requires Failure?
    {
      Failure(error)
    }

    function Extract(): R
      requires Success?
    {
      value
    }
  }
}
