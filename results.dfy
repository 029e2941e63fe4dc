/** Option, Result and Outcome: the values the model uses in place of
    Python's `None` and of the exceptions the source lets propagate. */
module Results {

  datatype Option<+T> = None | Some(value: T)

  /** A computation that either produced a value or raised `error`. */
  datatype Result<+T, +E> = Success(value: T) | Failure(error: E) {

    predicate IsFailure() {
      Failure?
    }

    function PropagateFailure<U>(): Result<U, E>
      requires Failure?
    {
      Failure(error)
    }

    function Extract(): T
      requires Success?
    {
      value
    }
  }

  /** A statement that either completed or raised `error`. */
  datatype Outcome<+E> = Pass | Fail(error: E)
}
