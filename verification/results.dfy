/** Failure-compatible wrappers shared by every stage of the save codec. */
module Results {

  /** A value that may be absent (a parse that can fail, a missing write). */
  datatype Option<+T> = None | Some(value: T)

  /** The outcome of a stage that raises on bad input: the value, or which error was raised. */
  datatype Result<+T, +E> = Success(value: T) | Failure(error: E) {

    predicate IsFailure() {
      Failure?
    }

    function PropagateFailure<U>(): Result<U, E>
      requires Failure?
    {
      Failure(error)
    }

    function Extract(): T
      requires Success?
    {
      value
    }

    /** The same outcome with the error translated by `f`. */
    function MapFailure<E2>(f: E -> E2): Result<T, E2> {
      match this
      case Success(v) => Success(v)
      case Failure(e) => Failure(f(e))
    }
  }
}
