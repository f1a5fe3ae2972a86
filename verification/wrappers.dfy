/** Failure-compatible wrappers shared by the whole model. */
module Wrappers {

  /** A value that may be absent: the model of Python's `None`. */
  datatype Option<+T> = None | Some(value: T) {
    function GetOr(default: T): T {
      match this
      case Some(v) => v
      case None => default
    }
  }

  /** The outcome of an operation that may raise: `Failure` carries the exception. */
  datatype Result<+T, +E> = Success(value: T) | Failure(error: E) {
    predicate IsFailure() {
      Failure?
    }

    function PropagateFailure<U>(): Result<U, E>
      requires Failure?
    {
      Failure(error)
    }

    function Extract(): T
      requires Success?
    {
      value
    }
  }

  /** The state left behind by a run of per-record commits, and the exception
      that stopped it, if any: records committed before a failure stay committed. */
  datatype Run<+S, +E> = Run(state: S, failure: Option<E>)
}
