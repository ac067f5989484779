/** The two shapes a lookup or a fallible call returns: an optional value (a
    nullable column, a row that may be missing) and a value or an error (a call
    that may throw). */
module Wrappers {

  datatype Option<+T> = None | Some(value: T) {
    /** The value, or `default` for None: the `??` operator. */
    function GetOr(default: T): T {
      if Some? then value else default
    }
  }

  datatype Result<+T, +E> = Success(value: T) | Failure(error: E) {
    predicate IsFailure() {
      Failure?
    }

    function PropagateFailure<U>(): Result<U, E>
      requires Failure?
    {
      Failure(error)
    }

    function Extract(): T
      requires Success?
    {
      value
    }
  }
}
