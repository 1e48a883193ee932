/** Failure-carrying wrappers used across the model: an optional value and a
    value-or-error result, both usable with `:-`. */
module Wrappers {

  datatype Option<+T> = None | Some(value: T) {
    predicate IsFailure() {
      None?
    }

    function PropagateFailure<U>(): Option<U>
      requires None?
    {
      None
    }

    function Extract(): T
      requires Some?
    {
      value
    }

    /** The value, or the given error when there is none. */
    function ToResult<E>(error: E): (r: Result<T, E>)
      ensures Some? <==> r.Success?
      ensures Some? ==> r.value == value
      ensures None? ==> r.error == error
    {
      match this
      case Some(v) => Success(v)
      case None => Failure(error)
    }
  }

  datatype Result<+R, +E> = Success(value: R) | Failure(error: E) {
    predicate IsFailure() {
      Failure?
    }

    function PropagateFailure<U>(): Result<U, E>
      requires Failure?
    {
      Failure(error)
    }

    function Extract(): R
      requires Success?
    {
      value
    }
  }

  /** A success that carries no value (a middleware calling `next()`). */
  datatype Unit = Unit
}
