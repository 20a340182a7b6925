/** Failure-carrying datatypes shared by every module of the model. */
module Wrappers {

  /** Python's `Optional[T]`: `None` or a present value. */
  datatype Option<+T> = None | Some(value: T)

  /** A computation that either returns a value or fails with an error. */
  datatype Result<+T, +E> = Ok(value: T) | Err(error: E)

  /** A raised Python exception: `type(e).__name__` and `str(e)`. */
  datatype Raised = Raised(typeName: string, message: string)

  /** The outcome of a call that may raise. */
  type Outcome<+T> = Result<T, Raised>

  /** `x or default` for an optional value whose absence is falsy. */
  function OrElse<T>(o: Option<T>, default: T): T {
    match o
    case Some(v) => v
    case None => default
  }
}
