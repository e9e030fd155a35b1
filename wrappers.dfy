/** The optional and failing values the other modules share. */
module Wrappers {

  /** A JavaScript value that may be `undefined` (or `null`). */
  datatype Option<T> = None | Some(value: T)

  /** A call that either returns a value or throws. */
  datatype Result<T, E> = Success(value: T) | Failure(error: E)
}
