/** Failure-carrying values shared by the token store and the space controller. */
module Wrappers {

  /** A value that may be absent, as `java.util.Optional`. */
  datatype Option<+T> = None | Some(value: T)

  /** Either a result or the error that a Java method would have thrown. */
  datatype Result<+R, +E> = Success(value: R) | Failure(error: E)
}
