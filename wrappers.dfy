/** Failure-carrying values used in place of Java's null and exceptions. */
module Wrappers {

  /** A value that may be absent (a nullable reference in the source). */
  datatype Option<+T> = None | Some(value: T)

  /** A value or the reason it could not be produced (a thrown exception in the source). */
  datatype Result<+T, +E> = Success(value: T) | Failure(error: E)
}
