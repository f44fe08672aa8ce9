/** Option and Result: the model's stand-ins for Java's null and for thrown exceptions. */
module Wrappers {

  datatype Option<+T> = None | Some(value: T)

  /** A call that either returns a value or fails with an error (a thrown exception). */
  datatype Result<+R, +E> = Success(value: R) | Failure(error: E)
}
