/** Option and Result, the two ways the application represents "may be absent"
    (a nullable state field) and "may fail" (a thrown error). */
module Wrappers {

  /** A value that may be missing; stands for the source's `T | null`. */
  datatype Option<+T> = None | Some(value: T)

  /** The outcome of an operation that may throw. */
  datatype Result<+T, +E> = Success(value: T) | Failure(error: E)
}
