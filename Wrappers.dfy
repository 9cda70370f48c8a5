/** The outcome of an operation that can fail with an error value instead of a result. */
module Wrappers {

  datatype Result<+R, +E> = Success(value: R) | Failure(error: E)
}
