/** The failure-carrying result type used where the handler can raise. */
module Wrappers {

  datatype Result<+T, +E> = Success(value: T) | Failure(error: E)
}
