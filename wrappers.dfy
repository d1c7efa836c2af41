/** Option and Result, the two failure-carrying types the model uses for Java's
    null and for Java's exceptions. */
module Wrappers {

  datatype Option<+T> = None | Some(value: T)

  datatype Result<+R, +E> = Success(value: R) | Failure(error: E)
}
