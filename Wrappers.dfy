/** Option and Result, the two failure-carrying wrappers the rest of the model uses
    for Java's `null` returns and thrown exceptions. */
module Wrappers {

  datatype Option<+T> = None | Some(value: T)

  datatype Result<+T, +E> = Success(value: T) | Failure(error: E)
}
