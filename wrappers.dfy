/** Option and Result, the two wrappers the model uses for Java's null and for
    an exception that ends a run. */
module Wrappers {

  /** A Java reference that may be null: `None` stands for null. */
  datatype Option<+T> = None | Some(value: T)

  /** The outcome of a computation that either finishes or throws. */
  datatype Result<+R, +E> = Success(value: R) | Failure(error: E)
}
