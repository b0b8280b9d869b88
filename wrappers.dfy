/** Option and Result, the two failure-carrying datatypes used by the model. */
module Wrappers {

  /** A value that may be absent: stands in for a C# reference that may be null. */
  datatype Option<+T> = None | Some(value: T)

  /** The outcome of a step that either yields a value or raises a fault. */
  datatype Result<+R, +E> = Success(value: R) | Failure(error: E)
}
