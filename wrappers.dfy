/**
 * Java's nullable references, modelled as an explicit optional value, and
 * the outcome of an operation that may throw.
 */
module Wrappers {

  datatype Option<+T> = None | Some(value: T)

  datatype Result<+T, +E> = Success(value: T) | Failure(error: E)
}
