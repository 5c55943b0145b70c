/** Failure-carrying datatypes shared by the rest of the model. */
module Wrappers {

  /** A value that may be absent: a regular-expression search that found
      nothing, an index outside a list. */
  datatype Option<+T> = None | Some(value: T)

  /** A computation that either yields a value or raises an exception of
      kind E. */
  datatype Result<+R, +E> = Success(value: R) | Failure(error: E)
}
