/** The Option and Result datatypes shared by the other modules. */
module Wrappers {

  /** A value that may be absent: a lookup that found nothing, a parse that failed. */
  datatype Option<+T> = None | Some(value: T)

  /** The outcome of an operation that the source lets throw. */
  datatype Result<+T, +E> = Ok(value: T) | Err(error: E)
}
