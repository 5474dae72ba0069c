/** Option and Result, the two wrappers the catalog model needs. */
module Wrappers {

  /** A value that may be absent (JavaScript `undefined`). */
  datatype Option<+T> = None | Some(value: T)

  /** The outcome of a storage call: a value, or the error the driver rejects with. */
  datatype Result<+R, +E> = Success(value: R) | Failure(error: E)
}
