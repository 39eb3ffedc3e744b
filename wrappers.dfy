/** Option and Result values standing for JavaScript's `null`/`undefined`/`false`
    results and for thrown errors. */
module Wrappers {

  datatype Option<+T> = None | Some(value: T)

  /** `Failure` carries the message of the error the source throws. */
  datatype Result<+T, +E> = Success(value: T) | Failure(error: E)
}
