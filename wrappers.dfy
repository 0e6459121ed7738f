/** Failure-carrying results: `Option` for the source's `null` returns and
    `Result` for the operations that report an error to the user. */
module Wrappers {

  datatype Option<+T> = None | Some(value: T)

  datatype Result<+T, +E> = Success(value: T) | Failure(error: E)
}
