/** Failure-carrying datatypes. `Option` stands for a Ruby value that may be
    `nil`; `Result` stands for a computation that may raise. */
module Wrappers {

  datatype Option<+T> = None | Some(value: T)

  datatype Result<+R, +E> = Success(value: R) | Failure(error: E)
}
