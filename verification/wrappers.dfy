/** Failure-compatible result types shared by the model: `Option` stands for a
    value that may be `null`, `Result` for an operation that may fail. */
module Wrappers {

  datatype Option<+T> = None | Some(value: T)

  datatype Result<+T, +E> = Success(value: T) | Failure(error: E)
}
