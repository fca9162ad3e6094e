/** Wrappers used throughout the model: `Option` for values that may be absent
    (Python's `None`), `Result` for operations that may raise. */
module Wrappers {

  datatype Option<+T> = None | Some(value: T)

  datatype Result<+R, +E> = Success(value: R) | Failure(error: E)
}
