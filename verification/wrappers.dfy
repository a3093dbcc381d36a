/** Python's `None` becomes `Option.None`, and an exception raised while
    computing a value becomes `Result.Failure`. */
module Wrappers {

  datatype Option<+T> = None | Some(value: T)

  datatype Result<+R, +E> = Success(value: R) | Failure(error: E)
}
