/** Option and result types shared by the widget model. */
module Wrappers {

  datatype Option<+T> = None | Some(value: T)

  /** A value, or the error the Python code would raise instead of returning one. */
  datatype Result<+R, +E> = Success(value: R) | Failure(error: E)
}
