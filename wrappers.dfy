/** Optional values and error results shared by the modules of this model. */
module Wrappers {

  datatype Option<+T> = None | Some(value: T)

  /** The outcome of an operation the source can abort with an exception or an assertion. */
  datatype Result<+R, +E> = Success(value: R) | Failure(error: E)
}
