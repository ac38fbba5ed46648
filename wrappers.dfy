/** Option and Result values used for the controllers' "not found" and error replies. */
module Wrappers {

  datatype Option<+T> = None | Some(value: T)

  /** `Failure` stands for an early error response of a controller; `Success` for the normal one. */
  datatype Result<+R, +E> = Success(value: R) | Failure(error: E)
}
