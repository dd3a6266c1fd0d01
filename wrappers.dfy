/** Optional values and results shared by every module of the model. */
module Wrappers {

  /** `None` stands for a JSON field that is absent or null. */
  datatype Option<+T> = None | Some(value: T) {
    function GetOr(default: T): T {
      match this
      case Some(v) => v
      case None => default
    }
  }

  /** The outcome of an operation that can raise. */
  datatype Result<+R, +E> = Success(value: R) | Failure(error: E)
}
