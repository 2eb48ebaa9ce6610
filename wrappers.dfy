/** Option and Result: how the model represents values that may be absent
    and operations that may raise instead of returning. */
module Wrappers {

  datatype Option<+T> = None | Some(value: T) {
    /** The value, or `default` when there is none. */
    function GetOr(default: T): T {
      match this
      case Some(v) => v
      case None => default
    }
  }

  /** `Failure` stands for a raised exception carrying `error`. */
  datatype Result<+R, +E> = Success(value: R) | Failure(error: E)
}
