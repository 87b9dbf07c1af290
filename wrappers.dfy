/** Failure-carrying values shared by every module of the model. */
module Wrappers {

  /** A value that may be absent (`undefined`/`None` in the source). */
  datatype Option<+T> = None | Some(value: T) {
    function GetOr(default: T): T {
      match this
      case Some(v) => v
      case None => default
    }
  }

  /**
   * The result of a call that may raise: either its value, or the fact that an
   * exception escaped it. The exception's payload plays no role in the model.
   */
  datatype Outcome<+T> = Ok(value: T) | Thrown
}
