/** Failure-carrying datatypes shared by the model: an optional value (a JSON
    field that may be missing) and a result (a call that may throw). */
module Wrappers {

  datatype Option<+T> = None | Some(value: T) {

    /** The value, or `default` when absent. */
    function GetOr(default: T): T {
      match this
      case Some(v) => v
      case None => default
    }
  }

  /** `Failure` stands for a thrown JavaScript error; `error` is what was thrown. */
  datatype Result<+R, +E> = Success(value: R) | Failure(error: E)
}
