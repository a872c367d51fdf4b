/** The optional-value and handler-outcome wrappers shared by every module of the model. */
module Wrappers {

  /** A value that may be absent: a JSON field or collection entry that is not there. */
  datatype Option<+T> = None | Some(value: T) {

    /** The wrapped value, or `default` when absent (the `x || default` idiom). */
    function GetOr(default: T): T {
      match this
      case Some(v) => v
      case None => default
    }
  }

  /** The outcome of a page handler: the new value, or the error it reports. */
  datatype Result<+R, +E> = Success(value: R) | Failure(error: E)
}
