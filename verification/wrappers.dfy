/** Failure-carrying wrappers shared by the whole model. */
module Wrappers {

  /** A value that may be absent: Python's `None` or a missing dictionary key. */
  datatype Option<+T> = None | Some(value: T) {

    /** The wrapped value, or `default` when absent (Python's `d.get(k, default)`). */
    function GetOr(default: T): T {
      match this
      case Some(v) => v
      case None => default
    }
  }

  /** The outcome of a collaborator call that either yields a value or raises. */
  datatype Result<+R> = Success(value: R) | Failure(message: string)
}
