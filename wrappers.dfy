/** Optional values, and the outcome of a call that may raise. */
module Wrappers {

  datatype Option<+T> = None | Some(value: T) {
    function GetOr(default: T): T {
      match this
      case Some(v) => v
      case None => default
    }
  }

  /** A call that either returns a value or raises an exception, described by its message. */
  datatype Outcome<+T> = Returned(value: T) | Raised(error: string)
}
