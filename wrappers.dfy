/** Null-able values and operations that either succeed or throw. */
module Wrappers {

  /** A Java reference that may be null. */
  datatype Option<+T> = None | Some(value: T) {
    function GetOr(default: T): T {
      match this
      case Some(v) => v
      case None => default
    }
  }

  /** The outcome of a call that either returns a value or throws. */
  datatype Attempt<+T> = Success(value: T) | Failure
}
