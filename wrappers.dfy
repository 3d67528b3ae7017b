/** The two wrappers the directory model needs: an optional value (a record
    field that may be absent, a decoded document that may be `null`) and the
    outcome of a handler that may throw. */
module Wrappers {

  datatype Option<+T> = None | Some(value: T) {

    /** The value, or `default` when there is none. */
    function GetOr(default: T): T {
      match this
      case Some(v) => v
      case None => default
    }
  }

  datatype Result<+T, +E> = Success(value: T) | Failure(error: E)
}
