/** Optional values and the outcome of a step that may raise. */
module Wrappers {

  /** A value that may be absent (a missing dictionary key, or a collaborator call that raised). */
  datatype Option<+T> = None | Some(value: T) {
    function GetOr(default: T): T {
      match this
      case Some(v) => v
      case None => default
    }
  }

  /** The outcome of a step whose exceptions are not caught where it runs:
      either a value, or an exception that propagates to the caller. */
  datatype Result<+T> = Ok(value: T) | Raised
}
