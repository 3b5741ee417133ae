/** Option datatype for values that may be absent: builder fields that were
    never set, and a build that cannot complete. */
module Wrappers {

  datatype Option<+T> = None | Some(value: T) {

    /** The held value when one is present; otherwise the fallback `default`. */
    function GetOr(default: T): T {
      match this
      case Some(v) => v
      case None => default
    }
  }
}
