/** Option, the value-or-nothing type used wherever the source returns None,
    null, undefined or an empty dictionary on a failure path. */
module Wrappers {

  datatype Option<+T> = None | Some(value: T) {

    /** The carried value, or `default` for None. */
    function GetOr(default: T): T {
      match this
      case Some(v) => v
      case None => default
    }
  }
}
