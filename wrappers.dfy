/** The optional value used for the JavaScript `null` results of the worker:
    a KV read of a missing key and a form lookup of a missing field. */
module Wrappers {

  datatype Option<+T> = None | Some(value: T) {

    /** The value, or `default` when there is none. */
    function GetOr(default: T): T
    {
      match this
      case Some(v) => v
      case None => default
    }
  }
}
