/** The optional value used wherever the JavaScript code may produce `undefined`. */
module Wrappers {

  datatype Option<+T> = None | Some(value: T) {

    /** The value held by `Some`, or `default` for `None`. */
    function GetOr(default: T): T {
      match this
      case Some(v) => v
      case None => default
    }
  }
}
