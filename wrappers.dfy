/** The optional value used wherever the JavaScript source returns `null` or
    `undefined` for "nothing". */
module Wrappers {

  datatype Option<+T> = None | Some(value: T) {

    function GetOr(default: T): T {
      match this
      case Some(v) => v
      case None => default
    }
  }
}
