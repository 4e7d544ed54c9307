/** A value that may be absent: JavaScript's `undefined` / `null`, or the
    `undefined` that `Array.prototype.find` returns when nothing matches. */
module Wrappers {

  datatype Option<T> = None | Some(value: T) {

    function GetOr(default: T): T {
      match this
      case Some(v) => v
      case None => default
    }
  }
}
