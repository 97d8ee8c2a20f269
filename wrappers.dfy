/** The optional value used throughout the model for JavaScript's `null`/`undefined`. */
module Wrappers {
  datatype Option<T> = None | Some(value: T) {
    /** The carried value, or `default` when there is none (JavaScript's `x || default`,
        or a default parameter receiving `undefined`). */
    function GetOr(default: T): T {
      match this
      case Some(v) => v
      case None => default
    }
  }
}
