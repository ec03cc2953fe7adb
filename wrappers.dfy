/** Option: a value that may be missing (JavaScript's `undefined`, `null` or `NaN`). */
module Wrappers {

  datatype Option<+T> = None | Some(value: T) {

    /** The value, or `default` when missing: the model of JavaScript's `x || default`
        where the falsy cases have been folded into None. */
    function GetOr(default: T): T {
      match this
      case Some(v) => v
      case None => default
    }
  }
}
