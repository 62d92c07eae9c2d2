/** The optional value used wherever a JavaScript value may be `null`, `undefined`
    or `false` (a failed API call). */
module Wrappers {

  datatype Option<+T> = None | Some(value: T) {

    /** The value when present, otherwise `default` (JavaScript's `x || default`
        for a value whose only falsy form is absence). */
    function GetOr(default: T): T {
      match this
      case Some(v) => v
      case None => default
    }
  }

  /** The outcome of a statement that may throw a `TypeError` (a property read on
      `undefined` or `null`). */
  datatype Outcome<+T> = Ok(value: T) | Thrown
}
