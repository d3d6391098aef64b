/** Optional and failing values, as the JavaScript code meets them. */
module Wrappers {

  /** A field that may be `undefined`/`null` (None) or present (Some). */
  datatype Option<+T> = None | Some(value: T) {

    /** `x ?? default` */
    function GetOr(default: T): T {
      match this
      case Some(v) => v
      case None => default
    }
  }

  /** A value, or the error a `throw` would carry. */
  datatype Result<+T, +E> = Ok(value: T) | Err(error: E)

  /** A string value is truthy in JavaScript exactly when it is present and non-empty. */
  predicate Truthy(s: Option<string>) {
    s.Some? && s.value != ""
  }
}
