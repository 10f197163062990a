/** Optional values and results with a failure case.
    `Option` models PHP's nullable values together with the `??` operator;
    `Result` models a value or a thrown exception. */
module Wrappers {

  datatype Option<+T> = None | Some(value: T) {
    /** PHP's `$x ?? default`: the value when present, the default when null. */
    function GetOr(default: T): (r: T)
      ensures Some? ==> r == value
      ensures None? ==> r == default
    {
      match this
      case Some(v) => v
      case None => default
    }
  }

  datatype Result<+R, +E> = Ok(value: R) | Err(error: E)
}
