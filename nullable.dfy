/** A value that may be absent: a nullable column of a remote row, or an
    optional JavaScript property. */
module Nullable {

  datatype Option<+T> = None | Some(value: T) {

    /** `x || fallback` in JavaScript when `fallback` is the falsy value of
        the type ('' or 0): an absent value reads as the fallback, and a
        present falsy value equals the fallback anyway. */
    function GetOr(fallback: T): (r: T)
      ensures Some? ==> r == value
      ensures None? ==> r == fallback
    {
      match this
      case Some(v) => v
      case None => fallback
    }
  }
}
