/** Small helper datatypes shared by the other modules. */
module Wrappers {

  /** A value that may be absent: `null` for a result, `undefined` for an omitted option. */
  datatype Option<+T> = None | Some(value: T) {
    function GetOr(default: T): (r: T)
      ensures Some? ==> r == value
      ensures None? ==> r == default
    {
      match this
      case Some(v) => v
      case None => default
    }
  }

  /** A JavaScript value that may be `undefined` or `null`, the two cases `??` falls through. */
  datatype Nullish<+T> = Undefined | Null | Value(value: T)
}
