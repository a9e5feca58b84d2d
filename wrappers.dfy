/** Option stands in for the source's `null` references and for its
    `Double.MAX_VALUE` / `Double.NEGATIVE_INFINITY` "no candidate yet" sentinels. */
module Wrappers {

  datatype Option<+T> = None | Some(value: T) {

    /** The value, or a default when there is none. */
    function GetOr(default: T): T
    {
      match this
      case Some(v) => v
      case None => default
    }
  }
}
