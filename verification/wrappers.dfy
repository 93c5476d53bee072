/** The optional value used for absent fields: an absent key in a partial
    record, a `null` user, a missing field in a server payload. */
module Wrappers {

  datatype Option<+T> = None | Some(value: T) {

    /** The carried value, or `default` when absent. */
    function GetOr(default: T): (r: T)
      ensures Some? ==> r == value
      ensures None? ==> r == default
    {
      match this
      case Some(v) => v
      case None => default
    }

    /** This option when present, otherwise `other`: the later of two
        patches wins on every field it supplies. */
    function OrElse(other: Option<T>): (r: Option<T>)
      ensures Some? ==> r == this
      ensures None? ==> r == other
    {
      match this
      case Some(_) => this
      case None => other
    }
  }
}
