/** The optional value used for widget inputs the user may leave untouched
    and for lookups in the subject/marks dictionary. */
module Wrappers {

  datatype Option<+T> = None | Some(value: T) {

    /** The value held, or `default` when there is none. */
    function GetOr(default: T): T {
      match this
      case Some(v) => v
      case None => default
    }
  }
}
