/** The optional value used wherever the site reads `x | undefined`, `x | null`
    or a missing localStorage key. */
module Wrappers {

  datatype Option<+T> = None | Some(value: T) {

    /** `value ?? fallback`. */
    function GetOr(fallback: T): T {
      match this
      case Some(v) => v
      case None => fallback
    }
  }
}
