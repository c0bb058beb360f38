/** The optional value used throughout the model for TypeScript's `T | undefined`
    and for nullable database columns. */
module Options {

  datatype Option<+T> = None | Some(value: T) {

    /** The carried value, or `fallback` when there is none. */
    function GetOr(fallback: T): T {
      match this
      case Some(v) => v
      case None => fallback
    }
  }
}
