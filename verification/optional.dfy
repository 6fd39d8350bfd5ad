/** The `null`-or-value shape that the extension's JavaScript uses everywhere
    (a missing field, a `null` return, an absent option). */
module Optional {

  datatype Option<+T> = None | Some(value: T) {

    /** The value, or `default` when there is none (JavaScript's `x ?? default`). */
    function GetOr(default: T): T {
      match this
      case Some(v) => v
      case None => default
    }
  }
}
