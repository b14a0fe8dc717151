/** The optional value used for JavaScript's `undefined` and for lookups that may find nothing. */
module Optional {

  datatype Option<T> = None | Some(value: T) {

    /** The value, or `default` when there is none: JavaScript's `x || default`
        for a field that is either absent or holds a value for which `||` keeps it. */
    function GetOr(default: T): T {
      match this
      case Some(v) => v
      case None => default
    }
  }
}
