/** The model of a Java reference that may be `null`. */
module Options {

  datatype Option<+T> = None | Some(value: T) {

    /** The value, or `default` for `null` (Java's `Optional.orElse`). */
    function GetOr(default: T): (v: T)
    {
      match this
      case Some(v) => v
      case None => default
    }
  }
}
