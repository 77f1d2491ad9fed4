/** The nullable values of the Kotlin source (`File?`, the result of `Regex.find`,
    `firstNotNullOfOrNull`) are modelled by this Some/None datatype. */
module Optional {

  datatype Option<+T> = None | Some(value: T) {

    /** Kotlin's `?: default` and `orEmpty()`: the value, or `default` for null. */
    function GetOr(default: T): (r: T)
      ensures Some? ==> r == value
      ensures None? ==> r == default
    {
      match this
      case Some(v) => v
      case None => default
    }
  }
}
