/** The nullable values of the portal (`string?`, `int?`, `DateTime?`). */
module Optional {

  datatype Option<+T> = None | Some(value: T) {

    /** The `??` operator: the value when present, the fallback otherwise. */
    function GetOr(default: T): T {
      match this
      case Some(v) => v
      case None => default
    }
  }
}
