/** An optional value: JavaScript's `undefined` (or a missing key) is `None`. */
module Optional {

  datatype Option<+T> = None | Some(value: T) {

    /** `x ?? d` */
    function GetOr(default: T): T {
      match this
      case Some(v) => v
      case None => default
    }
  }
}
