/** The optional value used wherever the source gets `undefined`, `NaN` or an
    Invalid Date back from a parse. */
module Options {

  datatype Option<+T> = None | Some(value: T) {

    /** The value, or `default` when there is none. */
    function GetOr(default: T): T {
      match this
      case Some(v) => v
      case None => default
    }
  }
}
