/** An optional value: `None` stands for JavaScript's `null`/`undefined`. */
module Options {
  datatype Option<T> = None | Some(value: T) {
    /** The value, or `default` when there is none (a default parameter). */
    function GetOr(default: T): T {
      match this
      case Some(v) => v
      case None => default
    }
  }
}
