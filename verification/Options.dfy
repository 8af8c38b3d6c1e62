/** Optional values and results with an error, used for Python's `None` and exceptions. */
module Options {

  datatype Option<+T> = None | Some(value: T) {
    /** The value, or a default where there is none. */
    function GetOr(default: T): T {
      match this
      case Some(v) => v
      case None => default
    }
  }

  datatype Result<+T, +E> = Ok(value: T) | Err(error: E)
}
