/** Optional values and results with an error message, shared by every module. */
module Results {

  datatype Option<T> = None | Some(value: T) {
    /** The carried value, or `default` when there is none. */
    function GetOr(default: T): T {
      match this
      case Some(v) => v
      case None => default
    }
  }

  /** The outcome of an operation that can throw: its value, or the message it throws. */
  datatype Result<T> = Ok(value: T) | Err(error: string)
}
