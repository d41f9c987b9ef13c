/** Optional values and error-carrying results, used wherever the source returns
    `null`/`undefined` or throws. */
module Results {

  /** `None` stands for JavaScript's `null` or `undefined`. */
  datatype Option<+T> = None | Some(value: T) {

    /** The wrapped value, or `default` when there is none. */
    function GetOr(default: T): T {
      match this
      case Some(v) => v
      case None => default
    }
  }

  /** `Err` stands for a thrown `Error`. */
  datatype Result<+T, +E> = Ok(value: T) | Err(error: E)
}
