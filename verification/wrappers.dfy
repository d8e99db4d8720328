/** Optional values, used wherever the system has `undefined`, `null` or an absent field. */
module Wrappers {

  datatype Option<+T> = None | Some(value: T) {

    /** Returns the wrapped value, or `default` when absent. */
    function GetOr(default: T): T {
      match this
      case Some(v) => v
      case None => default
    }
  }

  /** Either a value or an error, for operations the source lets fail. */
  datatype Result<+T, +E> = Ok(value: T) | Err(error: E)
}
