/** Optional values, standing for the source's `null`/`undefined` links and results. */
module Wrappers {

  datatype Option<+T> = None | Some(value: T) {

    /** The value held, or `default` when there is none. */
    function GetOr(default: T): T {
      match this
      case Some(v) => v
      case None => default
    }
  }

  /** A value or the error the source throws instead of returning one. */
  datatype Result<+T> = Ok(value: T) | Throws(message: string)
}
