/** Option and Result values standing for Python's `None` / missing keys and
    for raised exceptions (the error carries the text `str(e)` would give). */
module Wrappers {

  datatype Option<+T> = None | Some(value: T) {
    /** The value, or `default` when absent: Python's `dict.get(key, default)`. */
    function GetOr(default: T): T {
      match this
      case Some(v) => v
      case None => default
    }
  }

  datatype Result<+R> = Success(value: R) | Failure(error: string)
}
