/** Optional values and outcomes that may fail, as the provider payloads and
    the parsers use them: a missing dictionary key is `None`, a raised
    exception is `Failure(message)`. */
module Wrappers {

  datatype Option<+T> = None | Some(value: T) {
    /** `d.get(key, default)` when the key may be missing. */
    function GetOr(default: T): T {
      match this
      case Some(v) => v
      case None => default
    }
  }

  datatype Result<+T, +E> = Success(value: T) | Failure(error: E)
}
