/** Optional values (Java's nullable references) and results (a value or a thrown exception). */
module Wrappers {

  datatype Option<+T> = None | Some(value: T) {
    /** `Optional.orElse` / `x != null ? x : default` */
    function GetOr(default: T): T {
      match this
      case Some(v) => v
      case None => default
    }
  }

  datatype Result<+R, +E> = Success(value: R) | Failure(error: E)
}
