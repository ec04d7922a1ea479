/** Optional values and results shared by the pattern models.
    `Option` stands for a Java reference that may be `null`;
    `Result` carries either a value or the reason an input was refused. */
module Wrappers {

  datatype Option<+T> = None | Some(value: T) {

    /** The wrapped value, or `default` when there is none. */
    function GetOr(default: T): T {
      match this
      case Some(v) => v
      case None => default
    }
  }

  datatype Result<+R, +E> = Success(value: R) | Failure(error: E)
}
