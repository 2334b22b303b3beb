/** Failure-carrying wrappers shared by every module: `Option` stands for a
    Java reference that may be null, `Result` for a value or a thrown
    exception. */
module Common {

  datatype Option<+T> = None | Some(value: T) {
    /** The value, or `default` when null (Reactor's `defaultIfEmpty`). */
    function GetOr(default: T): T {
      match this
      case Some(v) => v
      case None => default
    }
  }

  datatype Result<+T, +E> = Ok(value: T) | Err(error: E)
}
