/** Optional values and results with an error, used throughout the model. */
module Outcomes {

  /** A value that may be absent: TypeScript's `undefined`/`null` for an optional property. */
  datatype Option<+T> = None | Some(value: T) {
    function GetOr(default: T): T {
      match this
      case Some(v) => v
      case None => default
    }
  }

  /** Either a value or an error: a thrown exception or a rejected request in the source. */
  datatype Result<+T, +E> = Ok(value: T) | Err(error: E)
}
