/** Optional values and the outcome of a store operation. */
module Wrappers {

  /** A value that may be missing; a column holding `None` is SQL NULL. */
  datatype Option<+T> = None | Some(value: T) {

    /** The value, or `default` when there is none. */
    function GetOr(default: T): T {
      match this
      case Some(v) => v
      case None => default
    }
  }

  /** The ways an operation of the store can refuse. */
  datatype Error =
    | NotFound            // the identity names no row, so the ORM lookup gives None
    | ConstraintViolation // committing would break a NOT NULL, UNIQUE, PRIMARY KEY or FOREIGN KEY rule

  /** What an operation gives back: its value, or why it was refused. */
  datatype Result<+T> = Ok(value: T) | Err(error: Error)
}
