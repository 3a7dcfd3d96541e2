/**
 * The optional value used wherever a TypeScript field is optional (`field?: T`),
 * a lookup may find nothing (`find`, `match`), or a number may be `NaN`.
 */
module Wrappers {

  datatype Option<+T> = None | Some(value: T) {

    /** The value, or `default` when there is none (TypeScript's `x ?? d`). */
    function GetOr(default: T): T {
      match this
      case Some(v) => v
      case None => default
    }
  }
}
