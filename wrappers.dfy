/** Optional values and HTTP-style replies shared by every module. */
module Wrappers {

  /** A value that may be absent (JavaScript `undefined` / `null`). */
  datatype Option<+T> = None | Some(value: T) {
    /** `x ?? default`, and `x || default` for values that cannot be falsy. */
    function GetOr(default: T): T {
      match this
      case Some(v) => v
      case None => default
    }
  }

  /** What a route handler answers: a JSON body, or an error status and message. */
  datatype Reply<+T> = Ok(value: T) | Fail(status: int, error: string)

  const Unauthorized: int := 401
  const BadRequest: int := 400
  const NotFound: int := 404
  const InternalError: int := 500
}
