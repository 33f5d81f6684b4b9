/** Values shared by every route module: optional values, the access token's
    claims and HTTP replies. */
module Common {

  /** A point in time. `datetime` values are compared as integers; ISO 8601
      parsing and formatting are not modelled. */
  type Timestamp = int

  datatype Option<+T> = None | Some(value: T) {
    /** `x or default` for an optional value. */
    function GetOr(default: T): T {
      match this
      case Some(v) => v
      case None => default
    }
  }

  /** The claims of a signed access token: the identity (the user's id) and the
      `is_admin` role claim. The token string itself is opaque. */
  datatype Claims = Claims(identity: int, isAdmin: bool)

  /** An HTTP reply: a success code with its body, or an error code with the
      `message` field of the JSON error body. */
  datatype Reply<+T> = Ok(code: int, value: T) | Err(code: int, message: string)

  const OK: int := 200
  const CREATED: int := 201
  const NO_CONTENT: int := 204
  const BAD_REQUEST: int := 400
  const UNAUTHORIZED: int := 401
  const FORBIDDEN: int := 403
  const NOT_FOUND: int := 404
  const CONFLICT: int := 409

  /** The message of the 403 reply to a caller without the admin claim. */
  const AdminRequiredMessage: string := "管理者権限が必要です"
}
