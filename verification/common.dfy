/** Shared vocabulary of the model: optional values, handler results, and the
    identifiers that stand in for MongoDB ObjectIds. */
module Common {

  /** An absent (`undefined`) or present value, as a request field or a
      nullable schema path. */
  datatype Option<+T> = None | Some(value: T) {
    function GetOr(default: T): T {
      match this
      case Some(v) => v
      case None => default
    }
  }

  /** The error kinds the video controller answers with. */
  datatype Failure =
    | NotFound       // 404 "Video not found"
    | NotAuthorized  // 401 "Not authorized" (from a guard, or a non-owner)
    | ServerError    // 500 "Server error" (anything the handler's catch sees)

  /** The outcome of one handler: a payload or a failure. */
  datatype Result<+T> = Ok(value: T) | Fail(failure: Failure)

  function StatusOf(f: Failure): int {
    match f
    case NotFound => 404
    case NotAuthorized => 401
    case ServerError => 500
  }

  type UserId = nat
  type VideoId = nat
  type CommentId = nat

  function Abs(x: int): nat {
    if x < 0 then -x else x
  }

  function Min(a: int, b: int): int {
    if a <= b then a else b
  }
}
