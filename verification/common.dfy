/** Values shared by every part of the model: optional values, the HTTP
    error statuses the controllers raise, results, and timestamps. */
module Common {

  datatype Option<+T> = None | Some(value: T)

  /** The error statuses a request can end with. The application installs no
      error middleware, so Express answers with the `statusCode` of a thrown
      `ApiError`, and with 500 for any other exception (a Mongoose CastError or
      ValidationError, a media-store failure). */
  datatype Status = BadRequest | Unauthorized | NotFound | Internal
  {
    function Code(): (c: int)
      ensures 400 <= c < 600
      ensures c == 500 <==> this == Internal
    {
      match this
      case BadRequest => 400
      case Unauthorized => 401
      case NotFound => 404
      case Internal => 500
    }
  }

  datatype Result<+T> = Ok(value: T) | Err(status: Status)

  /** Milliseconds since the epoch, as `Date.now` gives them. */
  type Time = int
}
