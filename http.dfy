/** The responses the controllers return, reduced to their status code and
    the part of the body the model can state. */
module Http {
  import opened Models

  datatype Response<+T> =
    | Success(body: T)                                 // 200 with a body
    | SuccessEmpty                                     // 200 without a body
    | Created(created: T)                              // 201
    | ClientError(code: nat, message: string)          // 400, 404, 409, 423
    | Unmatched(requests: seq<RequestedDevice>)        // 400 listing unmatched requests
    | ServerError(message: string)                     // 500
  {
    /** The HTTP status code of the response. */
    function Status(): nat {
      match this
      case Success(_) => 200
      case SuccessEmpty => 200
      case Created(_) => 201
      case ClientError(code, _) => code
      case Unmatched(_) => 400
      case ServerError(_) => 500
    }
  }
}
