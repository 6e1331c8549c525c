/** Small failure-carrying datatypes shared by the whole model. */
module Common {

  /** Python's `Optional[...]`: a value or `None`. */
  datatype Option<+T> = None | Some(value: T)

  /** The error statuses the HTTP layer raises (`HTTPException`); a schema
      rejection (pydantic's 422, rewritten to 400 by the application) is `BadRequest`. */
  datatype HttpError = BadRequest | NotFound | Conflict

  /** What an endpoint answers: a 200 body, a 201 body, or an error status. */
  datatype Reply<+T> = Ok(body: T) | Created(body: T) | Fail(error: HttpError)
  {
    /** The numeric HTTP status of the reply. */
    function StatusCode(): (code: int)
      ensures 200 <= code < 500
      ensures Fail? <==> code >= 400
    {
      match this
      case Ok(_) => 200
      case Created(_) => 201
      case Fail(BadRequest) => 400
      case Fail(NotFound) => 404
      case Fail(Conflict) => 409
    }
  }

  /** The message a successful delete endpoint answers with. */
  datatype DeleteNote = Removed | WasAbsent

  /** Outcome of a pydantic schema: the parsed payload or a rejection. */
  datatype Validation<+T> = Valid(value: T) | Rejected

  /** A timestamp produced by `datetime.now()`; the clock is a parameter. */
  type Time = int
}
