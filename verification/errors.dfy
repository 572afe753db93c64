/** The exceptions the ingestion pipeline raises (exceptions.py), and the
    Option and Result wrappers every fallible operation of the model returns. */
module Errors {

  datatype Option<+T> = None | Some(value: T) {

    /** The wrapped value, or `default` for None. */
    function GetOr(default: T): T {
      match this
      case Some(v) => v
      case None => default
    }
  }

  /** What went wrong in an upstream call, as the raised messages tell apart. */
  datatype Cause =
    | RequestError           // a requests.RequestException: no response at all, or a body that is not JSON
    | BadStatus(code: int)   // a response whose status is not `ok`
    | NotFound               // the single-decklist endpoint answered 500
    | EmptyPage              // an HTML page whose text is empty
    | MissingLandmark        // an HTML page without its social-icons container
    | Invalid                // pydantic rejected the payload

  /** Python, pydantic and Django exceptions that escape without being wrapped. */
  datatype Builtin =
    | ValidationError
    | KeyError
    | TypeError
    | ValueError
    | JsonDecodeError
    | OverflowError
    | MultipleObjectsReturned
    | ProtectedError
    | AttributeError
    | IntegrityError

  datatype Error =
    | CardDataRetrievalError(cause: Cause)
    | DecklistRetrievalError(cause: Cause)
    | DeckDetailsRetrievalError(cause: Cause)
    | Raised(builtin: Builtin)
    | Unexpected(inner: Error)   // `raise Exception from exc`: a bare Exception chained to `inner`

  datatype Result<+T> = Ok(value: T) | Err(error: Error) {

    predicate IsFailure() {
      Err?
    }

    function PropagateFailure<U>(): Result<U>
      requires Err?
    {
      Err(error)
    }

    function Extract(): T
      requires Ok?
    {
      value
    }
  }

  /** The result of a pydantic model whose validation failed. */
  function Rejected<T>(): Result<T> {
    Err(Raised(ValidationError))
  }
}
