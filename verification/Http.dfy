/**
  The JSON values a request body can carry, with JavaScript truthiness, and
  the status/body pairs the Express handlers send back.
 */
module Http {
  import opened Seqs

  /** A field of a parsed JSON body.  `Undefined` is a field the body does
      not have; `Composite` is an object or an array.  JSON numbers are
      kept as integers (see the README for what that leaves out). */
  datatype Value =
    | Undefined
    | Null
    | Str(s: string)
    | Num(n: int)
    | Bool(b: bool)
    | Composite

  /** JavaScript's `!!v`: false exactly for undefined, null, "", 0 and false. */
  predicate Truthy(v: Value) {
    match v
    case Undefined => false
    case Null => false
    case Str(s) => s != ""
    case Num(n) => n != 0
    case Bool(b) => b
    case Composite => true
  }

  type Body = map<string, Value>

  /** `body.key`: the field, or undefined when the body lacks it. */
  function Field(body: Body, key: string): Value {
    if key in body then body[key] else Undefined
  }

  /** `response.ok`: a status in the 2xx range. */
  predicate IsOk(status: int) {
    200 <= status <= 299
  }

  /** A JSON response body: `{ error }` or a success body with whichever of
      `message`, `success` and `data` the handler includes. */
  datatype Payload<T> =
    | ErrorBody(error: string)
    | OkBody(message: Option<string>, success: Option<bool>, data: Option<T>)

  datatype Response<T> = Response(status: int, payload: Payload<T>)

  /** `res.status(status).json({ error })` */
  function Error<T>(status: int, error: string): Response<T> {
    Response(status, ErrorBody(error))
  }

  /** `res.status(status).json({ message })` */
  function Message<T>(status: int, message: string): Response<T> {
    Response(status, OkBody(Some(message), None, None))
  }
}
