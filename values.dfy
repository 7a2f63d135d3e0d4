/** Values that flow through the request handlers: optional values, the
    fields of a JSON request body, and the HTTP reply a handler sends. */
module Values {

  datatype Option<+T> = None | Some(value: T)

  /** A field of a parsed JSON request body, reduced to what the handlers
      inspect. `Undefined` is a field the client did not send; `Composite`
      stands for any JSON object or array. Numbers are integers only. */
  datatype Value =
    | Undefined
    | Null
    | Bool(b: bool)
    | Number(n: int)
    | Text(s: string)
    | Composite

  /** JavaScript truthiness: the test behind `!field` in the presence checks
      and behind the `!!paid` coercion. */
  predicate Truthy(v: Value)
  {
    match v
    case Undefined => false
    case Null => false
    case Bool(b) => b
    case Number(n) => n != 0
    case Text(s) => s != ""
    case Composite => true
  }

  /** `Number(x) || 0` on an input that JavaScript has already converted:
      `None` is an absent or non-numeric input (NaN), which falls back to 0. */
  function NumberOrZero(x: Option<int>): (n: int)
  {
    match x
    case None => 0
    case Some(n) => n
  }

  /** What a handler sends back: the stored record with its HTTP status, or
      an error message. */
  datatype Reply<+T> =
    | Created(record: T)
    | Ok(record: T)
    | BadRequest(error: string)
    | NotFound(error: string)
  {
    function StatusCode(): (code: int)
    {
      match this
      case Created(_) => 201
      case Ok(_) => 200
      case BadRequest(_) => 400
      case NotFound(_) => 404
    }
  }
}
