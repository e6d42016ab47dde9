/** JavaScript values and failures, as far as the library observes them. */
module Js {

  datatype Option<+T> = None | Some(value: T) {
    function GetOr(default: T): T
    {
      match this
      case Some(v) => v
      case None => default
    }
  }

  /** What a `throw` carries: an `Error` built by the library with its
      message, or a `TypeError` raised by the engine (indexing `null`,
      calling `undefined`), whose wording belongs to the engine. */
  datatype JsError = Error(message: string) | TypeError

  /** The completion of a call: a value, or an exception. */
  datatype Outcome<+T> = Ok(value: T) | Throws(error: JsError)

  /** A JavaScript value. Numbers are integers here; objects and functions
      are known by their identity only. */
  datatype JsValue =
    | Undefined
    | Null
    | Boolean(b: bool)
    | Num(n: int)
    | Str(s: string)
    | Obj(id: nat)
    | Function(id: nat)

  /** The `typeof` operator (`typeof null` is "object"). */
  function TypeOf(v: JsValue): string
  {
    match v
    case Undefined => "undefined"
    case Null => "object"
    case Boolean(_) => "boolean"
    case Num(_) => "number"
    case Str(_) => "string"
    case Obj(_) => "object"
    case Function(_) => "function"
  }
}
