/**
 * The slice of JavaScript value semantics the services and pages rely on:
 * the values JSON can produce, truthiness (`if (x)`, `x || d`), property
 * access on parsed objects, and the exceptions the code throws or lets
 * through.
 */
module Js {

  /** A value as JSON.parse or a fetch body can produce it. Numbers are integers here. */
  datatype JsValue =
    | Undefined
    | Null
    | Bool(b: bool)
    | Num(n: int)
    | Str(s: string)
    | Arr(items: seq<JsValue>)
    | Obj(fields: map<string, JsValue>)

  type JsObject = map<string, JsValue>

  /** What the code throws: `new Error(message)`, a TypeError from touching a
      missing property or calling a missing function, a SyntaxError from
      JSON.parse, a Mongoose validation or duplicate-key error, or the
      rejection of a call into an external service. */
  datatype Exception =
    | Error(message: string)
    | TypeError
    | SyntaxError
    | ValidationError(path: string)
    | DuplicateKey
    | ServiceFailure

  /** `Boolean(v)`: false exactly for undefined, null, false, 0 and "". */
  predicate Truthy(v: JsValue) {
    match v
    case Undefined => false
    case Null => false
    case Bool(b) => b
    case Num(n) => n != 0
    case Str(s) => s != ""
    case Arr(_) => true
    case Obj(_) => true
  }

  /** `v === undefined || v === null`, the values on which property access throws. */
  predicate Nullish(v: JsValue) {
    v.Undefined? || v.Null?
  }

  /** `v.key` on a value that is not nullish: own fields of an object; any other
      value has none of the keys the code reads. */
  function Field(v: JsValue, key: string): JsValue {
    if v.Obj? && key in v.fields then v.fields[key] else Undefined
  }

  /** `v || d`. */
  function Or(v: JsValue, d: JsValue): JsValue {
    if Truthy(v) then v else d
  }
}
