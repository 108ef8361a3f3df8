/**
 * The untyped JavaScript values that `sanitizeShortcut` accepts as `unknown`:
 * whatever the extension's storage area hands back, however malformed.
 */
module JsValues {

  /** A JavaScript value. Numbers are reals (NaN apart); arrays and plain objects are the two
      kinds of value for which `typeof` answers "object" besides `null`. */
  datatype JsValue =
    | Undefined
    | Null
    | Bool(b: bool)
    | Num(n: real)
    | NaN
    | BigInt(i: int)
    | Str(s: string)
    | Symbol
    | Function
    | Array(items: seq<JsValue>)
    | Object(fields: map<string, JsValue>)

  /** JavaScript truthiness, as `Boolean(v)` and `!v` compute it. */
  predicate Truthy(v: JsValue) {
    match v
    case Undefined => false
    case Null => false
    case Bool(b) => b
    case Num(n) => n != 0.0
    case NaN => false
    case BigInt(i) => i != 0
    case Str(s) => |s| > 0
    case Symbol => true
    case Function => true
    case Array(_) => true
    case Object(_) => true
  }

  /** `typeof v === "object"`. */
  predicate IsObjectType(v: JsValue) {
    v.Null? || v.Array? || v.Object?
  }

  /** Property read `v[name]` for the property names this model reads; none of them
      is an own or inherited property of anything but a plain object that defines it. */
  function Get(v: JsValue, name: string): JsValue {
    if v.Object? && name in v.fields then v.fields[name] else Undefined
  }
}
