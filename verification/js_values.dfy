/**
 * The slice of JavaScript values that flows through the thermostat node:
 * messages, their payloads and the telemetry fields inside them.
 */
module JsValues {
  import opened Wrappers

  /** A JavaScript value. Finite numbers are reals; NaN is kept apart because
      it is a number that is falsy and never parses. */
  datatype Value =
    | Undefined
    | Null
    | Bool(b: bool)
    | Num(n: real)
    | NaN
    | Str(s: string)
    | Obj(fields: map<string, Value>)

  /** A plain object, as the map of its own properties. */
  type Object = map<string, Value>

  /** Property read `o.k`: a missing key reads as `undefined`. */
  function Get(o: Object, k: string): Value {
    if k in o then o[k] else Undefined
  }

  /** JavaScript truthiness (the ToBoolean conversion). */
  predicate Truthy(v: Value) {
    match v
    case Undefined => false
    case Null => false
    case Bool(b) => b
    case Num(n) => n != 0.0
    case NaN => false
    case Str(s) => s != ""
    case Obj(_) => true
  }

  /** `typeof v === 'object'`, which also holds of `null`. */
  predicate TypeofObject(v: Value) {
    v.Null? || v.Obj?
  }

  /** Property read `v.k` on a value already known to be truthy: only objects
      carry the properties this node reads, so anything else reads `undefined`. */
  function Prop(v: Value, k: string): Value {
    if v.Obj? then Get(v.fields, k) else Undefined
  }

  /**
   * `parseFloat(v)`. A finite number converts to its decimal text and parses
   * back to itself; NaN, `undefined`, `null`, booleans and plain objects
   * convert to text with no numeric prefix ("NaN", "undefined", "null",
   * "true", "[object Object]") and fail. How a string's numeric prefix is read
   * is left to the `text` parameter.
   */
  function ParseFloat(v: Value, text: string -> Option<real>): Option<real> {
    match v
    case Num(n) => Some(n)
    case Str(s) => text(s)
    case _ => None
  }

  /** Two objects agree at key `k`: both lack it, or both hold the same value there. */
  predicate SameAt(o: Object, o': Object, k: string) {
    (k in o <==> k in o') && Get(o, k) == Get(o', k)
  }
}
