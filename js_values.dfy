/** Untyped JavaScript values, as they arrive in request objects, token
    payloads and model outputs. Numbers are modelled as reals; `NaN` is not
    represented. */
module JsValues {

  datatype JsValue =
    | Undefined
    | Null
    | Bool(b: bool)
    | Num(n: real)
    | Str(s: string)
    | Array(items: seq<JsValue>)
    | Object(fields: map<string, JsValue>)

  /** JavaScript truthiness: `undefined`, `null`, `false`, `0` and `''` are falsy. */
  predicate Truthy(v: JsValue) {
    match v
    case Undefined => false
    case Null => false
    case Bool(b) => b
    case Num(n) => n != 0.0
    case Str(s) => s != []
    case Array(_) => true
    case Object(_) => true
  }

  /** The values `??` and `?.` skip. */
  predicate Nullish(v: JsValue) {
    v.Undefined? || v.Null?
  }

  /** `v && typeof v === 'object'`: arrays and plain objects. */
  predicate IsObject(v: JsValue) {
    v.Array? || v.Object?
  }

  /** Property access `v[key]` on a plain object; a missing key reads as `undefined`. */
  function Get(fields: map<string, JsValue>, key: string): (v: JsValue)
    ensures key !in fields ==> v == Undefined
    ensures key in fields ==> v == fields[key]
  {
    if key in fields then fields[key] else Undefined
  }

  /** `a ?? b`. */
  function Coalesce(a: JsValue, b: JsValue): (v: JsValue)
    ensures !Nullish(a) ==> v == a
    ensures Nullish(a) ==> v == b
  {
    if Nullish(a) then b else a
  }
}
