/**
 * A model of the JavaScript values that the wizard passes around as `any`
 * (step inputs, LLM outputs, step content) and of the few JavaScript
 * operators the wizard applies to them: truthiness, `??`, `typeof`,
 * property lookup and the `in` operator.
 * Numbers are restricted to integers; functions and symbols do not occur.
 */
module JsValues {

  datatype JsValue =
    | Undefined
    | Null
    | Bool(b: bool)
    | Num(n: int)
    | Str(s: string)
    | Arr(elems: seq<JsValue>)
    | Obj(props: map<string, JsValue>)

  /** The empty object literal `{}`. */
  const EmptyObject: JsValue := Obj(map[])

  /** JavaScript truthiness: `undefined`, `null`, `false`, `0` and `""` are falsy. */
  predicate Truthy(v: JsValue) {
    match v
    case Undefined => false
    case Null => false
    case Bool(b) => b
    case Num(n) => n != 0
    case Str(s) => s != ""
    case Arr(_) => true
    case Obj(_) => true
  }

  /** `v == null` in JavaScript's loose equality: `null` or `undefined`. */
  predicate Nullish(v: JsValue) {
    v.Undefined? || v.Null?
  }

  /** The nullish-coalescing operator `v ?? d`. */
  function Coalesce(v: JsValue, d: JsValue): (r: JsValue)
    ensures Nullish(v) ==> r == d
    ensures !Nullish(v) ==> r == v
  {
    if Nullish(v) then d else v
  }

  /** A destructuring default `{ x = d } = o`: the default replaces only `undefined`. */
  function DefaultIfUndefined(v: JsValue, d: JsValue): JsValue {
    if v.Undefined? then d else v
  }

  /** `typeof v === "object"`, which holds for `null`, arrays and objects. */
  predicate TypeofObject(v: JsValue) {
    v.Null? || v.Arr? || v.Obj?
  }

  /** `key in v` for an object `v` (an array has no property named like the wizard's keys). */
  predicate HasProperty(v: JsValue, key: string) {
    v.Obj? && key in v.props
  }

  /** Property lookup `v.key`; a property that is absent reads as `undefined`. */
  function Prop(v: JsValue, key: string): (r: JsValue)
    ensures !HasProperty(v, key) ==> r.Undefined?
    ensures HasProperty(v, key) ==> r == v.props[key]
  {
    if HasProperty(v, key) then v.props[key] else Undefined
  }
}
