/**
 * JavaScript values as the components receive them in HTTP response bodies,
 * with the three rules of the language the components lean on: truthiness
 * (`if (x)`, `a || b`), property access that throws on null or undefined
 * (`v.k`), and optional chaining (`v?.k`).
 */
module JsValues {

  import Text

  datatype Option<+T> = None | Some(value: T)

  /** A JSON-like value. Numbers are integers (HTTP statuses, byte counts, flags). */
  datatype JsValue =
    | Undefined
    | Null
    | Bool(b: bool)
    | Num(n: int)
    | Str(s: string)
    | Object(props: map<string, JsValue>)

  predicate IsNullish(v: JsValue) {
    v.Undefined? || v.Null?
  }

  /** JavaScript's ToBoolean: undefined, null, false, 0 and "" are falsy, everything else is truthy. */
  predicate Truthy(v: JsValue) {
    match v
    case Undefined => false
    case Null => false
    case Bool(b) => b
    case Num(n) => n != 0
    case Str(s) => s != ""
    case Object(_) => true
  }

  /**
   * `v.k`: None when `v` is null or undefined, where JavaScript throws a
   * TypeError; a missing property reads as undefined.
   */
  function Get(v: JsValue, k: string): (r: Option<JsValue>)
    ensures r.None? <==> IsNullish(v)
  {
    match v
    case Undefined => None
    case Null => None
    case Object(props) => Some(if k in props then props[k] else Undefined)
    case _ => Some(Undefined)
  }

  /** `v?.k`: undefined when `v` is null or undefined. */
  function OptGet(v: JsValue, k: string): JsValue {
    match Get(v, k)
    case None => Undefined
    case Some(x) => x
  }

  /** `a || b`. */
  function Or(a: JsValue, b: JsValue): (r: JsValue)
    ensures Truthy(r) <==> Truthy(a) || Truthy(b)
  {
    if Truthy(a) then a else b
  }

  /**
   * `v.includes(needle)` for a value read from a response: a string answers,
   * anything else throws (None) because it has no `includes` method.
   */
  function Includes(v: JsValue, needle: string): Option<bool> {
    if v.Str? then Some(Text.Contains(v.s, needle)) else None
  }

  /** How a template literal prints a value (`${v}`). */
  function Display(v: JsValue): string {
    match v
    case Undefined => "undefined"
    case Null => "null"
    case Bool(b) => if b then "true" else "false"
    case Num(n) => Text.IntToString(n)
    case Str(s) => s
    case Object(_) => "[object Object]"
  }
}
