/**
 * The slice of JavaScript's value semantics the utilities rely on: truthiness (`!x`, `x || ''`),
 * string conversion (`String(x)`) and property access (`x.key`, `x[key]`).
 */
module Js {
  import opened Wrappers
  import Decimal

  /** A JavaScript value. Numbers are integers; an object is its own (non-inherited) properties. */
  datatype JsValue =
    | Undefined
    | Null
    | Bool(b: bool)
    | Number(n: int)
    | Str(s: string)
    | Object(fields: map<string, JsValue>)

  /** ECMAScript ToBoolean: `undefined`, `null`, `false`, `0` and `""` are falsy; everything else is truthy. */
  predicate Truthy(v: JsValue) {
    match v
    case Undefined => false
    case Null => false
    case Bool(b) => b
    case Number(n) => n != 0
    case Str(s) => s != ""
    case Object(_) => true
  }

  /** ECMAScript ToString (what `String(v)` and string concatenation produce). */
  function ToString(v: JsValue): (r: string)
    ensures r == "" <==> v == Str("")
    ensures v.Str? ==> r == v.s
  {
    match v
    case Undefined => "undefined"
    case Null => "null"
    case Bool(b) => if b then "true" else "false"
    case Number(n) => Decimal.IntToDecimal(n)
    case Str(s) => s
    case Object(_) => "[object Object]"
  }

  /**
   * `v[key]`: None when the access throws a TypeError (the receiver is `null` or `undefined`),
   * otherwise the property's value, `undefined` when it is absent.
   */
  function GetProperty(v: JsValue, key: string): (r: Option<JsValue>)
    ensures r.None? <==> v.Undefined? || v.Null?
    ensures v.Object? && key in v.fields ==> r == Some(v.fields[key])
    ensures v.Object? && key !in v.fields ==> r == Some(Undefined)
  {
    match v
    case Undefined => None
    case Null => None
    case Object(fields) => Some(if key in fields then fields[key] else Undefined)
    case _ => Some(Undefined)
  }
}
