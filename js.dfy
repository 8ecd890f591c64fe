/**
 * The JavaScript values that the eDirectory adapter handles, and the two
 * pieces of JavaScript semantics it relies on: truthiness (as used by `||`)
 * and conversion to a string (as used by `+` on strings).
 */
module Js {

  datatype Option<+T> = None | Some(value: T)

  /** A field value: `null`, a string, or an array of strings (the object-class list). */
  datatype Value = Null | Str(s: string) | List(items: seq<string>)

  /** What reading a property yields: `None` is `undefined` (the key is absent). */
  type Slot = Option<Value>

  /** A plain JavaScript object used as a field map. */
  type Fields = map<string, Value>

  /** JavaScript truthiness: `null` and `""` are falsy, other strings and every array are truthy. */
  predicate TruthyValue(v: Value)
  {
    match v
    case Null => false
    case Str(s) => s != ""
    case List(_) => true
  }

  /** Truthiness of a property read; `undefined` is falsy. */
  predicate Truthy(v: Slot)
  {
    v.Some? && TruthyValue(v.value)
  }

  /** Reading `m[key]`. */
  function Get(m: Fields, key: string): (v: Slot)
    ensures v.Some? <==> key in m
    ensures v.Some? ==> v.value == m[key]
  {
    if key in m then Some(m[key]) else None
  }

  /**
   * JavaScript `a || b` where the right operand is a defined value: the left
   * operand when it is truthy, the right one otherwise.
   */
  function OrElse(a: Slot, b: Value): (r: Value)
    ensures Truthy(a) ==> Some(r) == a
    ensures !Truthy(a) ==> r == b
    ensures Some(r) == a || r == b
    ensures TruthyValue(r) <==> Truthy(a) || TruthyValue(b)
  {
    if Truthy(a) then a.value else b
  }

  /** `Array.prototype.join`. */
  function Join(items: seq<string>, separator: string): string
  {
    if |items| == 0 then ""
    else if |items| == 1 then items[0]
    else items[0] + separator + Join(items[1..], separator)
  }

  /** `String(v)`, the conversion `+` applies when one operand is a string. */
  function ToStr(v: Slot): string
  {
    match v
    case None => "undefined"
    case Some(Null) => "null"
    case Some(Str(s)) => s
    case Some(List(items)) => Join(items, ",")
  }

  /** A mutable JavaScript object, passed by reference. */
  class JsObject {
    var fields: Fields

    constructor (fields: Fields)
      ensures this.fields == fields
    {
      this.fields := fields;
    }
  }
}
