/** The JSON-like values that flow through the client: option values, form fields,
    table cells and query parameters, with JavaScript's truthiness and String(). */
module JsValue {
  import opened Base
  import opened Strings

  datatype Value =
    | Undefined
    | Null
    | Bool(b: bool)
    | Num(n: real)
    | Str(s: string)
    | Arr(items: seq<Value>)
    | Obj(fields: map<string, Value>)

  /** Boolean(v): the falsy values are undefined, null, false, 0 and "". */
  predicate Truthy(v: Value) {
    match v
    case Undefined => false
    case Null => false
    case Bool(b) => b
    case Num(n) => n != 0.0
    case Str(s) => s != ""
    case Arr(_) => true
    case Obj(_) => true
  }

  /** String(v), with numbers rendered by `showNum` (number-to-string conversion is not modelled).
      An array renders as its elements joined by ",", null and undefined elements as "". */
  function ToStr(v: Value, showNum: real -> string): string {
    match v
    case Undefined => "undefined"
    case Null => "null"
    case Bool(b) => if b then "true" else "false"
    case Num(n) => showNum(n)
    case Str(s) => s
    case Arr(items) =>
      Join(seq(|items|, i requires 0 <= i < |items| =>
             if items[i].Undefined? || items[i].Null? then "" else ToStr(items[i], showNum)), ",")
    case Obj(_) => "[object Object]"
  }

  /** `v.length` as a loop bound: reading it from undefined or null throws; a value without a
      length gives undefined, and `i < undefined` is false, so such a loop runs zero times. */
  function Length(v: Value): (r: Result<nat>)
    ensures r.Err? <==> v.Undefined? || v.Null?
    ensures v.Arr? ==> r == Ok(|v.items|)
    ensures v.Str? ==> r == Ok(|v.s|)
  {
    match v
    case Undefined => Err(TypeError)
    case Null => Err(TypeError)
    case Arr(items) => Ok(|items|)
    case Str(s) => Ok(|s|)
    case _ => Ok(0)
  }

  /** `v[i]`: throws on undefined and null; an index past the end, or a property the value
      does not have, reads as undefined; a string yields its i-th character. */
  function At(v: Value, i: nat): (r: Result<Value>)
    ensures r.Err? <==> v.Undefined? || v.Null?
    ensures v.Arr? && i < |v.items| ==> r == Ok(v.items[i])
    ensures v.Arr? && i >= |v.items| ==> r == Ok(Undefined)
  {
    match v
    case Undefined => Err(TypeError)
    case Null => Err(TypeError)
    case Arr(items) => Ok(if i < |items| then items[i] else Undefined)
    case Str(s) => Ok(if i < |s| then Str([s[i]]) else Undefined)
    case Obj(fields) => Ok(if NatToString(i) in fields then fields[NatToString(i)] else Undefined)
    case _ => Ok(Undefined)
  }

  /** `o[key]` on a property map: undefined when the key is absent. */
  function Get(o: map<string, Value>, key: string): Value {
    if key in o then o[key] else Undefined
  }
}
