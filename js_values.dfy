/** Loosely typed JavaScript values as they appear in Firestore records and uploaded JSON. */
module JsValues {
  import opened JsStrings

  /** A property value. `Undefined` is also what reading an absent key yields; numbers are
      integers (prices in pence); `ServerTimestamp` is Firestore's server-side time sentinel. */
  datatype JsValue = Undefined | Null | Bool(b: bool) | Num(n: int) | Str(s: string) | ServerTimestamp | Object

  /** JavaScript truthiness. */
  predicate Truthy(v: JsValue)
  {
    match v
    case Undefined => false
    case Null => false
    case Bool(b) => b
    case Num(n) => n != 0
    case Str(s) => s != ""
    case ServerTimestamp => true
    case Object => true
  }

  /** A plain object; a key that is absent reads as `undefined`. */
  type Record = map<string, JsValue>

  function Get(r: Record, key: string): (v: JsValue)
    ensures key !in r ==> v == Undefined
    ensures key in r ==> v == r[key]
  {
    if key in r then r[key] else Undefined
  }

  predicate Defined(r: Record, key: string)
  {
    Get(r, key) != Undefined
  }

  /** `String(v)`, the property key a value is converted to when used as an index. */
  function PropertyKey(v: JsValue): (k: string)
    ensures v.Str? ==> k == v.s
  {
    match v
    case Undefined => "undefined"
    case Null => "null"
    case Bool(b) => if b then "true" else "false"
    case Num(n) => IntToString(n)
    case Str(s) => s
    case ServerTimestamp => "[object Object]"
    case Object => "[object Object]"
  }
}
