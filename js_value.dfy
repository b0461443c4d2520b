/**
  The JavaScript values that reach the authentication code from a parsed request body
  or a user document: what `!x` makes of them and what `String(x)` prints.
*/
module JsValue {
  import opened JsString

  /** Numbers are integers here: fractions, NaN and the infinities are not modelled. */
  datatype Value = Undefined | Null | Bool(b: bool) | Number(n: int) | Text(s: string) | Object

  /** ToBoolean: false, 0, "", null and undefined are falsy; every object is truthy. */
  predicate Truthy(v: Value)
    ensures Truthy(v) <==> v != Undefined && v != Null && v != Bool(false) && v != Number(0) && v != Text("")
  {
    match v
    case Undefined => false
    case Null => false
    case Bool(b) => b
    case Number(n) => n != 0
    case Text(s) => s != ""
    case Object => true
  }

  /** String(v); a plain object prints as "[object Object]". */
  function ToText(v: Value): (r: string)
    ensures v.Text? ==> r == v.s
    ensures v.Number? ==> r != [] && (r[0] == '-' <==> v.n < 0)
  {
    match v
    case Undefined => "undefined"
    case Null => "null"
    case Bool(b) => if b then "true" else "false"
    case Number(n) => if n < 0 then "-" + Decimal(-n) else Decimal(n)
    case Text(s) => s
    case Object => "[object Object]"
  }
}
