/** The JavaScript primitive values the relay compares, stores and coerces. */
module JsValues {

  datatype Option<T> = None | Some(value: T)

  /** A JSON/JavaScript primitive. Numbers are modelled by their integer values. */
  datatype Value = Undefined | Null | Bool(b: bool) | Num(n: int) | Str(s: string)

  /** JavaScript truthiness, the test behind `x || fallback` and `if (x)`. */
  predicate Truthy(v: Value)
  {
    match v
    case Undefined => false
    case Null => false
    case Bool(b) => b
    case Num(n) => n != 0
    case Str(s) => s != ""
  }

  /** Decimal digits of a natural number. */
  function NatToString(n: nat): (r: string)
    ensures |r| >= 1
    ensures forall k :: 0 <= k < |r| ==> '0' <= r[k] <= '9'
    decreases n
  {
    var d := ['0' + (n % 10) as char];
    if n < 10 then d else NatToString(n / 10) + d
  }

  /** `String(v)`. */
  function ToJsString(v: Value): string
  {
    match v
    case Undefined => "undefined"
    case Null => "null"
    case Bool(b) => if b then "true" else "false"
    case Num(n) => if n < 0 then "-" + NatToString(-n) else NatToString(n)
    case Str(s) => s
  }

  /** `String(v || fallback)`, the coercion applied to every forwarded log field. */
  function StringOr(v: Value, fallback: string): (r: string)
    ensures Truthy(v) && v.Str? ==> r == v.s
    ensures !Truthy(v) ==> r == fallback
    ensures Truthy(v) ==> r != ""
  {
    if Truthy(v) then ToJsString(v) else fallback
  }
}
