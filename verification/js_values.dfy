/**
 The loosely typed JavaScript values the job payloads are made of, with the
 truthiness the `||` and `&&` guards test and the `toString` conversion the
 payload applies to priorities and times.
 */
module JsValues {

  datatype Value = Undefined | Text(text: string) | Number(number: int) | Object(fields: map<string, Value>)

  /** `!!v`: the empty string, zero and `undefined` are falsy. */
  predicate Truthy(v: Value)
  {
    match v
    case Undefined => false
    case Text(s) => s != ""
    case Number(n) => n != 0
    case Object(_) => true
  }

  /** `o[key]`, `undefined` for a missing property. */
  function Get(o: map<string, Value>, key: string): Value
  {
    if key in o then o[key] else Undefined
  }

  function Digit(d: nat): char
    requires d < 10
  {
    "0123456789"[d]
  }

  /** Decimal digits of `n`, most significant first, without leading zeros. */
  function NatText(n: nat): (s: string)
    ensures |s| > 0
    ensures forall i :: 0 <= i < |s| ==> '0' <= s[i] <= '9'
    ensures n > 0 ==> s[0] != '0'
    decreases n
  {
    if n < 10 then [Digit(n)] else NatText(n / 10) + [Digit(n % 10)]
  }

  /** `v.toString()`, which throws on `undefined`. */
  function ToText(v: Value): string
    requires !v.Undefined?
  {
    match v
    case Text(s) => s
    case Number(n) => if n < 0 then "-" + NatText(-n) else NatText(n)
    case Object(_) => "[object Object]"
  }
}
