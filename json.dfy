/** JavaScript values as the server handles them: the parsed JSON records it
    keeps for proofs and for extracted bags, JavaScript truthiness, the `||`
    default operator and `String(v)`. */
module Json {
  import opened Wrappers

  /** A scalar JSON value. Numbers are integers in this model. */
  datatype Value = Null | Bool(b: bool) | Num(n: int) | Str(s: string)

  /** A JavaScript object with scalar fields; a missing key is `undefined`. */
  type Obj = map<string, Value>

  /** `o[k]`: `None` stands for `undefined`. */
  function Field(o: Obj, k: string): (r: Option<Value>)
    ensures r.Some? <==> k in o
    ensures r.Some? ==> r.value == o[k]
  {
    if k in o then Some(o[k]) else None
  }

  /** JavaScript truthiness of a value: `null`, `false`, `0` and `""` are falsy. */
  predicate Truthy(v: Value)
  {
    match v
    case Null => false
    case Bool(b) => b
    case Num(n) => n != 0
    case Str(s) => s != ""
  }

  /** Truthiness of a possibly `undefined` value. */
  predicate Defined(o: Option<Value>)
  {
    o.Some? && Truthy(o.value)
  }

  /** `o || d`: the value itself when truthy, the default otherwise. */
  function Or(o: Option<Value>, d: Value): (r: Value)
    ensures Defined(o) ==> r == o.value
    ensures !Defined(o) ==> r == d
  {
    if Defined(o) then o.value else d
  }

  /** `{...o, k: v}` where `v` may be `undefined` (then the key is dropped, as
      `JSON.stringify` does when the record is written). */
  function SetField(o: Obj, k: string, v: Option<Value>): (r: Obj)
    ensures Field(r, k) == v
    ensures forall j :: j != k ==> Field(r, j) == Field(o, j)
  {
    if v.Some? then o[k := v.value] else o - {k}
  }

  /** The decimal digit for `d`. */
  function DigitChar(d: int): char
    requires 0 <= d < 10
  {
    "0123456789"[d]
  }

  /** The decimal form of a natural number, as `String(n)` prints it. */
  function NatToDecimal(n: nat): (r: string)
    ensures |r| >= 1
    ensures forall i :: 0 <= i < |r| ==> '0' <= r[i] <= '9'
    decreases n
  {
    if n < 10 then [DigitChar(n)] else NatToDecimal(n / 10) + [DigitChar(n % 10)]
  }

  /** `String(n)` for an integer, in plain decimal digits. JavaScript numbers
      are doubles: `String` switches to exponent form from 1e21 on, and an
      integer above 2^53 is not held exactly; the model has neither limit. */
  function IntToDecimal(n: int): (r: string)
    ensures r != ""
    ensures n < 0 <==> r[0] == '-'
  {
    if n < 0 then "-" + NatToDecimal(-n) else NatToDecimal(n)
  }

  /** `String(v)`, the property key a value becomes when it indexes an object. */
  function ToKey(v: Value): (r: string)
    ensures v.Str? ==> r == v.s
    ensures Truthy(v) ==> r != ""
  {
    match v
    case Null => "null"
    case Bool(b) => if b then "true" else "false"
    case Num(n) => IntToDecimal(n)
    case Str(s) => s
  }
}
