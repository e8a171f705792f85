/** The JSON values Python's `json` module decodes, as seen by the core's validators. */
module Json {

  /** A decoded JSON value; objects are dictionaries, numbers are `int` or `float`. */
  datatype Value =
    | Null
    | Bool(b: bool)
    | Int(i: int)
    | Float(f: real)
    | Str(s: string)
    | Arr(items: seq<Value>)
    | Obj(fields: map<string, Value>)

  /** `d.get(key)`: a missing key reads as None. */
  function Get(fields: map<string, Value>, key: string): (r: Value)
    ensures key !in fields ==> r == Null
    ensures key in fields ==> r == fields[key]
  {
    if key in fields then fields[key] else Null
  }

  function Pow2(n: nat): (r: nat)
    ensures r >= 1
  {
    if n == 0 then 1 else 2 * Pow2(n - 1)
  }

  /**
   * The least integer `float()` refuses with OverflowError: 2^1024 - 2^970,
   * half an ulp above the largest finite double, from where rounding to
   * nearest (ties to even) would give infinity.
   */
  const FloatOverflow: int := Pow2(1024) - Pow2(970)

  /** An `int` that `float()` converts, rather than raising OverflowError. */
  predicate FitsFloat(i: int) {
    -FloatOverflow < i < FloatOverflow
  }

  /** Python truthiness of a decoded value. */
  predicate Truthy(v: Value) {
    match v
    case Null => false
    case Bool(b) => b
    case Int(i) => i != 0
    case Float(f) => f != 0.0
    case Str(s) => s != ""
    case Arr(items) => items != []
    case Obj(fields) => fields != map[]
  }
}
