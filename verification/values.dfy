/** The dynamic values that travel between the client and the store: JSON
    payload fields and spreadsheet cells, with the few JavaScript coercions the
    code relies on (truthiness, `||` defaults, `===`, `Number(v)`, `String(v)`). */
module Values {
  import opened Wrappers
  import Numbers

  /** A JavaScript value as it appears in a payload field or a cell. `NaN` is
      kept apart from the other numbers because it is falsy and never `===`
      to anything. */
  datatype Value =
    | Str(s: string)
    | Num(n: real)
    | NaN
    | Bool(b: bool)
    | Null
    | Undefined

  /** JavaScript truthiness: the empty string, zero, NaN, false, null and
      undefined are falsy. */
  predicate Truthy(v: Value) {
    match v
    case Str(s) => s != ""
    case Num(n) => n != 0.0
    case Bool(b) => b
    case _ => false
  }

  /** `v || fallback`. */
  function Or(v: Value, fallback: Value): (r: Value)
    ensures Truthy(v) ==> r == v
    ensures !Truthy(v) ==> r == fallback
  {
    if Truthy(v) then v else fallback
  }

  /** `a === b`: same type and value, and NaN equals nothing. */
  predicate StrictEquals(a: Value, b: Value) {
    a == b && !a.NaN?
  }

  /** `Number(v)`: numbers stay, text is read as a whole numeral (blank text
      is 0), booleans are 1 or 0, null is 0, and everything else is NaN. */
  function NumberOf(v: Value): (r: Value)
    ensures r.Num? || r.NaN?
    ensures v.Num? ==> r == v
  {
    match v
    case Num(_) => v
    case NaN => NaN
    case Bool(b) => Num(if b then 1.0 else 0.0)
    case Null => Num(0.0)
    case Undefined => NaN
    case Str(s) =>
      match Numbers.ToNumber(s)
      case Some(n) => Num(n)
      case None => NaN
  }

  /** `String(v)`. */
  function Text(v: Value): string
  {
    match v
    case Str(s) => s
    case Num(n) => Numbers.Show(n)
    case NaN => "NaN"
    case Bool(b) => if b then "true" else "false"
    case Null => "null"
    case Undefined => "undefined"
  }

  /** A JSON object, or a record built from a row: field name to value. */
  type Record = map<string, Value>

  /** `r[key]`, which is undefined for a missing field. */
  function Field(r: Record, key: string): Value
  {
    if key in r then r[key] else Undefined
  }

  /** `JSON.stringify` followed by `JSON.parse` on a number: NaN becomes null. */
  function JsonNumber(x: Option<real>): (v: Value)
    ensures x.Some? ==> v == Num(x.value)
    ensures x.None? ==> v == Null
  {
    match x
    case Some(n) => Num(n)
    case None => Null
  }
}
