/** The values `json.loads` can return, as far as the pipeline looks at them,
    and Python's truthiness for them (`if data:`). Parsing and serialising are
    not modelled: the pipeline receives parsing as a function argument. */
module Json {

  datatype Json =
    | Null
    | Bool(b: bool)
      /** A finite number, mantissa * 10^exponent. */
    | Number(mantissa: int, exponent: int)
      /** `NaN`, `Infinity` or `-Infinity`, which `json.loads` accepts. */
    | NonFinite
    | Str(s: string)
    | Array(items: seq<Json>)
    | Object(members: seq<(string, Json)>)

  /** Python's `bool(v)` for the value `json.loads` returns: false exactly for
      `None`, `False`, a zero and an empty string, array or object. */
  predicate Truthy(v: Json)
    ensures !Truthy(v) <==>
      || v == Null || v == Bool(false) || (v.Number? && v.mantissa == 0)
      || v == Str("") || v == Array([]) || v == EmptyObject
  {
    match v
    case Null => false
    case Bool(b) => b
    case Number(m, _) => m != 0
    case NonFinite => true
    case Str(s) => s != ""
    case Array(items) => items != []
    case Object(members) => members != []
  }

  /** The empty object `{}`, which is falsy. */
  const EmptyObject: Json := Object([])

  /** The text of the empty object. */
  const EmptyObjectText: string := "{}"
}
