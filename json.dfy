/**
 * The JSON values that a language-model reply decodes to, as the Python
 * code sees them after json.loads: None, booleans, numbers, strings, lists
 * and dictionaries, with Python's truthiness, dict.get and str().
 */
module Json {
  import opened Text

  /** A number keeps the literal text it was written with. */
  datatype Value =
    | Null
    | Bool(b: bool)
    | Num(literal: string)
    | Str(s: string)
    | List(items: seq<Value>)
    | Obj(fields: map<string, Value>)

  /** A dictionary as the extractors pass them around. */
  type Dict = map<string, Value>

  /** A numeric literal denotes zero when its mantissa has no non-zero digit. */
  predicate NumNonZero(t: string) {
    if t == [] then false
    else if t[0] == 'e' || t[0] == 'E' then false
    else ('1' <= t[0] <= '9') || NumNonZero(t[1..])
  }

  /** Python truthiness: None, False, 0, "", [] and {} are false. */
  predicate Truthy(v: Value) {
    match v
    case Null => false
    case Bool(b) => b
    case Num(t) => NumNonZero(t)
    case Str(s) => s != []
    case List(xs) => xs != []
    case Obj(m) => m != map[]
  }

  /** dict.get(k): None when the key is absent. */
  function Get(m: Dict, k: string): (r: Value)
    ensures k !in m ==> r == Null
  {
    if k in m then m[k] else Null
  }

  /** dict.get(k, default) */
  function GetOr(m: Dict, k: string, default: Value): (r: Value)
    ensures k !in m ==> r == default
  {
    if k in m then m[k] else default
  }

  /** Python's repr() of a value nested inside a list. */
  function Repr(v: Value): string
    decreases v
  {
    match v
    case Null => "None"
    case Bool(b) => if b then "True" else "False"
    case Num(t) => t
    case Str(s) => "'" + s + "'"
    case List(_) => "[" + ReprItems(v, 0) + "]"
    case Obj(_) => "{...}"
  }

  function ReprItems(v: Value, i: nat): string
    requires v.List?
    decreases v, |v.items| - i
  {
    if i >= |v.items| then ""
    else (if i > 0 then ", " else "") + Repr(v.items[i]) + ReprItems(v, i + 1)
  }

  /** str(v): a string is itself, anything else its repr. */
  function PyStr(v: Value): (r: string)
    ensures v.Str? ==> r == v.s
    ensures v == Null ==> r == "None"
  {
    if v.Str? then v.s else Repr(v)
  }

  /** A list of strings as a JSON list. */
  function StrList(xs: seq<string>): (r: Value)
    ensures r.List? && |r.items| == |xs|
    ensures forall i :: 0 <= i < |xs| ==> r.items[i] == Str(xs[i])
  {
    List(seq(|xs|, i requires 0 <= i < |xs| => Str(xs[i])))
  }

  /** An optional string as the value Python stores for it (None or the string). */
  function OptStr(o: Option<string>): (r: Value)
    ensures o.None? ==> r == Null
    ensures o.Some? ==> r == Str(o.value)
  {
    if o.Some? then Str(o.value) else Null
  }

  /** The outcome of a Python call that either returns a value or raises. */
  datatype Outcome<T> = Returned(value: T) | Raised(error: string)
}
