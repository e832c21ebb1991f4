/** JSON documents as Python's `json.loads` returns them, with the equality and type
    tests the gates apply.  Non-finite floats are not part of the model. */
module Json {
  import opened Results

  datatype Json =
    | Null
    | Bool(b: bool)
    | Int(n: int)
    | Float(x: real)
    | Str(s: string)
    | Arr(items: seq<Json>)
    | Obj(fields: Object)

  type Object = map<string, Json>

  /** `dict.get` */
  function Get(o: Object, key: string): Json {
    if key in o then o[key] else Null
  }

  /** The value of a number; in Python a bool is one. */
  function Number(v: Json): Option<real> {
    match v
    case Bool(b) => Some(if b then 1.0 else 0.0)
    case Int(n) => Some(n as real)
    case Float(x) => Some(x)
    case _ => None
  }

  /** `v == n` for an integer literal: 1, 1.0 and True are equal. */
  predicate EqInt(v: Json, n: int) {
    Number(v) == Some(n as real)
  }

  /** `isinstance(v, int) and not isinstance(v, bool) and v >= minimum` */
  predicate IsInt(v: Json, minimum: int) {
    v.Int? && minimum <= v.n
  }

  /** `[0-9a-f]{64}\Z` */
  predicate IsSha256(s: string) {
    |s| == 64 && forall i | 0 <= i < 64 :: '0' <= s[i] <= '9' || 'a' <= s[i] <= 'f'
  }

  type Sha256 = s: string | IsSha256(s) witness seq(64, _ => '0')
}
