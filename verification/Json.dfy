/** JSON values, and the lenient readings that json-glib offers of them. */
module Json {
  import opened Common

  datatype Json =
    | Null
    | Bool(b: bool)
    | Int(n: int)
    | Str(s: string)
    | Arr(items: seq<Json>)
    | Obj(members: map<string, Json>)

  /** JSON_NODE_HOLDS_VALUE */
  predicate HoldsValue(j: Json) {
    j.Bool? || j.Int? || j.Str?
  }

  /** The string of a value, or NULL. */
  function StringOf(j: Json): Option<string> {
    if j.Str? then Some(j.s) else None
  }

  /** The integer of a value; what is not a number reads as zero. */
  function IntOf(j: Json): int {
    match j
    case Int(n) => n
    case Bool(b) => if b then 1 else 0
    case _ => 0
  }

  /** The truth of a value; what is not a boolean or a number reads as false. */
  function BoolOf(j: Json): bool {
    match j
    case Bool(b) => b
    case Int(n) => n != 0
    case _ => false
  }

  /** Member `key` is there and holds a value. */
  predicate HasValue(m: map<string, Json>, key: string) {
    key in m && HoldsValue(m[key])
  }

  /** Member `key` is a non-empty string. */
  predicate HasText(m: map<string, Json>, key: string) {
    HasValue(m, key) && m[key].Str? && m[key].s != ""
  }
}
