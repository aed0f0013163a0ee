/**
 * Decoded JSON, as Go's `encoding/json` produces it into `interface{}`: nil, bool, float64,
 * string, `[]interface{}` and `map[string]interface{}`.
 *
 * An object is an association list. Its order is the order in which a `range` loop over the
 * decoded Go map visits the members; Go leaves that order unspecified, so every member of the
 * model that depends on it takes it as part of its input. Go maps have distinct keys; a lookup
 * here finds the first member with the key.
 */
module Json {
  import opened Strings

  datatype Json =
    | JNull
    | JBool(b: bool)
    | JNum(num: real)
    | JStr(str: string)
    | JArr(items: seq<Json>)
    | JObj(members: seq<(string, Json)>)

  /** The index of the first member named `key`, or -1: the model of `m[key]`'s `ok` result. */
  function Find(ms: seq<(string, Json)>, key: string): (r: int)
    ensures -1 <= r < |ms|
    ensures r >= 0 ==> ms[r].0 == key && forall k :: 0 <= k < r ==> ms[k].0 != key
    ensures r < 0 ==> forall k :: 0 <= k < |ms| ==> ms[k].0 != key
    decreases |ms|
  {
    if |ms| == 0 then -1
    else if ms[0].0 == key then 0
    else
      var r := Find(ms[1..], key);
      if r < 0 then -1 else r + 1
  }

  predicate HasKey(ms: seq<(string, Json)>, key: string) {
    Find(ms, key) >= 0
  }

  /**
   * `fmt.Sprintf("%v", v)` of a decoded value. Strings, nil, booleans and the integral numbers
   * below one million (which `%v` prints as plain integers) are rendered as Go renders them;
   * other numbers, arrays and objects are not modelled and render as "".
   */
  function Stringify(v: Json): string {
    match v
    case JStr(s) => s
    case JNull => "<nil>"
    case JBool(b) => if b then "true" else "false"
    case JNum(n) =>
      if n == n.Floor as real && -1000000 < n.Floor < 1000000 then IntToString(n.Floor) else ""
    case _ => ""
  }
}
