/** Decoded JSON documents as `json_decode($text, true)` hands them to the
    core: nested PHP arrays of scalars. The core only ever reads integer
    numbers, so numbers are integers here. Text that does not decode is
    `JNull`, exactly what `json_decode` returns for it. */
module JsonValues {
  import Text

  datatype Json =
    | JNull
    | JBool(b: bool)
    | JNum(n: int)
    | JStr(s: string)
    | JArr(items: seq<Json>)
    | JObj(fields: map<string, Json>)

  /** `$a[$key]`: the member, or null when `$a` is no object or lacks it. */
  function Get(j: Json, key: string): (r: Json)
    ensures j.JObj? && key in j.fields ==> r == j.fields[key]
    ensures !(j.JObj? && key in j.fields) ==> r == JNull
  {
    if j.JObj? && key in j.fields then j.fields[key] else JNull
  }

  /** `$a[$i]` on a list: the item, or null past its end. */
  function At(j: Json, i: nat): (r: Json)
    ensures j.JArr? && i < |j.items| ==> r == j.items[i]
    ensures !(j.JArr? && i < |j.items|) ==> r == JNull
  {
    if j.JArr? && i < |j.items| then j.items[i] else JNull
  }

  /** What `foreach` visits: the items of a list. Anything else (null,
      a scalar) is visited as no items at all, as PHP does after its
      "invalid argument" warning. */
  function Items(j: Json): seq<Json> {
    if j.JArr? then j.items else []
  }

  /** PHP's `(string)` cast of a decoded value: null and false print as
      the empty string, true as "1", an array as "Array". */
  function AsText(j: Json): (r: string)
    ensures j.JStr? ==> r == j.s
    ensures j.JNull? ==> r == ""
  {
    match j
    case JNull => ""
    case JBool(b) => if b then "1" else ""
    case JNum(n) => Text.IntText(n)
    case JStr(s) => s
    case JArr(_) => "Array"
    case JObj(_) => "Array"
  }

  /** `isset($a[$key])`: the member exists and is not null. */
  predicate IsSet(j: Json, key: string) {
    Get(j, key) != JNull
  }

  /** A list of strings. */
  function Strings(xs: seq<string>): (r: Json)
    ensures r.JArr? && |r.items| == |xs|
    ensures forall i :: 0 <= i < |xs| ==> r.items[i] == JStr(xs[i])
  {
    JArr(seq(|xs|, i requires 0 <= i < |xs| => JStr(xs[i])))
  }
}
