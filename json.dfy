/**
 * Decoded JSON values, as they reach the Python code (from a `jsonb` column or
 * `request.get_json()`) and the browser script (from `fetch(...).json()` or `JSON.parse`).
 * Only integers are modelled among numbers.
 */
module Json {
  import opened Text

  datatype Json =
    | JNull
    | JBool(b: bool)
    | JNum(n: int)
    | JStr(s: string)
    | JArr(items: seq<Json>)
    | JObj(fields: seq<(string, Json)>)

  /** Python `list(d.values())` and JavaScript `Object.values(o)`, in the object's key order. */
  function Values(fields: seq<(string, Json)>): (vs: seq<Json>)
    ensures |vs| == |fields|
    ensures forall i :: 0 <= i < |fields| ==> vs[i] == fields[i].1
  {
    seq(|fields|, i requires 0 <= i < |fields| => fields[i].1)
  }

  /**
   * Python `d.get(key)` on a decoded JSON object: the value of the last member with that
   * key (later duplicates win), JNull when there is none.
   */
  function GetField(fields: seq<(string, Json)>, key: string): (v: Json)
    ensures v != JNull ==> exists i :: 0 <= i < |fields| && fields[i] == (key, v)
    ensures (forall i :: 0 <= i < |fields| ==> fields[i].0 != key) ==> v == JNull
  {
    if fields == [] then JNull
    else if fields[|fields| - 1].0 == key then fields[|fields| - 1].1
    else GetField(fields[..|fields| - 1], key)
  }

  /** Python truthiness of a decoded JSON value (`bool(v)`): empty containers are false. */
  predicate PyTruthy(j: Json) {
    match j
    case JNull => false
    case JBool(b) => b
    case JNum(n) => n != 0
    case JStr(s) => s != ""
    case JArr(items) => items != []
    case JObj(fields) => fields != []
  }

  /** JavaScript truthiness (`Boolean(v)`). */
  predicate Truthy(j: Json) {
    match j
    case JNull => false
    case JBool(b) => b
    case JNum(n) => n != 0
    case JStr(s) => s != ""
    case JArr(_) => true
    case JObj(_) => true
  }

  /** JavaScript `xs.filter(Boolean)`: the truthy elements, in order. */
  function FilterTruthy(xs: seq<Json>): (r: seq<Json>)
    ensures |r| <= |xs|
    ensures forall x :: x in r ==> Truthy(x) && x in xs
    ensures forall x :: x in xs && Truthy(x) ==> x in r
  {
    if xs == [] then []
    else (if Truthy(xs[0]) then [xs[0]] else []) + FilterTruthy(xs[1..])
  }

  /**
   * JavaScript `String(v)`. An array prints as its elements joined by commas, with
   * `null` elements printed as nothing; any other object prints as "[object Object]".
   */
  function JsString(j: Json): string
    decreases j
  {
    match j
    case JNull => "null"
    case JBool(b) => if b then "true" else "false"
    case JNum(n) => IntString(n)
    case JStr(s) => s
    case JArr(items) =>
      Join(seq(|items|, i requires 0 <= i < |items| =>
                 if items[i].JNull? then "" else JsString(items[i])), ',')
    case JObj(_) => "[object Object]"
  }
}
