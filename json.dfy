/** JavaScript values as they reach the JSON response of the upload service. */
module Json {
  import opened Wrappers

  /** A JSON value. Numbers are restricted to integers. */
  datatype Json =
    | JNull
    | JBool(b: bool)
    | JNum(n: int)
    | JStr(s: string)
    | JArr(items: seq<Json>)
    | JObj(fields: map<string, Json>)

  /** A record of the response: a JavaScript object with string keys. */
  type Record = map<string, Json>

  /** JavaScript truthiness of a JSON value: `null`, `false`, `0` and `""` are falsy. */
  predicate Truthy(v: Json)
  {
    match v
    case JNull => false
    case JBool(b) => b
    case JNum(n) => n != 0
    case JStr(s) => s != ""
    case JArr(_) => true
    case JObj(_) => true
  }

  /** The empty array `[]`, the default for a record family. */
  const EmptyArray: Json := JArr([])

  /**
   * Reading property `key` of a value, `v.key`: an object yields its own
   * property or `undefined` (None); a string, number, boolean or array has
   * no such property and also yields `undefined`; reading a property of
   * `null` throws a TypeError.
   */
  function Property(v: Json, key: string): (r: Result<Option<Json>, string>)
    ensures r.Err? <==> v == JNull
    ensures r.Ok? && r.value.Some? <==> v.JObj? && key in v.fields
    ensures r.Ok? && r.value.Some? ==> r.value.value == v.fields[key]
  {
    match v
    case JNull => Err("TypeError: Cannot read properties of null")
    case JObj(m) => Ok(if key in m then Some(m[key]) else None)
    case _ => Ok(None)
  }

  /** `p || []`: a truthy property value, or the empty array for `undefined` and falsy values. */
  function OrEmptyArray(p: Option<Json>): (r: Json)
    ensures Truthy(r)
    ensures p.Some? && Truthy(p.value) ==> r == p.value
    ensures (p.None? || !Truthy(p.value)) ==> r == EmptyArray
  {
    if p.Some? && Truthy(p.value) then p.value else EmptyArray
  }
}
