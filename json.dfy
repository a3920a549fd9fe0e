/**
 * The JSON values the session store keeps one per line and the session
 * service takes as parameters and returns (serde_json::Value), with the three
 * accessors the service uses: `get`, `as_str` and `as_u64`.  Numbers are
 * integers only.
 */
module Json {
  import opened Wrappers

  datatype Value =
    | Null
    | Bool(b: bool)
    | Number(n: int)
    | Str(s: string)
    | Array(items: seq<Value>)
    | Object(fields: map<string, Value>)

  const U64_LIMIT: int := 0x1_0000_0000_0000_0000

  /** `value.get(name)`: the field of an object, None for a missing field or a non-object. */
  function Get(value: Value, name: string): (r: Option<Value>)
    ensures r.Some? <==> value.Object? && name in value.fields
    ensures r.Some? ==> r.value == value.fields[name]
  {
    if value.Object? && name in value.fields then Some(value.fields[name]) else None
  }

  /** `v.as_str()`: the text of a JSON string, None for anything else. */
  function AsStr(v: Value): (r: Option<string>)
    ensures r.Some? <==> v.Str?
    ensures r.Some? ==> r.value == v.s
  {
    if v.Str? then Some(v.s) else None
  }

  /** `v.as_u64()`: a number that fits an unsigned 64-bit integer, None for anything else. */
  function AsU64(v: Value): (r: Option<nat>)
    ensures r.Some? <==> v.Number? && 0 <= v.n < U64_LIMIT
    ensures r.Some? ==> r.value == v.n && r.value < U64_LIMIT
  {
    if v.Number? && 0 <= v.n < U64_LIMIT then Some(v.n) else None
  }

  /** An optional string, as `json!` writes an `Option<String>`. */
  function OptStr(s: Option<string>): Value {
    if s.Some? then Str(s.value) else Null
  }
}
