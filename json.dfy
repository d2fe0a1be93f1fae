/** The parts of `serde_json::Value` the core inspects. An object is a
    sequence of members whose order is the iteration order of the parsed
    map. Distinct keys are not enforced: `Lookup` takes the first member
    with a key, so a parser passed in is expected to deliver each key once,
    as a `serde_json::Map` holds it. */
module JsonValue {
  import opened Wrappers

  datatype Json =
    | JNull
    | JBool(b: bool)
    | JNum(n: real)
    | JStr(s: string)
    | JArray(items: seq<Json>)
    | JObject(members: seq<(string, Json)>)

  /** No key occurs twice, as in a map. */
  predicate DistinctKeys<V>(members: seq<(string, V)>)
  {
    forall i, j :: 0 <= i < j < |members| ==> members[i].0 != members[j].0
  }

  /** Member lookup by key: the first member with that key. */
  function Lookup<V>(members: seq<(string, V)>, key: string): (r: Option<V>)
    ensures r.None? <==> forall i :: 0 <= i < |members| ==> members[i].0 != key
    ensures r.Some? ==> exists i :: 0 <= i < |members| && members[i] == (key, r.value)
  {
    if members == [] then None
    else if members[0].0 == key then Some(members[0].1)
    else
      var r := Lookup(members[1..], key);
      assert r.Some? ==> exists i :: 0 <= i < |members[1..]| && members[1..][i] == (key, r.value);
      r
  }

  /** `Value::get(key)`: a member of an object; nothing for any other value. */
  function Get(v: Json, key: string): Option<Json>
  {
    if v.JObject? then Lookup(v.members, key) else None
  }

  /** `Value::as_str`. */
  function AsStr(v: Json): Option<string>
  {
    if v.JStr? then Some(v.s) else None
  }

  /** `Value::as_array`. */
  function AsArray(v: Json): Option<seq<Json>>
  {
    if v.JArray? then Some(v.items) else None
  }

  /** `Value::as_object`. */
  function AsObject(v: Json): Option<seq<(string, Json)>>
  {
    if v.JObject? then Some(v.members) else None
  }

  /** `Value::as_f64`: every JSON number. */
  function AsF64(v: Json): Option<real>
  {
    if v.JNum? then Some(v.n) else None
  }

  /** The string member `key` of an object, `""` when it is missing or not a
      string: `obj.get(key).and_then(|v| v.as_str()).unwrap_or("")`. */
  function StrMember(members: seq<(string, Json)>, key: string): string
  {
    var v := Lookup(members, key);
    if v.Some? && v.value.JStr? then v.value.s else ""
  }
}
