/** JSON values as `serde_json::Value` holds them. The JSON text syntax is
    not interpreted. */
module Json {
  import opened Wrappers
  import opened Numbers

  datatype Number = PosInt(u: u64) | NegInt(i: int) | Float(f: F64)

  datatype Json =
    | Null
    | Bool(b: bool)
    | Num(n: Number)
    | Str(s: string)
    | Arr(items: seq<Json>)
    | Obj(fields: map<string, Json>)

  /** `Value::get(key)`: only an object has members. */
  function Get(j: Json, key: string): (r: Option<Json>)
    ensures r.Some? <==> j.Obj? && key in j.fields
  {
    if j.Obj? && key in j.fields then Some(j.fields[key]) else None
  }

  /** `Value::as_str` lifted over a lookup. */
  function AsStr(j: Option<Json>): Option<string> {
    if j.Some? && j.value.Str? then Some(j.value.s) else None
  }

  /** `Value::as_array` lifted over a lookup. */
  function AsArray(j: Option<Json>): Option<seq<Json>> {
    if j.Some? && j.value.Arr? then Some(j.value.items) else None
  }

  /** `Value::as_u64`: only a non-negative integer. */
  function AsU64(j: Json): Option<u64> {
    if j.Num? && j.n.PosInt? then Some(j.n.u) else None
  }
}
