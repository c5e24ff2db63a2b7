/** JSON values and row bodies, as the store holds them after `JSON.stringify`. */
module JsonValues {
  import opened Wrappers
  import opened Doubles

  datatype Json =
    | Null
    | Bool(b: bool)
    | Num(n: JsonNumber)
    | Str(s: string)
    | Arr(items: seq<Json>)
    | Obj(fields: map<string, Json>)

  /** A row body. A key whose value is `undefined` is not in the map: `JSON.stringify` drops it. */
  type Body = map<string, Json>

  function Get(body: Body, key: string): Option<Json> {
    if key in body then Some(body[key]) else None
  }

  /** `value ?? null` */
  function OrNull(value: Option<Json>): Json {
    value.GetOr(Null)
  }

  function Without(body: Body, key: string): (rest: Body)
    ensures key !in rest
    ensures forall k | k != key :: Get(rest, k) == Get(body, k)
  {
    map k | k in body && k != key :: body[k]
  }
}
