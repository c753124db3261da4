/** JSON values as the document parser of the repository sees them. */
module Json {
  import opened Wrappers

  /** Integers that arrive as integers; anything wider is parsed as a floating-point number. */
  type number = n: int | -0x8000_0000_0000_0000 <= n < 0x1_0000_0000_0000_0000

  datatype Json =
    | Null
    | Bool(b: bool)
    | Float(x: real)
    | Int(n: number)
    | String(s: string)
    | Array(elems: seq<Json>)
    | Object(fields: map<string, Json>)

  /** Reading an integer as `int64_t`: the upper half of the unsigned range becomes negative. */
  function AsInt64(n: number): (i: int)
    ensures n < 0x8000_0000_0000_0000 ==> i == n
    ensures n >= 0x8000_0000_0000_0000 ==> i < 0
  {
    if n >= 0x8000_0000_0000_0000 then n - 0x1_0000_0000_0000_0000 else n
  }

  function RequireField(j: Json, key: string): Option<Json> {
    if j.Object? && key in j.fields then Some(j.fields[key]) else None
  }

  function RequireInt(j: Json, key: string): Option<int> {
    if j.Object? && key in j.fields && j.fields[key].Int? then Some(AsInt64(j.fields[key].n)) else None
  }

  function RequireString(j: Json, key: string): Option<string> {
    if j.Object? && key in j.fields && j.fields[key].String? then Some(j.fields[key].s) else None
  }
}
