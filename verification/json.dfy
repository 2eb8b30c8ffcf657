/** A JSON document as `json.load` returns it: objects are insertion-ordered dicts. */
module Json {
  import opened Wrappers
  import opened Dicts

  datatype Json =
    | Null
    | Bool(b: bool)
    | Num(n: real)
    | Str(s: string)
    | Arr(items: seq<Json>)
    | Obj(entries: Entries<string, Json>)

  /** `j[key]` when `j` is an object holding `key`; nothing otherwise. */
  function Member(j: Json, key: string): (r: Option<Json>)
    ensures r.Some? <==> j.Obj? && key in Keys(j.entries)
  {
    if j.Obj? then Get(j.entries, key) else None
  }
}
