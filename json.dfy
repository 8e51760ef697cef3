/** The values the application keeps in local storage, as JSON.parse gives
    them back: null, strings, arrays and objects with ordered keys.
    Two values are "the same record" when their JSON texts are equal; for
    these values that is structural equality. */
module Json {
  import opened Objects

  datatype Value =
    | Null
    | Str(s: string)
    | Arr(items: seq<Value>)
    | Obj(entries: Entries<Value>)

  /** `Array.isArray(value) ? value : [value]` */
  function AsList(v: Value): seq<Value> {
    if v.Arr? then v.items else [v]
  }
}
