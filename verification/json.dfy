/** JSON values as `encoding/json` decodes them into `interface{}`, and
    the outcome of decoding into a `map[string]interface{}`. The decoder
    itself is not modelled: operations that decode take it as a
    parameter. */
module Json {
  import opened Wrappers

  datatype Json =
    | JNull
    | JBool(b: bool)
    | JNum(repr: string)
    | JStr(s: string)
    | JArr(items: seq<Json>)
    | JObj(fields: map<string, Json>)

  /** `json.Unmarshal(data, &m)` with `m` a map: text that is not JSON, or
      JSON that is not an object or `null`, is an error; `null` succeeds
      and leaves the map nil; an object fills it. */
  datatype Decoded = Invalid | NullValue | Object(fields: map<string, Json>)

  /** `m[key].(string)` with the comma-ok form: present and a string. */
  function StringField(m: map<string, Json>, key: string): (r: Option<string>)
    ensures r.Some? <==> key in m && m[key].JStr?
    ensures r.Some? ==> m[key] == JStr(r.value)
  {
    if key in m && m[key].JStr? then Some(m[key].s) else None
  }

  /** The fields a successful decode yields; a nil map reads as empty. */
  function FieldsOf(d: Decoded): map<string, Json>
    requires !d.Invalid?
  {
    if d.Object? then d.fields else map[]
  }
}
