/** Decoded JSON as Go's encoding/json produces it when decoding into
    `interface{}`: every number becomes a float64, modelled here as a real. */
module Json {
  import opened Wrappers

  datatype Json =
    | JNull
    | JBool(b: bool)
    | JNumber(n: real)
    | JString(s: string)
    | JArray(elems: seq<Json>)
    | JObject(fields: map<string, Json>)

  /** `m[k].(string)` with the comma-ok form: absent or not a string gives None. */
  function StringAt(m: map<string, Json>, k: string): (r: Option<string>)
    ensures r.Some? <==> k in m && m[k].JString?
    ensures r.Some? ==> m[k] == JString(r.value)
  {
    if k in m && m[k].JString? then Some(m[k].s) else None
  }

  /** `m[k].(bool)` with the comma-ok form. */
  function BoolAt(m: map<string, Json>, k: string): (r: Option<bool>)
    ensures r.Some? <==> k in m && m[k].JBool?
    ensures r.Some? ==> m[k] == JBool(r.value)
  {
    if k in m && m[k].JBool? then Some(m[k].b) else None
  }

  /** `m[k].(float64)` with the comma-ok form. */
  function NumberAt(m: map<string, Json>, k: string): (r: Option<real>)
    ensures r.Some? <==> k in m && m[k].JNumber?
    ensures r.Some? ==> m[k] == JNumber(r.value)
  {
    if k in m && m[k].JNumber? then Some(m[k].n) else None
  }

  /** `m[k].(map[string]interface{})` with the comma-ok form. */
  function ObjectAt(m: map<string, Json>, k: string): (r: Option<map<string, Json>>)
    ensures r.Some? <==> k in m && m[k].JObject?
    ensures r.Some? ==> m[k] == JObject(r.value)
  {
    if k in m && m[k].JObject? then Some(m[k].fields) else None
  }
}
