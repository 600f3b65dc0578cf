/** An already-decoded JSON value (serde_json's `Value`) and the two accessors the
    protocol decoder uses on it. Lexing is not modelled: a line either decoded
    to a value or it did not. */
module Json {
  import opened Base

  datatype Json =
    | JNull
    | JBool(b: bool)
    | JNumber(n: int)
    | JString(s: string)
    | JArray(items: seq<Json>)
    | JObject(fields: map<string, Json>)

  /** `Value::get(&str)`: a field of an object; `None` for a missing key and
      for every value that is not an object. */
  function Get(v: Json, key: string): (r: Option<Json>)
    ensures r.Some? <==> v.JObject? && key in v.fields
    ensures r.Some? ==> r.value == v.fields[key]
  {
    match v
    case JObject(fields) => if key in fields then Some(fields[key]) else None
    case _ => None
  }

  /** `Value::as_str`: the text of a string value, `None` for any other value. */
  function AsStr(v: Json): (r: Option<string>)
    ensures r.Some? <==> v.JString?
    ensures r.Some? ==> r.value == v.s
  {
    match v
    case JString(s) => Some(s)
    case _ => None
  }

  /** `get(key).and_then(as_str)`: a string field, looked up in one step. */
  function StrField(v: Option<Json>, key: string): (r: Option<string>)
    ensures r.Some? <==> v.Some? && Get(v.value, key).Some? && Get(v.value, key).value.JString?
    ensures r.Some? ==> r.value == v.value.fields[key].s
  {
    match v
    case None => None
    case Some(inner) =>
      match Get(inner, key)
      case None => None
      case Some(field) => AsStr(field)
  }
}
