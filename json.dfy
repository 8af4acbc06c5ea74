/** Decoded JSON values. They stand for what `json.loads` returns, for the dictionaries
    the services pass around and for the field values an Airtable record holds. Python's
    `None` is `JNull`. */
module Json {
  import opened Wrappers

  datatype JsonValue =
    | JNull
    | JBool(b: bool)
    | JInt(i: int)
    | JFloat(f: real)
    | JStr(s: string)
    | JList(items: seq<JsonValue>)
    | JObject(fields: map<string, JsonValue>)

  /** `json.loads` is not modelled: callers receive it as a function that either decodes
      the text or fails with the decoder's message. */
  type Parser = string -> Result<JsonValue, string>

  /** Python's truthiness (`if value:`) of a decoded value. */
  predicate Truthy(v: JsonValue)
  {
    match v
    case JNull => false
    case JBool(b) => b
    case JInt(i) => i != 0
    case JFloat(f) => f != 0.0
    case JStr(s) => s != ""
    case JList(items) => items != []
    case JObject(fields) => fields != map[]
  }

  /** The integer that Python's `+` and `-` see in a decoded value: an integer itself,
      a boolean as 0 or 1; `None` for every other value. */
  function ArithInt(v: JsonValue): (r: Option<int>)
    ensures v.JInt? <==> r.Some? && !v.JBool?
    ensures v.JInt? ==> r == Some(v.i)
    ensures v.JBool? ==> r == Some(if v.b then 1 else 0)
  {
    match v
    case JInt(i) => Some(i)
    case JBool(b) => Some(if b then 1 else 0)
    case _ => None
  }

  /** `d.get(key, default)`. */
  function Get(d: map<string, JsonValue>, key: string, default: JsonValue): (v: JsonValue)
    ensures key in d ==> v == d[key]
    ensures key !in d ==> v == default
  {
    if key in d then d[key] else default
  }
}
