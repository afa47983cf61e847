/**
 * The value `JSON.parse` returns, and the property reads the front end performs on it.
 * The parser itself belongs to the JavaScript runtime and is not part of this model:
 * wherever the source calls it, the model takes a `JsonParser` as a parameter.
 */
module Json {
  import opened Wrappers

  datatype JsonValue =
    | JNull
    | JBool(b: bool)
    | JNumber(n: real)
    | JString(s: string)
    | JArray(items: seq<JsonValue>)
    | JObject(fields: map<string, JsonValue>)

  /** `JSON.parse` as an uninterpreted function: `None` when it throws a `SyntaxError`. */
  type JsonParser = string -> Option<JsonValue>

  /**
   * `v.key` for a key that is not an array index, not `length` and not inherited from a
   * prototype: present only on an object that has that key (`None` is `undefined`).
   * Reading a property of `null` throws instead; callers handle that case first.
   */
  function Get(v: JsonValue, key: string): (r: Option<JsonValue>)
    ensures r.Some? <==> v.JObject? && key in v.fields
    ensures r.Some? ==> r.value == v.fields[key]
  {
    if v.JObject? && key in v.fields then Some(v.fields[key]) else None
  }

  /** `Array.isArray(v.key)`. */
  predicate IsArrayAt(v: JsonValue, key: string) {
    Get(v, key).Some? && Get(v, key).value.JArray?
  }

  /** `t` is what the field `key` of `v` reads as text: its string, or `""` when it is missing or not a string. */
  predicate ReadsAsText(v: JsonValue, key: string, t: string) {
    Get(v, key) == Some(JString(t)) || (t == "" && (Get(v, key).None? || !Get(v, key).value.JString?))
  }

  /**
   * The text a string-typed field is read as when the value is used at its declared
   * TypeScript type: the string itself, and `""` for an absent or non-string value.
   */
  function TextAt(v: JsonValue, key: string): (t: string)
    ensures ReadsAsText(v, key, t)
  {
    match Get(v, key)
    case Some(JString(s)) => s
    case _ => ""
  }
}
