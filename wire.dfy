/** The messages that travel over a websocket connection, as the program sees them after `json.loads`. */
module Wire {

  /** A decoded JSON value. Numbers are integers here; JSON objects map string keys to values. */
  datatype Json =
    | JNull
    | JBool(b: bool)
    | JNumber(n: int)
    | JString(s: string)
    | JArray(items: seq<Json>)
    | JObject(fields: map<string, Json>)

  /** One text frame received from the peer: either it is not JSON (`json.loads` raises
      `JSONDecodeError`) or it decodes to a value. Decoding itself is not modelled. */
  datatype Inbound = NonJson(raw: string) | Parsed(value: Json)

  /** True of the values Python can look up in a set: lists and dicts are unhashable. */
  predicate Hashable(v: Json)
  {
    !v.JArray? && !v.JObject?
  }
}
