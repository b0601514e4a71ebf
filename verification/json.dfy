/** JSON values as they arrive in a request body and leave in a response,
    together with the dictionary lookup the handlers use on a body. */
module Json {

  /** A JSON value. Numbers are integers: the service never does arithmetic
      on a number it receives, so the difference does not show. */
  datatype Json =
    | JNull
    | JBool(boolean: bool)
    | JNum(number: int)
    | JStr(text: string)
    | JArray(items: seq<Json>)
    | JObject(fields: map<string, Json>)

  /** A decoded request body: a JSON object, keyed by field name. */
  type Body = map<string, Json>

  /** The lookup `body.get(key, default)`: the value under `key` when the key
      is present (even when that value is null), `default` otherwise. */
  function Get(body: Body, key: string, default: Json): (v: Json)
    ensures key in body ==> v == body[key]
    ensures key !in body ==> v == default
  {
    if key in body then body[key] else default
  }

  /** True when `body` carries a key outside `allowed`. */
  predicate HasKeyOutside(body: Body, allowed: set<string>)
    ensures HasKeyOutside(body, allowed) <==> !(body.Keys <= allowed)
  {
    exists k :: k in body && k !in allowed
  }
}
