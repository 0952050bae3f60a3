/** The value that `JSON.parse` (or the external `decode`) hands to the schema
    validator: a JSON tree. Object keys are unique, as after parsing. */
module Json {

  datatype Json =
    | JNull
    | JBool(b: bool)
    | JNumber(n: int)
    | JString(str: string)
    | JArray(items: seq<Json>)
    | JObject(fields: map<string, Json>)
}
