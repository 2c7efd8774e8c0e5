/**
 JSON values.  An object is a map: json-c keeps one value per key, and nothing here
 depends on the order of its members.
 */
module Json {
  datatype Json =
    | JNull
    | JBool(b: bool)
    | JInt(n: int)
    | JDouble(r: real)
    | JString(s: string)
    | JArray(items: seq<Json>)
    | JObject(members: map<string, Json>)
}
