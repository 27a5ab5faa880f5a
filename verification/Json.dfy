/** JSON values. Object members are unordered; numbers carry no formatting. */
module Json {
  datatype Json =
    | JsonNull
    | JsonBool(truth: bool)
    | JsonNumber(number: real)
    | JsonString(text: string)
    | JsonArray(items: seq<Json>)
    | JsonObject(members: map<string, Json>)
}
