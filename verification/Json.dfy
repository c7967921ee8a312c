/** JSON values as `serde_json::Value` compares them: objects are maps, numbers
    are opaque tokens in canonical spelling. */
module Json {
  datatype Json =
    | Null
    | Bool(b: bool)
    | Number(token: string)
    | Str(s: string)
    | Array(items: seq<Json>)
    | Object(fields: map<string, Json>)
}
