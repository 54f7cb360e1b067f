/** An already-parsed JSON document. Byte-level parsing is not modelled: a
    manifest file is either unreadable, not JSON at all, or one of these values.
    Object keys are a map, so every key occurs once. */
module Json {

  datatype Value =
    | Null
    | Bool(b: bool)
    | Number(n: int)
    | Str(s: string)
    | Array(items: seq<Value>)
    | Object(fields: map<string, Value>)
}
