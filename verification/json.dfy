/** Decoded JSON values, as `json.loads` hands them to the host and as the extensions build them. */
module Json {

  /**
   * A JSON value. Numbers keep their literal text: nothing in the model
   * looks inside them. An object is a map because `json.loads` keeps the
   * last of repeated keys.
   */
  datatype Value =
    | Null
    | Boolean(b: bool)
    | Number(literal: string)
    | Text(s: string)
    | Array(items: seq<Value>)
    | Object(members: map<string, Value>)
}
