/**
 * JSON values as the request-body decoder produces them. The handler never
 * inspects a value: it only tests keys of the top-level object and copies
 * values across, so the shape of a value matters only for equality.
 */
module Json {

  datatype Value =
    | Null
    | Bool(b: bool)
    | Number(n: int)
    | Str(s: string)
    | Array(elements: seq<Value>)
    | Object(members: map<string, Value>)

  /** A decoded JSON object: its members, keyed by name. */
  type Fields = map<string, Value>
}
