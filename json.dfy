/** Decoded JSON values, as `JSON.parse` hands them to the validator and the
    request handler, and JavaScript's `key in value` on them. */
module Json {

  datatype Option<+T> = None | Some(value: T)

  /** A decoded JSON value. Numbers are integers in this model: the only
      number the proxy reads is a route's HTTP status. Objects keep the last
      value of a duplicated key, as `JSON.parse` does, hence a map. */
  datatype JSON =
    | JNull
    | JBool(b: bool)
    | JNum(n: int)
    | JStr(s: string)
    | JArr(elems: seq<JSON>)
    | JObj(fields: map<string, JSON>)

  /** Values on which JavaScript's `key in value` does not throw: objects and
      arrays. On `null`, booleans, numbers and strings it raises a TypeError. */
  predicate IsObject(v: JSON) {
    v.JObj? || v.JArr?
  }

  /** The value stored under `key`, if `key in v` holds. Every key the proxy
      asks about names neither an array index nor `length`, so an array holds
      none of them, and a value that is not an object holds nothing. */
  function Field(v: JSON, key: string): Option<JSON> {
    if v.JObj? && key in v.fields then Some(v.fields[key]) else None
  }
}
