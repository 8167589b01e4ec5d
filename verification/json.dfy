/** The values `JSON.parse` can produce, and the two JavaScript judgements the
    endpoint makes of them: property reads and truthiness. */
module Json {
  import opened Options

  /** A parsed JSON document. An object keeps one value per key, as `JSON.parse`
      does when a key is repeated (the last occurrence wins). */
  datatype Value =
    | Null
    | Bool(b: bool)
    | Number(n: real)
    | Str(s: string)
    | Array(items: seq<Value>)
    | Object(fields: map<string, Value>)

  /** Reading property `key` of a value other than `null`: an object yields its own
      field, every other value yields `undefined`. (Reading a property of `null`
      throws; callers handle that case before calling.) None of the keys the
      endpoint reads is inherited from a prototype. */
  function Property(v: Value, key: string): (r: Option<Value>)
    requires !v.Null?
    ensures r.Some? <==> v.Object? && key in v.fields
    ensures r.Some? ==> r.value == v.fields[key]
  {
    match v
    case Object(fields) => if key in fields then Some(fields[key]) else None
    case _ => None
  }

  /** JavaScript truthiness of a value that may be `undefined`: `undefined`, `null`,
      `false`, `0` and `""` are falsy; every array and object is truthy. */
  predicate Truthy(v: Option<Value>) {
    match v
    case None => false
    case Some(Null) => false
    case Some(Bool(b)) => b
    case Some(Number(n)) => n != 0.0
    case Some(Str(s)) => s != ""
    case Some(Array(_)) => true
    case Some(Object(_)) => true
  }

  /** `Array.isArray` of a value that may be `undefined`. */
  predicate IsArray(v: Option<Value>) {
    v.Some? && v.value.Array?
  }
}
