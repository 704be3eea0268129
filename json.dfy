/** JSON values as `request.json()` produces them, and the two JavaScript
    notions the webhook relies on: reading a member with `value.key`, and
    truthiness (what `||` tests). */
module Json {

  datatype Option<+T> = None | Some(value: T)

  /** A parsed JSON value. Numbers are kept as reals: only whether a number
      is zero matters here (JSON has no NaN, and -0 equals 0). An object is
      a map because `JSON.parse` keeps the last of duplicate keys. */
  datatype Json =
    | JNull
    | JBool(b: bool)
    | JNum(n: real)
    | JStr(s: string)
    | JArr(items: seq<Json>)
    | JObj(fields: map<string, Json>)

  /** `value.key` on a non-null value, for a key that is not `length` and
      not the name of an inherited prototype member (such as `toString` or
      `constructor`): an own member of an object, and `undefined` (None) on
      anything else. Every key the webhook reads is such a key. Reading a
      member of `null` throws; callers handle that case before reading. */
  function Member(value: Json, key: string): (r: Option<Json>)
    requires !value.JNull?
    ensures r.Some? <==> value.JObj? && key in value.fields
    ensures r.Some? ==> r.value == value.fields[key]
  {
    match value
    case JObj(fields) => if key in fields then Some(fields[key]) else None
    case _ => None
  }

  /** JavaScript truthiness of a JSON value: `null`, `false`, `0` and `""`
      are falsy; every array and object is truthy, even an empty one. */
  predicate Truthy(v: Json): (b: bool)
    ensures !b <==> v == JNull || v == JBool(false) || v == JNum(0.0) || v == JStr("")
  {
    match v
    case JNull => false
    case JBool(b) => b
    case JNum(n) => n != 0.0
    case JStr(s) => s != ""
    case JArr(_) => true
    case JObj(_) => true
  }

  /** The member `key` of `value` exists and is truthy; an absent member
      (`undefined`) is falsy. */
  predicate TruthyAt(value: Json, key: string): (b: bool)
    requires !value.JNull?
    ensures b <==> value.JObj? && key in value.fields && Truthy(value.fields[key])
  {
    var m := Member(value, key);
    m.Some? && Truthy(m.value)
  }
}
