/**
 * JSON values as they travel between the browser and the server.
 * A record (a JSON object) is a map from field name to value.
 */
module Json {
  import opened Wrappers

  /** A JSON value. Floating-point numbers are kept opaque, as their text. */
  datatype Value =
    | Null
    | Bool(b: bool)
    | Int(i: int)
    | Float(text: string)
    | Str(s: string)
    | Arr(items: seq<Value>)
    | Obj(fields: map<string, Value>)

  type Record = map<string, Value>

  /** The value of a key, reading an absent key as null (as Pydantic reads a missing optional field). */
  function Lookup(r: Record, key: string): (v: Value)
    ensures key !in r ==> v == Null
    ensures key in r ==> v == r[key]
  {
    if key in r then r[key] else Null
  }

  /** The value of a key, or None when the key is absent (JavaScript's `undefined`). */
  function Get(r: Record, key: string): (v: Option<Value>)
    ensures v.Some? <==> key in r
    ensures v.Some? ==> v.value == r[key]
  {
    if key in r then Some(r[key]) else None
  }

  /**
   * JavaScript falsiness of a value that reaches `||`.
   * Float values are opaque here and taken as truthy.
   */
  predicate Falsy(v: Value) {
    v == Null || v == Bool(false) || v == Int(0) || v == Str("")
  }

  /** JavaScript's `v || null`. */
  function OrNull(v: Value): (r: Value)
    ensures Falsy(v) ==> r == Null
    ensures !Falsy(v) ==> r == v
    ensures !Falsy(r) || r == Null
  {
    if Falsy(v) then Null else v
  }
}
