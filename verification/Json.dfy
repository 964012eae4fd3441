// JSON values, and what Python's truth test, iteration and .get() make of them.
module Json {
  import opened Prelude

  // A JSON value over a type of text. An object is its fields in order.
  datatype JsonOf<S> =
    | Null
    | Bool(b: bool)
    | Int(i: int)
    | Float(r: real)
    | Str(s: S)
    | Arr(items: seq<JsonOf<S>>)
    | Obj(fields: seq<PropertyOf<S>>)

  datatype PropertyOf<S> = Field(key: string, value: JsonOf<S>)

  type Json = JsonOf<string>
  type Property = PropertyOf<string>

  predicate Truthy(v: Json) {
    match v
    case Null => false
    case Bool(b) => b
    case Int(i) => i != 0
    case Float(r) => r != 0.0
    case Str(s) => s != ""
    case Arr(items) => |items| > 0
    case Obj(fields) => |fields| > 0
  }

  function Strings(s: seq<string>): (r: seq<Json>)
    ensures |r| == |s|
  {
    if |s| == 0 then [] else [Str(s[0])] + Strings(s[1..])
  }

  function Letters(s: string): (r: seq<Json>)
    ensures |r| == |s|
  {
    if |s| == 0 then [] else [Str([s[0]])] + Letters(s[1..])
  }

  function Keys(d: seq<Property>): (r: seq<Json>)
    ensures |r| == |d|
  {
    if |d| == 0 then [] else [Str(d[0].key)] + Keys(d[1..])
  }

  // What a for loop runs over, or nothing when it raises.
  function Elements(v: Json): (e: Option<seq<Json>>) {
    match v
    case Arr(items) => Some(items)
    case Str(s) => Some(Letters(s))
    case Obj(fields) => Some(Keys(fields))
    case _ => None
  }

  function Find(d: seq<Property>, k: string): (r: Option<Json>) {
    if |d| == 0 then None else if d[0].key == k then Some(d[0].value) else Find(d[1..], k)
  }

  // v.get(k) of an object: null when there is no such key.
  function Lookup(v: Json, k: string): (r: Json)
    requires v.Obj?
  {
    var x := Find(v.fields, k);
    if x.Some? then x.value else Null
  }
}
