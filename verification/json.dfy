/** JSON values as the site stores them in its `Json` columns, with JavaScript's truthiness and
    `typeof` on them. Parsing and serialising (`JSON.parse`, `JSON.stringify`) are not defined
    here: the modules that use them take them as function parameters, `None` standing for a
    thrown `SyntaxError`. */
module Json {
  import opened Wrappers

  datatype Json =
    | JNull
    | JBool(b: bool)
    | JNumber(n: real)
    | JString(s: string)
    | JArray(items: seq<Json>)
    | JObject(fields: seq<(string, Json)>)

  /** A stand-in for `JSON.parse`: `None` when the text is not JSON. */
  type Parser = string -> Option<Json>

  /** A stand-in for `JSON.stringify(value, null, 2)`. */
  type Printer = Json -> string

  /** JavaScript truthiness: `null`, `false`, `0` and `""` are falsy, everything else truthy. */
  predicate Truthy(j: Json) {
    match j
    case JNull => false
    case JBool(b) => b
    case JNumber(n) => n != 0.0
    case JString(s) => s != ""
    case JArray(_) => true
    case JObject(_) => true
  }

  /** `typeof j === "object"`: true for `null`, arrays and objects. */
  predicate IsObjectType(j: Json) {
    j.JNull? || j.JArray? || j.JObject?
  }

  /** `x ?? y` on a value that is either a JSON value or absent. */
  function Coalesce(x: Option<Json>, y: Json): (r: Json)
    ensures x.Some? && !x.value.JNull? ==> r == x.value
    ensures x.None? || x.value.JNull? ==> r == y
  {
    match x
    case Some(v) => if v.JNull? then y else v
    case None => y
  }
}
