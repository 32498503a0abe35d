/** JSON values as the browser (`JSON.parse`) and the Python Lambdas (`json.loads`)
    see them, with the truthiness rules of each language. */
module Json {
  import opened Wrappers
  import opened Text

  /** A parsed JSON value. Numbers are integers: fractional numbers are not modelled. */
  datatype Json =
    | JNull
    | JBool(b: bool)
    | JNum(n: int)
    | JStr(s: string)
    | JArr(items: seq<Json>)
    | JObj(fields: map<string, Json>)

  /** JavaScript truthiness: `null`, `false`, `0` and `""` are falsy; arrays and
      objects are truthy even when empty. */
  predicate JsTruthy(j: Json) {
    match j
    case JNull => false
    case JBool(b) => b
    case JNum(n) => n != 0
    case JStr(s) => s != ""
    case JArr(_) => true
    case JObj(_) => true
  }

  /** Python truthiness: empty lists and dictionaries are falsy as well. */
  predicate PyTruthy(j: Json) {
    match j
    case JNull => false
    case JBool(b) => b
    case JNum(n) => n != 0
    case JStr(s) => s != ""
    case JArr(items) => items != []
    case JObj(fields) => fields != map[]
  }

  /** Python `isinstance(v, int)`: `bool` is a subclass of `int`. */
  predicate IsPyInt(j: Json) { j.JNum? || j.JBool? }

  function PyIntValue(j: Json): int
    requires IsPyInt(j)
  {
    if j.JBool? then (if j.b then 1 else 0) else j.n
  }

  /** Property access `data.key` in JavaScript or `body.get(key)` in Python; anything
      that is not an object has no properties. */
  function Prop(j: Json, key: string): Option<Json> {
    if j.JObj? && key in j.fields then Some(j.fields[key]) else None
  }

  /** `String(value)` as `alert` shows it. */
  function JsText(j: Json): string
    decreases j, 1
  {
    match j
    case JNull => "null"
    case JBool(b) => if b then "true" else "false"
    case JNum(n) => IntToString(n)
    case JStr(s) => s
    case JArr(items) => JsJoinItems(items)
    case JObj(_) => "[object Object]"
  }

  /** `Array.prototype.toString`: the items joined with `,`, with `null` shown empty. */
  function JsJoinItems(items: seq<Json>): string
    decreases items, 0
  {
    if items == [] then ""
    else
      var head := if items[0].JNull? then "" else JsText(items[0]);
      if |items| == 1 then head else head + "," + JsJoinItems(items[1..])
  }
}
