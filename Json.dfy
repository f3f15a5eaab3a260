/**
 * A parsed JSON document as the org.json classes hold it: objects (JSONObject),
 * arrays (JSONArray) and scalar values.  Parsing text into this tree is done by
 * the library and is not part of the model; what the relay needs of the
 * library is the tree itself and the `toString()` of each value.
 */
module Json {

  /** A JSON value.  The members of an object are in the order its key set iterates, which the relay does not control. */
  datatype Json =
    | Object(members: seq<Member>)
    | Array(items: seq<Json>)
    | Str(s: string)
    /** A number, held as the text its Java `toString()` gives (1220 as "1220"). */
    | Num(text: string)
    | Bool(b: bool)
    | Null

  /** One key/value pair of an object. */
  datatype Member = Member(name: string, value: Json)

  /**
   * `value.toString()` of a value read from a JSONObject: a string is its own
   * text, a number its decimal text, a boolean "true" or "false", JSON null
   * "null", and a nested object or array its JSON serialisation.
   */
  function ToText(v: Json): (r: string)
    ensures v.Str? ==> r == v.s
    ensures !v.Str? ==> r == Render(v)
  {
    match v
    case Str(s) => s
    case Num(t) => t
    case Bool(b) => if b then "true" else "false"
    case Null => "null"
    case _ => Render(v)
  }

  /** Compact JSON serialisation (string escaping is not modelled). */
  function Render(v: Json): string {
    match v
    case Object(ms) => "{" + RenderMembers(ms) + "}"
    case Array(items) => "[" + RenderItems(items) + "]"
    case Str(s) => "\"" + s + "\""
    case Num(t) => t
    case Bool(b) => if b then "true" else "false"
    case Null => "null"
  }

  function RenderMembers(ms: seq<Member>): string {
    if ms == [] then ""
    else
      var last := ms[|ms| - 1];
      RenderMembers(ms[..|ms| - 1]) + (if |ms| > 1 then "," else "")
      + "\"" + last.name + "\":" + Render(last.value)
  }

  function RenderItems(items: seq<Json>): string {
    if items == [] then ""
    else RenderItems(items[..|items| - 1]) + (if |items| > 1 then "," else "") + Render(items[|items| - 1])
  }
}
