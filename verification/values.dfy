/**
 * Scalar attribute values of accessibility-tree nodes, and the JSON-like
 * values the entity records carry as opaque payload (metadata, locators).
 */
module Values {
  import opened Wrappers
  import Strings

  /** An attribute value: the three kinds the snapshot parser produces (bool, int, str). */
  datatype Value = Bool(b: bool) | Int(i: int) | Str(s: string)

  /** Python truthiness of `node.get(key)`: absent (`None`), `False`, `0` and `""` are falsy. */
  predicate Truthy(v: Option<Value>) {
    match v
    case None => false
    case Some(Bool(b)) => b
    case Some(Int(i)) => i != 0
    case Some(Str(s)) => s != ""
  }

  /** Python's `f"{v}"` for an attribute value. */
  function Format(v: Value): string {
    match v
    case Bool(b) => if b then "True" else "False"
    case Int(i) => Strings.IntToString(i)
    case Str(s) => s
  }

  /** Free-form JSON-like payload (`dict[str, Any]` fields that the core only stores and copies). */
  datatype Json =
    | JNull
    | JBool(b: bool)
    | JNumber(n: real)
    | JString(s: string)
    | JArray(items: seq<Json>)
    | JObject(fields: map<string, Json>)
}
