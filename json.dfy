/**
 * JSON values as Python's json module hands them back, with the parts of
 * Python's object protocol the quiz solver relies on: truthiness, dict.get
 * and str() of scalars.
 */
module Json {
  import opened Wrappers

  /** A decoded JSON value. A number keeps Python's repr of it ("3", "2.5", "1e+20"). */
  datatype Json =
    | JNull
    | JBool(b: bool)
    | JNumber(repr: string)
    | JString(s: string)
    | JArray(items: seq<Json>)
    | JObject(fields: map<string, Json>)

  /** Python truthiness of the decoded value (None, False, 0, 0.0, "", [], {} are false). */
  predicate Truthy(j: Json) {
    match j
    case JNull => false
    case JBool(b) => b
    case JNumber(r) => r != "0" && r != "0.0" && r != "-0.0"
    case JString(s) => s != ""
    case JArray(items) => items != []
    case JObject(fields) => fields != map[]
  }

  /** dict.get(key, default). */
  function GetOr(m: map<string, Json>, key: string, default: Json): (r: Json)
    ensures key in m ==> r == m[key]
    ensures key !in m ==> r == default
  {
    if key in m then m[key] else default
  }

  /** dict.get(key): a missing key and an explicit null both read as None. */
  function Get(m: map<string, Json>, key: string): Json {
    GetOr(m, key, JNull)
  }

  /** The Python type name of a decoded value, as it appears in an AttributeError. */
  function TypeName(j: Json): string {
    match j
    case JNull => "NoneType"
    case JBool(_) => "bool"
    case JNumber(r) => if forall i | 0 <= i < |r| :: r[i] == '-' || '0' <= r[i] <= '9' then "int" else "float"
    case JString(_) => "str"
    case JArray(_) => "list"
    case JObject(_) => "dict"
  }

  /** str() of a scalar value; containers have no exact rendering here. */
  function ScalarStr(j: Json): Option<string> {
    match j
    case JNull => Some("None")
    case JBool(b) => Some(if b then "True" else "False")
    case JNumber(r) => Some(r)
    case JString(s) => Some(s)
    case JArray(items) => if items == [] then Some("[]") else None
    case JObject(fields) => if fields == map[] then Some("{}") else None
  }

  /** The object {"status": "ok"}, the neutral structured answer. */
  const StatusOk: Json := JObject(map["status" := JString("ok")])
}
