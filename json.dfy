/**
 * JSON documents as the Python code sees them after `json.load`: numbers are
 * integers (no document in scope uses fractions), objects are dictionaries.
 */
module Json {

  datatype Json =
    | JNull
    | JBool(b: bool)
    | JNum(n: int)
    | JStr(s: string)
    | JArr(items: seq<Json>)
    | JObj(fields: map<string, Json>)

  /** Python truthiness of the decoded value. */
  predicate Truthy(j: Json) {
    match j
    case JNull => false
    case JBool(b) => b
    case JNum(n) => n != 0
    case JStr(s) => s != []
    case JArr(items) => items != []
    case JObj(fields) => fields != map[]
  }

  /** The strings of a list, for `set(data)` when every element is a string. */
  function StringItems(items: seq<Json>): (r: set<string>)
    ensures forall s :: s in r <==> JStr(s) in items
  {
    if items == [] then {}
    else (if items[0].JStr? then {items[0].s} else {}) + StringItems(items[1..])
  }

  predicate AllStrings(items: seq<Json>) {
    forall i :: 0 <= i < |items| ==> items[i].JStr?
  }

  /** A list of strings, as `json.dump` writes a list. */
  function StringArray(names: seq<string>): (r: seq<Json>)
    ensures |r| == |names|
    ensures forall i :: 0 <= i < |names| ==> r[i] == JStr(names[i])
  {
    if names == [] then [] else [JStr(names[0])] + StringArray(names[1..])
  }
}
