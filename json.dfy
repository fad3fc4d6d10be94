/** The JSON/YAML documents the state files hold, and Python's truthiness on them. */
module Json {
  import opened Common

  datatype Value =
    | JNull
    | JBool(b: bool)
    | JInt(i: int)
    | JFloat(r: real)
    | JStr(s: string)
    | JArr(items: seq<Value>)
    | JObj(fields: map<string, Value>)

  /** A decoded JSON object: Python's Dict[str, Any]. */
  type Dict = map<string, Value>

  /** Python's bool(v): None, False, 0, 0.0 and empty containers are falsy. */
  predicate Truthy(v: Value) {
    match v
    case JNull => false
    case JBool(b) => b
    case JInt(i) => i != 0
    case JFloat(r) => r != 0.0
    case JStr(s) => s != ""
    case JArr(items) => items != []
    case JObj(fields) => fields != map[]
  }

  /** type(v).__name__. */
  function TypeName(v: Value): string {
    match v
    case JNull => "NoneType"
    case JBool(_) => "bool"
    case JInt(_) => "int"
    case JFloat(_) => "float"
    case JStr(_) => "str"
    case JArr(_) => "list"
    case JObj(_) => "dict"
  }

  /** dict.get(key, default). */
  function Get(d: Dict, key: string, default: Value): (v: Value)
    ensures key in d ==> v == d[key]
    ensures key !in d ==> v == default
  {
    if key in d then d[key] else default
  }

  /** A list of strings as JSON. */
  function StrList(items: seq<string>): (v: Value)
    ensures v.JArr? && |v.items| == |items|
    ensures forall i | 0 <= i < |items| :: v.items[i] == JStr(items[i])
  {
    JArr(seq(|items|, i requires 0 <= i < |items| => JStr(items[i])))
  }

  predicate IsStrList(v: Value) {
    v.JArr? && forall i | 0 <= i < |v.items| :: v.items[i].JStr?
  }

  function AsStrList(v: Value): (items: seq<string>)
    requires IsStrList(v)
    ensures |items| == |v.items|
    ensures forall i | 0 <= i < |items| :: v.items[i] == JStr(items[i])
    ensures StrList(items) == v
  {
    seq(|v.items|, i requires 0 <= i < |v.items| => v.items[i].s)
  }

  /** A string list survives the trip through JSON. */
  lemma StrListRoundTrip(items: seq<string>)
    ensures IsStrList(StrList(items)) && AsStrList(StrList(items)) == items
  {
  }

  /** Python's Optional[str] as JSON: None is null. */
  function OptStr(o: Option<string>): Value {
    match o
    case None => JNull
    case Some(s) => JStr(s)
  }

  /** A value that `data.get(key)` may yield for an Optional[str] field: missing, null or a string. */
  predicate OptStrAt(d: Dict, key: string) {
    key in d ==> (d[key].JNull? || d[key].JStr?)
  }

  /** `data.get(key)` read as an Optional[str]. */
  function GetOptStr(d: Dict, key: string): (o: Option<string>)
    requires OptStrAt(d, key)
    ensures o.Some? <==> key in d && d[key].JStr?
    ensures o.Some? ==> d[key] == JStr(o.value)
  {
    if key in d && d[key].JStr? then Some(d[key].s) else None
  }
}
