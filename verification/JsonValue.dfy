/** Parsed JSON as the source handles it through `serde_json::Value`. */
module JsonValue {
  import opened Wrappers

  datatype Json =
    | Null
    | Bool(flag: bool)
    | Integer(n: int)
    | Fraction(x: real)
    | Str(text: string)
    | Arr(items: seq<Json>)
    | Obj(fields: map<string, Json>)

  function Get(v: Json, key: string): Option<Json> {
    if v.Obj? && key in v.fields then Some(v.fields[key]) else None
  }

  function GetStr(v: Json, key: string): Option<string> {
    match Get(v, key)
    case Some(Str(t)) => Some(t)
    case _ => None
  }

  /** The member if it is itself an object. */
  function GetObj(v: Json, key: string): Option<Json> {
    match Get(v, key)
    case Some(Obj(fields)) => Some(Obj(fields))
    case _ => None
  }

  function GetBool(v: Json, key: string): Option<bool> {
    match Get(v, key)
    case Some(Bool(flag)) => Some(flag)
    case _ => None
  }
}
