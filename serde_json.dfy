/**
  An already-parsed JSON document, shaped like `serde_json::Value`, and the
  accessors the decoder uses on it (`get`, `as_str`, `as_bool`, `as_array`,
  `as_object`). An object is the sequence of its members in the order in which
  the parser's map iterates them.
 */
module SerdeJson {
  import opened Wrappers

  datatype Value =
    | Null
    | Bool(b: bool)
    | Number(n: int)
    | String(s: string)
    | Array(items: seq<Value>)
    | Object(fields: seq<(string, Value)>)
  {
    /** `Value::get(key)`: the member of an object named `key`; None on any other kind of value. */
    function Get(key: string): (r: Option<Value>)
      ensures r.Some? <==> Object? && exists i :: 0 <= i < |fields| && fields[i].0 == key
      ensures r.Some? ==> exists i :: 0 <= i < |fields| && fields[i] == (key, r.value)
    {
      if Object? then Lookup(fields, key) else None
    }
  }

  /** The first member named `key`. */
  function Lookup(fields: seq<(string, Value)>, key: string): (r: Option<Value>)
    ensures r.Some? <==> exists i :: 0 <= i < |fields| && fields[i].0 == key
    ensures r.Some? ==> exists i :: 0 <= i < |fields| && fields[i] == (key, r.value)
  {
    if fields == [] then None
    else if fields[0].0 == key then Some(fields[0].1)
    else
      var r := Lookup(fields[1..], key);
      assert forall i :: 0 < i < |fields| ==> fields[i] == fields[1..][i - 1];
      r
  }

  /** `value.get(key).and_then(|v| v.as_str())` */
  function GetStr(v: Value, key: string): (r: Option<string>)
    ensures r.Some? <==> v.Get(key).Some? && v.Get(key).value.String?
    ensures r.Some? ==> v.Get(key) == Some(String(r.value))
  {
    match v.Get(key)
    case Some(String(s)) => Some(s)
    case _ => None
  }

  /** `value.get(key).and_then(|v| v.as_bool())` */
  function GetBool(v: Value, key: string): (r: Option<bool>)
    ensures r.Some? <==> v.Get(key).Some? && v.Get(key).value.Bool?
    ensures r.Some? ==> v.Get(key) == Some(Bool(r.value))
  {
    match v.Get(key)
    case Some(Bool(b)) => Some(b)
    case _ => None
  }
}
