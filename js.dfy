/** The already-parsed JSON documents the generator reads (the Tern definition
    file and the documentation samples), with the JavaScript operations the
    source applies to them: property access, truthiness, `typeof`, strict
    equality and `Object.entries` / `Object.values`. */
module Js {
  import opened Results
  import opened Text

  /** A value produced by `JSON.parse`. Object fields keep document order; a
      parsed object has distinct keys. */
  datatype Json =
    | JNull
    | JBool(b: bool)
    | JNum(n: real)
    | JStr(s: string)
    | JArr(items: seq<Json>)
    | JObj(fields: seq<(string, Json)>)

  /** JavaScript truthiness of a present value. */
  predicate Truthy(v: Json) {
    match v
    case JNull => false
    case JBool(b) => b
    case JNum(n) => n != 0.0
    case JStr(s) => s != ""
    case _ => true
  }

  /** Truthiness of a property read that may yield `undefined` (`None`). */
  predicate TruthyOpt(v: Option<Json>) {
    v.Some? && Truthy(v.value)
  }

  /** The `typeof` operator. */
  function TypeOf(v: Option<Json>): (t: string)
    ensures t in {"undefined", "object", "boolean", "number", "string"}
    ensures t == "object" <==> v.Some? && (v.value.JNull? || v.value.JArr? || v.value.JObj?)
  {
    match v
    case None => "undefined"
    case Some(JNull) => "object"
    case Some(JBool(_)) => "boolean"
    case Some(JNum(_)) => "number"
    case Some(JStr(_)) => "string"
    case Some(_) => "object"
  }

  /** The first field named `key`. */
  function Lookup(fields: seq<(string, Json)>, key: string): (r: Option<Json>)
    ensures r.Some? ==> exists i :: 0 <= i < |fields| && fields[i] == (key, r.value)
    ensures r.None? ==> forall i :: 0 <= i < |fields| ==> fields[i].0 != key
  {
    if fields == [] then None
    else if fields[0].0 == key then Some(fields[0].1)
    else
      var r := Lookup(fields[1..], key);
      assert r.Some? ==> exists i :: 0 <= i < |fields| - 1 && fields[1..][i] == (key, r.value);
      r
  }

  /** `v[key]` on a value known not to be `null`. */
  function Field(v: Json, key: string): (r: Option<Json>)
    ensures !v.JObj? ==> r.None?
  {
    if v.JObj? then Lookup(v.fields, key) else None
  }

  /** `v[key]` for the property names the generator reads (none of them is an
      array or string property): reading from `null` throws. */
  function Get(v: Json, key: string): (r: Result<Option<Json>>)
    ensures r.Err? <==> v.JNull?
    ensures !v.JObj? && !v.JNull? ==> r == Ok(None)
  {
    match v
    case JNull => Err(TypeError("Cannot read property '" + key + "' of null"))
    case JObj(fields) => Ok(Lookup(fields, key))
    case _ => Ok(None)
  }

  /** `v[key]` where `v` may itself be `undefined`. */
  function GetOpt(v: Option<Json>, key: string): (r: Result<Option<Json>>)
    ensures v.None? ==> r.Err?
  {
    match v
    case None => Err(TypeError("Cannot read property '" + key + "' of undefined"))
    case Some(x) => Get(x, key)
  }

  /** `===` between two values read from one parsed document: primitives
      compare by value, distinct objects and arrays are never identical. */
  predicate StrictEquals(a: Option<Json>, b: Option<Json>) {
    match (a, b)
    case (None, None) => true
    case (Some(JNull), Some(JNull)) => true
    case (Some(JBool(x)), Some(JBool(y))) => x == y
    case (Some(JNum(x)), Some(JNum(y))) => x == y
    case (Some(JStr(x)), Some(JStr(y))) => x == y
    case _ => false
  }

  function DigitChar(d: nat): char
    requires d < 10
  {
    ('0' as int + d) as char
  }

  /** The property key of an array or string index. */
  function DecimalString(n: nat): (r: string)
    ensures |r| >= 1
    ensures forall k :: 0 <= k < |r| ==> '0' <= r[k] <= '9'
  {
    if n < 10 then [DigitChar(n)] else DecimalString(n / 10) + [DigitChar(n % 10)]
  }

  function IndexedEntries(items: seq<Json>): (r: seq<(string, Json)>)
    ensures |r| == |items| && forall i :: 0 <= i < |r| ==> r[i] == (DecimalString(i), items[i])
  {
    seq(|items|, i requires 0 <= i < |items| => (DecimalString(i), items[i]))
  }

  /** `Object.entries(v)`: the fields of an object in order, the indices of an
      array or of a string's characters, nothing for other primitives; `null`
      throws. */
  function Entries(v: Json): (r: Result<seq<(string, Json)>>)
    ensures r.Err? <==> v.JNull?
    ensures v.JObj? ==> r == Ok(v.fields)
    ensures v.JArr? ==> r.Ok? && |r.value| == |v.items|
    ensures v.JStr? ==> r.Ok? && |r.value| == |v.s|
  {
    match v
    case JNull => Err(TypeError("Cannot convert undefined or null to object"))
    case JObj(fields) => Ok(fields)
    case JArr(items) => Ok(IndexedEntries(items))
    case JStr(s) => Ok(IndexedEntries(seq(|s|, i requires 0 <= i < |s| => JStr([s[i]]))))
    case _ => Ok([])
  }

  /** The elements a `for...of` loop visits: array items, or the characters of
      a string; anything else is not iterable. */
  function Iterate(v: Option<Json>): (r: Result<seq<Json>>)
    ensures r.Ok? <==> v.Some? && (v.value.JArr? || v.value.JStr?)
  {
    match v
    case Some(JArr(items)) => Ok(items)
    case Some(JStr(s)) => Ok(seq(|s|, i requires 0 <= i < |s| => JStr([s[i]])))
    case _ => Err(TypeError("value is not iterable"))
  }
}
