/**
 * The JavaScript values the application passes around: request bodies,
 * session and token objects, error shapes. Objects are finite maps from
 * property name to value; a property that is not there reads as `undefined`.
 */
module JsValue {
  import opened Wrappers

  datatype Json =
    | JUndefined
    | JNull
    | JBool(b: bool)
    | JNum(n: real)
    | JStr(s: string)
    | JArr(items: seq<Json>)
    | JObj(fields: Obj)

  type Obj = map<string, Json>

  /** The exception a property read on `null` or `undefined` raises. */
  datatype JsError = TypeError

  /**
   * `s.length`: the number of UTF-16 code units, so a character outside the
   * Basic Multilingual Plane (an emoji, say) counts twice.
   */
  function JsLength(s: string): (r: nat)
    ensures |s| <= r <= 2 * |s|
    ensures r == |s| <==> forall i :: 0 <= i < |s| ==> s[i] as int < 0x10000
    decreases |s|
  {
    if s == [] then 0
    else
      var init := s[..|s| - 1];
      assert forall i :: 0 <= i < |init| ==> init[i] == s[i];
      JsLength(init) + (if s[|s| - 1] as int < 0x10000 then 1 else 2)
  }

  /** `o.k` on an object: a missing property reads as `undefined`. */
  function Get(o: Obj, k: string): Json
  {
    if k in o then o[k] else JUndefined
  }

  /** The own properties `{...v}` copies: those of an object, none for `null` or `undefined`. */
  function Spread(v: Json): Obj
  {
    if v.JObj? then v.fields else map[]
  }

  /** JavaScript truthiness (`!v` is its negation). */
  predicate Truthy(v: Json)
  {
    match v
    case JUndefined => false
    case JNull => false
    case JBool(b) => b
    case JNum(n) => n != 0.0
    case JStr(s) => s != ""
    case _ => true
  }

  /** `v.k` on any value: throws on `null` and `undefined`, reads the property of an object. */
  function Member(v: Json, k: string): (r: Result<Json, JsError>)
    ensures r.Err? <==> v == JUndefined || v == JNull
    ensures v.JObj? ==> r == Ok(Get(v.fields, k))
  {
    match v
    case JUndefined => Err(TypeError)
    case JNull => Err(TypeError)
    case JObj(m) => Ok(Get(m, k))
    case _ => Ok(JUndefined)
  }
}
