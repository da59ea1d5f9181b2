/**
 * A decoded JSON reply as Python sees it after `response.json()`, with the handful of Python
 * operations the fallback translator applies to it: truthiness, `len`, `x[0]`, iteration and `+=` on a string.
 * `None` stands for the exception (TypeError, IndexError, KeyError) the operation would raise.
 */
module PyJson {
  import opened Wrappers

  datatype Json =
    | JNull
    | JBool(b: bool)
    | JNum(n: int)
    | JStr(s: string)
    | JArr(items: seq<Json>)
    | JObj(entries: seq<(string, Json)>)

  /** `bool(j)`. */
  predicate Truthy(j: Json) {
    match j
    case JNull => false
    case JBool(b) => b
    case JNum(n) => n != 0
    case JStr(s) => s != []
    case JArr(items) => items != []
    case JObj(entries) => entries != []
  }

  /** `len(j)`; numbers, booleans and null have no length. */
  function Len(j: Json): (r: Option<nat>)
    ensures r.Some? <==> (j.JStr? || j.JArr? || j.JObj?)
    ensures r.Some? ==> (r.value > 0 <==> Truthy(j))
  {
    match j
    case JStr(s) => Some(|s|)
    case JArr(items) => Some(|items|)
    case JObj(entries) => Some(|entries|)
    case _ => None
  }

  /** `j[0]`: the first character of a string, the first item of a list; an object has no key 0. */
  function First(j: Json): (r: Option<Json>)
    ensures r.Some? <==> (j.JStr? || j.JArr?) && Truthy(j)
  {
    match j
    case JStr(s) => if s != [] then Some(JStr([s[0]])) else None
    case JArr(items) => if items != [] then Some(items[0]) else None
    case _ => None
  }

  /** `for x in j`: a string yields its characters, a list its items, an object its keys. */
  function Iterate(j: Json): (r: Option<seq<Json>>)
    ensures r.Some? <==> (j.JStr? || j.JArr? || j.JObj?)
    ensures r.Some? ==> |r.value| == Len(j).value
  {
    match j
    case JStr(s) => Some(seq(|s|, i requires 0 <= i < |s| => JStr([s[i]])))
    case JArr(items) => Some(items)
    case JObj(entries) => Some(seq(|entries|, i requires 0 <= i < |entries| => JStr(entries[i].0)))
    case _ => None
  }

  /** `acc += x`, which only a string `x` allows. */
  function AppendText(acc: string, x: Json): (r: Option<string>)
    ensures r.Some? <==> x.JStr?
    ensures r.Some? ==> r.value == acc + x.s
  {
    if x.JStr? then Some(acc + x.s) else None
  }
}
