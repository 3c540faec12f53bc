/** The JavaScript values a request body, a token payload or a table row can
    hold, and JavaScript's notion of truthiness that the handlers test with
    `!x`. */
module JsValues {

  import opened Wrappers

  /** `Obj` stands for any object or array: every one of them is truthy, and
      none of them has a `replace` method. Numbers come from JSON, so NaN does
      not occur. */
  datatype JsValue = Undefined | Null | Bool(b: bool) | Num(n: real) | Str(s: string) | Obj

  /** JavaScript truthiness: `undefined`, `null`, `false`, `0` and `""` are
      falsy, everything else is truthy. */
  predicate Truthy(v: JsValue)
  {
    match v
    case Undefined => false
    case Null => false
    case Bool(b) => b
    case Num(n) => n != 0.0
    case Str(s) => s != ""
    case Obj => true
  }

  /** A plain object: `req.body`, a decoded token payload or a table row. */
  type Record = map<string, JsValue>

  /** Property access `o[k]`: a missing property reads as `undefined`. */
  function Get(o: Record, k: string): (v: JsValue)
    ensures k !in o ==> v == Undefined
    ensures k in o ==> v == o[k]
  {
    if k in o then o[k] else Undefined
  }

  /** A nullable text column (such as `image_url`) read from a row: a string
      or nothing. */
  function AsText(v: JsValue): (r: Option<string>)
    ensures r.Some? <==> v.Str?
    ensures r.Some? ==> v == Str(r.value)
  {
    if v.Str? then Some(v.s) else None
  }

  /** The JavaScript value of a nullable text: the string, or `null`. */
  function TextValue(t: Option<string>): (v: JsValue)
    ensures AsText(v) == t
  {
    if t.Some? then Str(t.value) else Null
  }
}
