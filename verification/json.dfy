/** Parsed JSON values as the edge function and the mapper see them after
    `JSON.parse`. Numbers are integers (see README, "Left out"). */
module Json {
  import opened Common

  datatype Json =
    | JNull
    | JBool(b: bool)
    | JNum(n: int)
    | JStr(s: string)
    | JArr(items: seq<Json>)
    | JObj(fields: map<string, Json>)

  /** The result of the JavaScript `typeof` operator on a parsed JSON value:
      `null` and arrays both report "object". */
  function TypeOf(v: Json): (t: string)
    ensures t == "object" <==> (v.JNull? || v.JArr? || v.JObj?)
  {
    match v
    case JNull => "object"
    case JBool(_) => "boolean"
    case JNum(_) => "number"
    case JStr(_) => "string"
    case JArr(_) => "object"
    case JObj(_) => "object"
  }

  /** `typeof` of a property read, where a missing property is `undefined`. */
  function TypeOfProp(p: Option<Json>): string {
    match p
    case None => "undefined"
    case Some(v) => TypeOf(v)
  }

  /** Reading property `key` of a value (`v.key`). Only objects have the
      properties the model reads (`questions`, `position`, `question`,
      `rationale`, `keywords`); on any other value the read is `undefined`. */
  function Prop(v: Json, key: string): (p: Option<Json>)
    ensures p.Some? <==> v.JObj? && key in v.fields
    ensures p.Some? ==> p.value == v.fields[key]
  {
    match v
    case JObj(fields) => if key in fields then Some(fields[key]) else None
    case _ => None
  }

  /** `Array.isArray` of a property read. */
  predicate IsArray(p: Option<Json>) {
    p.Some? && p.value.JArr?
  }
}
