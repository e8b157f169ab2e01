/** JSON values as the payload parsers see them, and the primitive field validators of
    models.py. The text encoding is not modelled: a decoded document is a value. */
module Json {

  datatype Option<+T> = None | Some(value: T) {
    function GetOr(default: T): T {
      if Some? then value else default
    }
  }

  /** `Rejected` stands for a raised ValidationError; its message is not modelled. */
  datatype Result<+T> = Ok(value: T) | Rejected {
    predicate IsFailure() {
      Rejected?
    }

    function PropagateFailure<U>(): Result<U>
      requires Rejected?
    {
      Rejected
    }

    function Extract(): T
      requires Ok?
    {
      value
    }

    function ToOption(): Option<T> {
      if Ok? then Some(value) else None
    }
  }

  datatype Json =
    | JNull
    | JBool(flag: bool)
    | JInt(n: int)
    | JFloat(r: real)
    | JStr(text: string)
    | JList(items: seq<Json>)
    | JObj(fields: map<string, Json>)

  /** A document: what `_require_dict` lets through. */
  type Doc = map<string, Json>

  /** `data.get(key)`: an absent key and an explicit null read the same. */
  function Get(doc: Doc, key: string): Json {
    if key in doc then doc[key] else JNull
  }

  /** Python truthiness of a JSON value. */
  predicate Truthy(j: Json) {
    match j
    case JNull => false
    case JBool(b) => b
    case JInt(n) => n != 0
    case JFloat(r) => r != 0.0
    case JStr(s) => s != ""
    case JList(items) => items != []
    case JObj(fields) => fields != map[]
  }

  lemma FalsyIff(j: Json)
    ensures !Truthy(j) <==> || j == JNull || j == JBool(false) || j == JInt(0) || j == JFloat(0.0) || j == JStr("")
                            || j == JList([]) || j == JObj(map[])
  {
  }

  /** The sub-document at `key`, or an empty one when it is not an object. */
  function SubDoc(doc: Doc, key: string): Doc {
    if Get(doc, key).JObj? then Get(doc, key).fields else map[]
  }

  function RequireDict(j: Json): Result<Doc> {
    if j.JObj? then Ok(j.fields) else Rejected
  }

  function RequireStr(doc: Doc, key: string): Result<string> {
    if Get(doc, key).JStr? && Get(doc, key).text != "" then Ok(Get(doc, key).text) else Rejected
  }

  function OptionalStr(doc: Doc, key: string): Result<Option<string>> {
    match Get(doc, key)
    case JNull => Ok(None)
    case JStr(s) => Ok(Some(s))
    case _ => Rejected
  }

  function OptionalBool(doc: Doc, key: string): Result<Option<bool>> {
    match Get(doc, key)
    case JNull => Ok(None)
    case JBool(b) => Ok(Some(b))
    case _ => Rejected
  }

  /** A boolean is a separate JSON kind here, so the explicit `bool` exclusion is built in. */
  function OptionalInt(doc: Doc, key: string): Result<Option<int>> {
    match Get(doc, key)
    case JNull => Ok(None)
    case JInt(n) => Ok(Some(n))
    case _ => Rejected
  }

  /** `value or default` for an optional string: an empty string also takes the default. */
  function OrText(value: Option<string>, default: string): string {
    if value.Some? && value.value != "" then value.value else default
  }
}
