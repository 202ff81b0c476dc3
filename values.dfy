/**
 The values a log entry carries. Go's `interface{}` field values are
 modelled as a small JSON-like datatype; `Unencodable` stands for any value
 `json.Marshal` rejects (a channel, a function, a NaN float, ...).
 */
module Values {

  datatype Value =
    | Null
    | Bool(b: bool)
    | Num(n: int)
    | Str(s: string)
    | List(items: seq<Value>)
    | Object(members: map<string, Value>)
    | Unencodable

  type Fields = map<string, Value>

  /** True iff `json.Marshal` succeeds on `v`: no unencodable value occurs anywhere inside it. */
  predicate Encodable(v: Value)
    decreases v
  {
    match v
    case Unencodable => false
    case List(items) => forall i :: 0 <= i < |items| ==> Encodable(items[i])
    case Object(m) => forall k :: k in m ==> Encodable(m[k])
    case _ => true
  }

  /** True iff every value of the field map can be marshalled. */
  predicate FieldsEncodable(m: Fields)
  {
    forall k :: k in m ==> Encodable(m[k])
  }

  /** The record written for one log call. */
  datatype LogEntry = LogEntry(timestamp: string, message: string, level: string, fields: Fields)

  /** True iff the JSON encoder accepts the whole entry (its strings always encode). */
  predicate EntryEncodable(e: LogEntry)
  {
    FieldsEncodable(e.fields)
  }
}
