/**
 The serializer a logger may carry, and its application to an entry.

 The only serializers the package builds are the key-table closures of
 `WithSerializers`, so a serializer is either absent or such a table:
 each key of the table names a transform of the field with that key.
 */
module Serializers {
  import opened Values

  type Transform = Value -> Value
  type KeyTable = map<string, Transform>

  datatype Serializer = NoSerializer | KeyTableSerializer(table: KeyTable)

  /** A Go panic (a failed type assertion) or a normal return. */
  datatype Outcome<T> = Returned(value: T) | Panicked(reason: string)

  // ---------------------------------------------------------------------
  // The key-table closure, as the package intends it
  // ---------------------------------------------------------------------

  /** A field map with every key of the table rewritten by that key's transform. */
  function TransformFields(table: KeyTable, m: Fields): Fields
  {
    map k | k in m :: if k in table then table[k](m[k]) else m[k]
  }

  /** The closure applied to one value: a map has its table keys rewritten, anything else passes through. */
  function ApplyTable(table: KeyTable, data: Value): Value
  {
    match data
    case Object(m) => Object(TransformFields(table, m))
    case _ => data
  }

  /** On a map, no key is added or removed, table keys are transformed and every other key is untouched. */
  lemma ApplyTableOnMap(table: KeyTable, m: Fields, k: string)
    ensures ApplyTable(table, Object(m)).Object?
    ensures ApplyTable(table, Object(m)).members.Keys == m.Keys
    ensures k in m && k in table ==> ApplyTable(table, Object(m)).members[k] == table[k](m[k])
    ensures k in m && k !in table ==> ApplyTable(table, Object(m)).members[k] == m[k]
  {
  }

  /** With an empty table the closure is the identity, on every input. */
  lemma EmptyTableIsIdentity(data: Value)
    ensures ApplyTable(map[], data) == data
  {
  }

  /**
   The closure's loop: for each key of the table that the map holds,
   overwrite that entry with the transformed value. An input that is not
   a map is returned unchanged.
   */
  method ApplyKeyTable(table: KeyTable, data: Value) returns (r: Value)
    ensures r == ApplyTable(table, data)
  {
    if !data.Object? {
      return data;
    }
    var m := data.members;
    var todo := table.Keys;
    while todo != {}
      invariant todo <= table.Keys
      invariant m.Keys == data.members.Keys
      invariant forall k :: k in m ==>
                  m[k] == if k in table && k !in todo then table[k](data.members[k]) else data.members[k]
      decreases todo
    {
      var key :| key in todo;
      if key in m {
        m := m[key := table[key](m[key])];
      }
      todo := todo - {key};
    }
    assert m == TransformFields(table, data.members);
    r := Object(m);
  }

  /** The entry a serializer produces: message and fields rewritten, timestamp and level kept. */
  function Serialized(s: Serializer, entry: LogEntry): LogEntry
  {
    match s
    case NoSerializer => entry
    case KeyTableSerializer(table) =>
      entry.(message := ApplyTable(table, Str(entry.message)).s,
             fields := ApplyTable(table, Object(entry.fields)).members)
  }

  /** Serializing keeps timestamp, level, message and key set; only table keys change value. */
  lemma SerializedMeaning(s: Serializer, entry: LogEntry, k: string)
    ensures Serialized(s, entry).timestamp == entry.timestamp
    ensures Serialized(s, entry).level == entry.level
    ensures Serialized(s, entry).message == entry.message
    ensures Serialized(s, entry).fields.Keys == entry.fields.Keys
    ensures s.NoSerializer? ==> Serialized(s, entry) == entry
    ensures s.KeyTableSerializer? && k in entry.fields ==>
              Serialized(s, entry).fields[k] ==
                if k in s.table then s.table[k](entry.fields[k]) else entry.fields[k]
  {
  }

  /** An empty key table leaves every entry as it was. */
  lemma EmptyTableKeepsEntry(entry: LogEntry)
    ensures Serialized(KeyTableSerializer(map[]), entry) == entry
  {
  }

  /**
   Redacting one key: with the table {"secret": mask}, the fields
   {"secret": "abc", "other": "x"} become {"secret": mask("abc"), "other": "x"}.
   */
  lemma MaskRedactsOnlyItsKey(mask: Transform, entry: LogEntry)
    requires entry.fields == map["secret" := Str("abc"), "other" := Str("x")]
    ensures Serialized(KeyTableSerializer(map["secret" := mask]), entry).fields
              == map["secret" := mask(Str("abc")), "other" := Str("x")]
    ensures Serialized(KeyTableSerializer(map["secret" := mask]), entry).message == entry.message
  {
  }

  // ---------------------------------------------------------------------
  // The key-table closure and serializeEntry as written
  // ---------------------------------------------------------------------

  /**
   The closure as written: every turn of the loop asserts that its input
   is a map, so a non-empty table panics on anything else.
   */
  function ApplyTableAsWritten(table: KeyTable, data: Value): (r: Outcome<Value>)
    ensures |table| == 0 ==> r == Returned(data)
    ensures |table| > 0 && !data.Object? ==> r.Panicked?
    ensures data.Object? ==> r == Returned(ApplyTable(table, data))
  {
    if |table| == 0 then
      assert table.Keys == {} by { assert |table.Keys| == |table|; }
      assert data.Object? ==> TransformFields(table, data.members) == data.members;
      Returned(data)
    else match data
      case Object(m) => Returned(Object(TransformFields(table, m)))
      case _ => Panicked("interface conversion: interface {} is string, not map[string]interface {}")
  }

  /** serializeEntry as written: the message goes through the closure first, then the fields. */
  function SerializedAsWritten(s: Serializer, entry: LogEntry): (r: Outcome<LogEntry>)
    ensures s.NoSerializer? ==> r == Returned(entry)
    ensures r.Returned? ==>
              r.value.timestamp == entry.timestamp && r.value.level == entry.level &&
              r.value.message == entry.message && r.value.fields.Keys == entry.fields.Keys
  {
    match s
    case NoSerializer => Returned(entry)
    case KeyTableSerializer(table) =>
      match ApplyTableAsWritten(table, Str(entry.message))
      case Panicked(why) => Panicked(why)
      case Returned(msg) =>
        if !msg.Str? then Panicked("message is not a string")
        else match ApplyTableAsWritten(table, Object(entry.fields))
          case Panicked(why) => Panicked(why)
          case Returned(fs) =>
            if !fs.Object? then Panicked("fields are not a map")
            else Returned(entry.(message := msg.s, fields := fs.members))
  }

  /**
   As written, a logger made by WithSerializers with a non-empty table
   panics on every entry it serializes, before any field is rewritten.
   */
  lemma AsWrittenPanicsOnEveryEntry(table: KeyTable, entry: LogEntry)
    requires |table| > 0
    ensures SerializedAsWritten(KeyTableSerializer(table), entry).Panicked?
  {
  }

  /** Where the as-written code does return, it agrees with the intended serializer. */
  lemma AsWrittenAgreesWhenItReturns(s: Serializer, entry: LogEntry)
    ensures SerializedAsWritten(s, entry).Returned? ==>
              SerializedAsWritten(s, entry).value == Serialized(s, entry)
    ensures s.NoSerializer? || |s.table| == 0 ==> SerializedAsWritten(s, entry).Returned?
  {
  }
}
