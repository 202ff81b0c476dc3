/**
 The logger tree of logaro.go: loggers, their derivation, the field merge
 up the parent chain, and `Log`.
 */
module Logaro {
  import opened Values
  import Utils
  import opened Serializers

  /**
   The JSON-lines sink. `Trace` is every entry written so far. Encoding
   fails, and nothing is written, when an entry holds a value the encoder
   cannot marshal.
   */
  class Sink {
    ghost var Trace: seq<LogEntry>

    constructor ()
      ensures Trace == []
    {
      Trace := [];
    }

    /** Encodes one entry: either the whole entry is written or the call reports failure. */
    method Encode(entry: LogEntry) returns (ok: bool)
      modifies this
      ensures ok <==> EntryEncodable(entry)
      ensures Trace == if ok then old(Trace) + [entry] else old(Trace)
    {
      ok := EntryEncodable(entry);
      if ok {
        Trace := Trace + [entry];
      }
    }
  }

  /** What a call to `Log` did. */
  datatype LogOutcome = Skipped | Written | EncodeFailed

  /**
   A node of the logger tree. Child allocates a logger with GenerateLogger
   and then assigns its parent link and its own fields; nothing assigns
   them again afterwards, so here they are constants given to the `Attach`
   constructor. The level, the serializer and the list of children are
   fields that the derivation methods assign.
   */
  class Logger {
    var Level: string
    const Parent: Logger?
    var Children: seq<Logger>
    const EventFields: Fields
    var Serializer: Serializer
    const Writer: Sink
    /** The number of ancestors; it bounds the walk up the parent chain. */
    ghost const Depth: nat

    /**
     The tree invariant: the parent chain is finite, and a node's own fields
     cover every key of its parent's, since they were merged from the parent
     when the node was made.
     */
    ghost predicate Valid()
      decreases Depth
    {
      Parent != null ==>
        && Parent.Depth < Depth
        && Parent.EventFields.Keys <= EventFields.Keys
        && Parent.Valid()
    }

    /** A root logger: level "info", no parent, no children, no fields, no serializer. */
    constructor GenerateLogger(writer: Sink)
      ensures Valid()
      ensures Level == "info" && Parent == null && Children == []
      ensures EventFields == map[] && Serializer == NoSerializer && Writer == writer
    {
      Level := "info";
      Parent := null;
      Children := [];
      EventFields := map[];
      Serializer := NoSerializer;
      Writer := writer;
      Depth := 0;
    }

    /**
     A fresh logger as GenerateLogger makes it, with its parent link and
     its own fields set; it writes to the same standard output as its parent.
     */
    constructor Attach(parent: Logger, eventFields: Fields)
      requires parent.Valid() && parent.EventFields.Keys <= eventFields.Keys
      ensures Valid()
      ensures Level == "info" && Parent == parent && Children == []
      ensures EventFields == eventFields && Serializer == NoSerializer && Writer == parent.Writer
    {
      Level := "info";
      Parent := parent;
      Children := [];
      EventFields := eventFields;
      Serializer := NoSerializer;
      Writer := parent.Writer;
      Depth := parent.Depth + 1;
    }

    // -------------------------------------------------------------------
    // Field merger
    // -------------------------------------------------------------------

    /**
     The fields in effect for a call with call-site `fields`: the parent's
     merge of its own fields, overlaid by this node's fields, overlaid by
     the call-site fields.
     */
    ghost function MergedFields(fields: Fields): Fields
      requires Valid()
      decreases Depth
    {
      (if Parent == null then map[] else Parent.MergedFields(Parent.EventFields)) + EventFields + fields
    }

    /** The keys contributed by the ancestors' own fields. */
    ghost function AncestorKeys(): set<string>
      requires Valid()
      decreases Depth
    {
      if Parent == null then {} else Parent.AncestorKeys() + Parent.EventFields.Keys
    }

    /** Builds a fresh map: the parent's merge first, then two overlay loops. */
    method MergeFields(fields: Fields) returns (merged: Fields)
      requires Valid()
      ensures merged == MergedFields(fields)
      decreases Depth
    {
      merged := map[];
      if Parent != null {
        merged := Parent.MergeFields(Parent.EventFields);
      }
      merged := Utils.Overlay(merged, EventFields);
      merged := Utils.Overlay(merged, fields);
    }

    // -------------------------------------------------------------------
    // Serializer application and Log
    // -------------------------------------------------------------------

    /**
     Runs the serializer over the message and then over the fields, using
     the corrected key-table closure, which passes the message string
     through unchanged. With that closure both type assertions succeed. The
     closure as written panics on the message whenever its table is
     non-empty (`Serializers.SerializedAsWritten`).
     */
    method SerializeEntry(entry: LogEntry) returns (r: LogEntry)
      ensures r == Serialized(Serializer, entry)
      ensures r.timestamp == entry.timestamp && r.level == entry.level && r.message == entry.message
      ensures r.fields.Keys == entry.fields.Keys
    {
      r := entry;
      if Serializer.KeyTableSerializer? {
        var msg := ApplyKeyTable(Serializer.table, Str(entry.message));
        var fs := ApplyKeyTable(Serializer.table, Object(entry.fields));
        r := r.(message := msg.s, fields := fs.members);
      }
    }

    /**
     Emits one entry at `level` if the filter lets it through. `timestamp`
     is the clock reading the call would take.
     */
    method Log(level: string, message: string, fields: Fields, timestamp: string) returns (outcome: LogOutcome)
      requires Valid()
      modifies Writer
      ensures unchanged(this)
      ensures !Utils.IsEnabled(Level, level) ==> outcome == Skipped && unchanged(Writer)
      ensures Utils.IsEnabled(Level, level) ==>
                var entry := Serialized(Serializer, LogEntry(timestamp, message, level, MergedFields(fields)));
                && outcome != Skipped
                && (outcome == Written <==> EntryEncodable(entry))
                && Writer.Trace == old(Writer.Trace) + (if outcome == Written then [entry] else [])
    {
      if !Utils.IsEnabled(Level, level) {
        return Skipped;
      }
      var merged := MergeFields(fields);
      var entry := LogEntry(timestamp, message, level, merged);
      if Serializer.KeyTableSerializer? {
        entry := SerializeEntry(entry);
      }
      var ok := Writer.Encode(entry);
      outcome := if ok then Written else EncodeFailed;
    }

    // -------------------------------------------------------------------
    // Deriving loggers
    // -------------------------------------------------------------------

    /**
     A new child with this logger's level, this logger as parent, the merge
     of `fields` as its own fields and no serializer; it is appended to the
     children and nothing else of this logger changes.
     */
    method Child(fields: Fields) returns (child: Logger)
      requires Valid()
      modifies this`Children
      ensures fresh(child) && child.Valid()
      ensures child.Level == Level && child.Parent == this && child.Children == []
      ensures child.EventFields == MergedFields(fields)
      ensures child.Serializer == NoSerializer && child.Writer == Writer
      ensures Children == old(Children) + [child]
      ensures Level == old(Level) && Serializer == old(Serializer)
    {
      var merged := MergeFields(fields);
      child := new Logger.Attach(this, merged);
      child.Level := Level;
      Children := Children + [child];
    }

    /** Like Child, but the new logger keeps this logger's serializer. */
    method WithFields(fields: Fields) returns (child: Logger)
      requires Valid()
      modifies this`Children
      ensures fresh(child) && child.Valid()
      ensures child.Level == Level && child.Parent == this && child.Children == []
      ensures child.EventFields == MergedFields(fields)
      ensures child.Serializer == Serializer && child.Writer == Writer
      ensures Children == old(Children) + [child]
      ensures Level == old(Level) && Serializer == old(Serializer)
    {
      child := Child(fields);
      child.Serializer := Serializer;
    }

    /** A child with no call-site fields that rewrites the keys of `table` when it logs. */
    method WithSerializers(table: KeyTable) returns (child: Logger)
      requires Valid()
      modifies this`Children
      ensures fresh(child) && child.Valid()
      ensures child.Level == Level && child.Parent == this && child.Children == []
      ensures child.EventFields == MergedFields(map[])
      ensures child.Serializer == KeyTableSerializer(table) && child.Writer == Writer
      ensures Children == old(Children) + [child]
      ensures Level == old(Level) && Serializer == old(Serializer)
    {
      child := Child(map[]);
      child.Serializer := KeyTableSerializer(table);
    }
  }

  // ---------------------------------------------------------------------
  // Properties of the merge
  // ---------------------------------------------------------------------

  /** The merged keys are the ancestors' keys, the node's own keys and the call-site keys, and the later source wins. */
  lemma {:induction false} MergedKeysAndPrecedence(l: Logger, fields: Fields, k: string)
    requires l.Valid()
    ensures l.MergedFields(fields).Keys == l.AncestorKeys() + l.EventFields.Keys + fields.Keys
    ensures k in fields ==> l.MergedFields(fields)[k] == fields[k]
    ensures k in l.EventFields && k !in fields ==> l.MergedFields(fields)[k] == l.EventFields[k]
    decreases l.Depth
  {
    if l.Parent != null {
      MergedKeysAndPrecedence(l.Parent, l.Parent.EventFields, k);
    }
  }

  /**
   Every node's own fields already hold its ancestors' merge, so the merge
   is just the node's fields overlaid by the call-site fields. For a root
   this is the definition itself.
   */
  lemma {:induction false} MergedIsOwnFieldsOverlaid(l: Logger, fields: Fields)
    requires l.Valid()
    ensures l.MergedFields(fields) == l.EventFields + fields
    decreases l.Depth
  {
    if l.Parent != null {
      var p := l.Parent;
      MergedIsOwnFieldsOverlaid(p, p.EventFields);
      assert p.MergedFields(p.EventFields) == p.EventFields;
      assert p.EventFields + l.EventFields == l.EventFields;
    }
  }

  /**
   A node made by `p.Child(x)` sees exactly the parent's merge of `x`
   overlaid by the call-site fields: the keys it sees come from the parent
   chain, `x` and the call site, never from a sibling.
   */
  lemma ChildSeesOnlyItsChain(p: Logger, c: Logger, x: Fields, fields: Fields)
    requires p.Valid() && c.Valid()
    requires c.Parent == p && c.EventFields == p.MergedFields(x)
    ensures c.MergedFields(fields) == p.MergedFields(x) + fields
    ensures c.MergedFields(fields).Keys == p.AncestorKeys() + p.EventFields.Keys + x.Keys + fields.Keys
  {
    MergedIsOwnFieldsOverlaid(c, fields);
    MergedKeysAndPrecedence(p, x, "");
  }

  // ---------------------------------------------------------------------
  // Usage scenarios
  // ---------------------------------------------------------------------

  /** Two children of one parent each see the parent's fields and their own, not each other's. */
  method SiblingsAreIsolated(out: Sink) returns (a: Logger, b: Logger)
    ensures a.Valid() && b.Valid()
    ensures a.MergedFields(map[]) == map["p" := Num(1), "x" := Num(1)]
    ensures b.MergedFields(map[]) == map["p" := Num(1), "y" := Num(2)]
  {
    var root := new Logger.GenerateLogger(out);
    var p := root.Child(map["p" := Num(1)]);
    a := p.Child(map["x" := Num(1)]);
    b := p.Child(map["y" := Num(2)]);
    MergedIsOwnFieldsOverlaid(a, map[]);
    MergedIsOwnFieldsOverlaid(b, map[]);
    MergedIsOwnFieldsOverlaid(p, map["x" := Num(1)]);
    MergedIsOwnFieldsOverlaid(p, map["y" := Num(2)]);
    MergedIsOwnFieldsOverlaid(root, map["p" := Num(1)]);
  }

  /** WithFields({"a": 1}) on a root, then Log at "info" with {"b": 2}, writes one entry with fields {"a": 1, "b": 2}. */
  method WithFieldsThenLog(out: Sink, timestamp: string, message: string)
    modifies out
    ensures out.Trace == old(out.Trace) + [LogEntry(timestamp, message, "info", map["a" := Num(1), "b" := Num(2)])]
  {
    var root := new Logger.GenerateLogger(out);
    var c := root.WithFields(map["a" := Num(1)]);
    MergedIsOwnFieldsOverlaid(root, map["a" := Num(1)]);
    MergedIsOwnFieldsOverlaid(c, map["b" := Num(2)]);
    var expected := map["a" := Num(1), "b" := Num(2)];
    assert c.MergedFields(map["b" := Num(2)]) == expected;
    assert EntryEncodable(LogEntry(timestamp, message, "info", expected));
    var outcome := c.Log("info", message, map["b" := Num(2)], timestamp);
  }

  /** A logger at "info" writes nothing for a "debug" call. */
  method DebugBelowInfoIsDropped(out: Sink, timestamp: string, message: string, fields: Fields)
    modifies out
    ensures out.Trace == old(out.Trace)
  {
    var root := new Logger.GenerateLogger(out);
    var outcome := root.Log("debug", message, fields, timestamp);
  }

  /** WithSerializers({"secret": mask}) rewrites the secret field of what it logs and leaves the rest alone. */
  method MaskedFieldIsLogged(out: Sink, mask: Transform, timestamp: string, message: string)
    modifies out
    ensures Encodable(mask(Str("abc"))) ==>
              out.Trace == old(out.Trace) +
                [LogEntry(timestamp, message, "warn", map["secret" := mask(Str("abc")), "other" := Str("x")])]
    ensures !Encodable(mask(Str("abc"))) ==> out.Trace == old(out.Trace)
  {
    var root := new Logger.GenerateLogger(out);
    var s := root.WithSerializers(map["secret" := mask]);
    var fields := map["secret" := Str("abc"), "other" := Str("x")];
    MergedIsOwnFieldsOverlaid(root, map[]);
    MergedIsOwnFieldsOverlaid(s, fields);
    MaskRedactsOnlyItsKey(mask, LogEntry(timestamp, message, "warn", fields));
    assert s.MergedFields(fields) == fields;
    var masked := map["secret" := mask(Str("abc")), "other" := Str("x")];
    assert masked["secret"] == mask(Str("abc")) && Encodable(masked["other"]);
    assert FieldsEncodable(masked) <==> Encodable(mask(Str("abc")));
    var outcome := s.Log("warn", message, fields, timestamp);
  }
}
