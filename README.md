# logaro, modelled in Dafny

logaro is a small hierarchical structured logger written in Go. You create a
root logger and derive child loggers from it. Each child inherits the
contextual fields of its ancestors and adds its own. A log call is filtered
by level, then gets the merged fields, optionally goes through a per-logger
serializer, and is finally written as one JSON entry.

This project models that core in four modules:

- `Values` (values.dfy): the field values and the `LogEntry` record. Go's
  `interface{}` values become a JSON-like `Value` datatype.
  `Unencodable` stands for anything `json.Marshal` rejects.
- `Utils` (utils.go): the severity table and the level filter. It also has
  the overlay loop that `mergeFields` runs twice, and entry comparison
  (`compareFieldValues`, `compareFields`, `compareLogEntries`).
- `Serializers` (the closure built in logaro.go and `serializeEntry` of
  utils.go): a serializer is either absent or a key table of transforms. The
  module gives the closure's loop, the entry it produces, and the closure as
  the source writes it (see Findings).
- `Logaro` (logaro.go): the `Logger` class and the `Sink`. `Logger` has
  `Level`, `Parent`, `Children`, `EventFields`, `Serializer` and `Writer`.
  Its methods are `GenerateLogger`, `MergeFields`, `SerializeEntry`, `Log`,
  `Child`, `WithFields` and `WithSerializers`. The module also holds the
  lemmas about the field merge and four usage scenarios.

Modelling decisions:

- `Child` allocates the new logger with `GenerateLogger`, which sets
  `Parent` to nil and `EventFields` to an empty map. It then assigns
  `child.Parent` and `child.EventFields` (logaro.go:67-70). Nothing assigns
  `Parent`, `EventFields` or `Writer` once `Child` returns. The model
  therefore makes them `const` fields and folds `Child`'s two assignments
  into the `Attach` constructor. A ghost `Depth` bounds the parent chain. `Valid()` states that the chain is
  finite and that each node's own fields cover its parent's keys.
- Every logger that `GenerateLogger`, `Child`, `WithFields` or
  `WithSerializers` returns satisfies `Valid()`. The methods that walk the
  chain take it as a precondition; it excludes no logger the package can
  build.
- `Level`, `Serializer` and `Children` are `var` fields. `Child` assigns
  `Level` after allocation. `WithFields` and `WithSerializers` assign
  `Serializer` after `Child` returns. `Child` appends to the caller's
  `Children` in place.
- `isEnabled`, `mergeFields` and `serializeEntry` appear twice in the source
  (utils.go and logaro.go, with identical text). Each is modelled once.
- `mergeFields` asks the parent to merge with the parent's own
  `EventFields` as the call-site fields. So a parent's fields are overlaid
  twice, which is harmless. `Logger.MergedFields` keeps this exact shape.
- The sink is a `Sink` object whose ghost `Trace` is every entry written so
  far. Encoding an entry fails, with nothing written, exactly when one of its
  field values cannot be marshalled.
- The clock reading is a `timestamp` parameter of `Log`.
- `Log` returns a `LogOutcome`: `Skipped`, `Written` or `EncodeFailed`. This
  value stands for the path the Go function takes. The Go function returns
  nothing and only prints a diagnostic on an encode error.
- Marshal-equality in `compareFieldValues` is structural equality of
  encodable values. `json.Marshal` writes map keys in sorted order, so its
  output is a canonical text of the value.
- An unknown level name has rank 0, like Go's zero value for a missing map
  key. An unknown call level is therefore dropped by every logger whose
  configured level is known. A logger whose configured level is unknown
  emits every call.

## Model

| member | source | states |
|---|---|---|
| `Utils.Rank` | utils.go:16-24 | a level's rank is at most 5 and is positive exactly for fatal, error, warn, info and debug |
| `Utils.IsEnabled` | utils.go:15-25 | with both names known, enabled iff the call level's severity is at least the configured one; an unknown call level under a known configured level is rejected; an unknown configured level accepts every call |
| `Utils.EnabledUpward` | utils.go:24 | a level at least as severe as an enabled level is enabled too |
| `Utils.SeverityOrder` | utils.go:16-22 | debug < info < warn < error < fatal; an info logger passes warn and drops debug |
| `Utils.Overlay` | utils.go:42-48 | the key-by-key copy loop yields `dst` overridden by `src` |
| `Utils.OverlayMeaning` | utils.go:42-48 | the overlay has the union of the key sets; `src` wins on a shared key and `dst` keeps the rest |
| `Utils.CompareFieldValuesNotReflexive` | utils.go:94-103 | a value that fails to marshal, even one nested in a list, does not compare equal to itself |
| `Utils.CompareFieldValues` | utils.go:94-103 | two values compare equal iff both marshal and are the same value, so equality implies structural equality |
| `Utils.CompareFields` | utils.go:77-92 | true iff the sizes agree and every key of `a` is in `b` with a value that compares equal |
| `Utils.FieldsMatchSameKeys` | utils.go:77-91 | field maps that compare equal have equal key sets |
| `Utils.FieldsMatchIffEqual` | utils.go:77-103 | two field maps compare equal iff they are equal and all their values marshal |
| `Utils.CompareLogEntries` | utils.go:69-75 | two entries compare equal iff they are the same entry and all its field values marshal |
| `Serializers.ApplyKeyTable` | logaro.go:87-95 | the closure's loop yields the input map with each table key it holds rewritten by that key's transform |
| `Serializers.ApplyTableOnMap` | logaro.go:88-92 | on a map the closure adds and removes no key, transforms every table key and leaves every other key alone |
| `Serializers.EmptyTableIsIdentity` | logaro.go:88-94 | with an empty table the closure returns its input unchanged |
| `Serializers.SerializedMeaning` | utils.go:60-67 | serializing keeps timestamp, level, message and the key set; no serializer keeps the whole entry; a table rewrites exactly its own keys |
| `Serializers.EmptyTableKeepsEntry` | utils.go:60-67 | a logger with an empty key table logs the entry unchanged |
| `Serializers.MaskRedactsOnlyItsKey` | logaro.go:84-95 | the table {"secret": mask} maps fields {"secret": "abc", "other": "x"} to {"secret": mask("abc"), "other": "x"} and keeps the message |
| `Serializers.ApplyTableAsWritten` | logaro.go:87-95 | the closure as written: it returns its input for an empty table, panics on any non-map input for a non-empty table, and on a map returns the intended rewrite |
| `Serializers.SerializedAsWritten` | utils.go:60-67 | serializeEntry as written: no serializer returns the entry, and whenever it returns, timestamp, level, message and field keys are kept |
| `Serializers.AsWrittenPanicsOnEveryEntry` | logaro.go:87-92 | as written, a non-empty key table panics on every entry it serializes |
| `Serializers.AsWrittenAgreesWhenItReturns` | utils.go:60-67 | where the as-written serializer returns (no serializer, or an empty table) it produces the intended entry |
| `Logaro.Sink.Encode` | logaro.go:45-50 | an encodable entry is appended to the trace whole; otherwise failure is reported and nothing is written |
| `Logaro.Logger.GenerateLogger` | logaro.go:16-25 | a root logger has level "info", no parent, no children, no fields and no serializer |
| `Logaro.Logger.Attach` | logaro.go:67-70 | a freshly generated logger with its parent link and its own fields set keeps the tree invariant |
| `Logaro.Logger.MergeFields` | utils.go:35-51 | the returned map is the parent's merge, overlaid by the node's own fields, overlaid by the call-site fields; nothing else changes |
| `Logaro.Logger.SerializeEntry` | utils.go:60-67 | (corrected closure) the entry after the logger's serializer has the same timestamp, level, message and field keys |
| `Logaro.Logger.Log` | logaro.go:32-52 | a disabled level writes nothing; an enabled level appends the one serialized entry with the call level and the merged fields when it encodes, and otherwise writes nothing and returns normally; no logger changes |
| `Logaro.Logger.Child` | logaro.go:66-75 | the child has the caller's level, the caller as parent, the caller's merge of `fields` as its own fields and no serializer; it is appended last to the caller's children, and the caller's level and serializer stay as they were |
| `Logaro.Logger.WithFields` | logaro.go:77-82 | as Child, except that the child carries the caller's serializer |
| `Logaro.Logger.WithSerializers` | logaro.go:84-98 | as Child with no fields, except that the child carries the key-table serializer of `table` |
| `Logaro.MergedKeysAndPrecedence` | utils.go:35-51 | the merged keys are the ancestors' keys, the node's keys and the call-site keys; call-site values win, then the node's own |
| `Logaro.MergedIsOwnFieldsOverlaid` | utils.go:38-48 | for every logger in the tree, root or child, the merge is its own fields overlaid by the call-site fields |
| `Logaro.ChildSeesOnlyItsChain` | logaro.go:70 | a child made with `x` sees its parent's merge of `x` overlaid by the call-site fields, so a sibling's fields never appear |
| `Logaro.SiblingsAreIsolated` | logaro.go:66-75 | under a parent with {"p": 1}, children made with {"x": 1} and {"y": 2} see {"p": 1, "x": 1} and {"p": 1, "y": 2} |
| `Logaro.WithFieldsThenLog` | logaro.go:77-82 | WithFields({"a": 1}) on a root, then an info call with {"b": 2}, writes one entry with fields {"a": 1, "b": 2} |
| `Logaro.DebugBelowInfoIsDropped` | logaro.go:33 | a debug call on an info logger writes nothing |
| `Logaro.MaskedFieldIsLogged` | logaro.go:84-98 | (corrected closure) logging through WithSerializers({"secret": mask}) writes the secret field masked and the other field unchanged |

## Left out

- JSON text encoding and the standard-output stream are not modelled. The
  sink keeps entries as values, so the byte-level idempotence and the
  decode round trip of the wire format are not stated.
- `Logaro.Sink.Encode`: a write error of the underlying stream is not
  modelled. Only marshalling failure makes encoding fail.
- The `fmt.Println` diagnostic on an encode error is not modelled. `Log`
  reports the `EncodeFailed` outcome instead.
- `time.Now().Format(time.RFC3339)` is a clock read. `Log` takes the
  timestamp as a parameter.
- Go's dynamic values are reduced to `Value`. Numbers are integers only,
  and floats and other numeric kinds that marshal to the same text are not
  distinguished.
- A serializer is only absent or a key table, since `WithSerializers` is
  the only place the package builds one. Transforms are total functions, so
  a transform that itself panics is not modelled.
- `Logaro.Logger.Attach`: Go's `Child` gives the new logger a fresh
  encoder on standard output. The model hands it the caller's `Sink`,
  which is the same destination as long as nobody reassigns `Writer`, and
  nothing in the package does.
- Reassigning a logger's public fields from outside the package is not
  modelled.
- The declarations of the `Logger` and `LogEntry` structs are not part of
  this model. Their fields are taken from their uses in utils.go and
  logaro.go.
- Concurrency: the package has no locking and nothing concurrent is
  modelled.
- `Logaro.Logger.Log`: with a non-empty key table the Go code panics (see
  Findings). `Log` uses the corrected closure and does not model the panic.
  The as-written behaviour is stated by `Serializers.SerializedAsWritten`.
- `Logaro.Logger.SerializeEntry`: it applies the corrected closure and
  always returns. With a non-empty key table the Go code panics on the
  message string instead, as `Serializers.AsWrittenPanicsOnEveryEntry`
  states.
- `Logaro.MaskedFieldIsLogged`: the scenario runs the corrected closure.
  The Go code panics on this exact input and writes nothing, as
  `Serializers.AsWrittenPanicsOnEveryEntry` states.
- `Logaro.Logger.WithSerializers`: the child keeps a copy of `table` taken
  at the call. The Go closure keeps a reference to the caller's map
  (logaro.go:84-88). A later write to that map by the caller changes the
  child's serializer in Go, but not in the model. For example, adding a key
  to an empty table makes every later `Log` on the child panic.

## Findings

| source | as written | input that shows it | evidently intended | confidence | as-written member | corrected member |
|---|---|---|---|---|---|---|
| logaro.go:87-92 with utils.go:62 | the `WithSerializers` closure asserts `data.(map[string]interface{})` on each turn of its loop, and `serializeEntry` first passes it the message string, so any non-empty table panics on every enabled `Log` call | `WithSerializers({"secret": mask})`, then `Log("info", "m", {"secret": "abc"})` | a non-map input (the message) passes through unchanged, and the table rewrites only the fields map | high; not executed | `Serializers.AsWrittenPanicsOnEveryEntry` | `Serializers.MaskRedactsOnlyItsKey` |
