/**
 The helpers of utils.go that do not depend on the serializer: the level
 filter, the map overlay loops of the field merger, and entry comparison.
 */
module Utils {
  import opened Values

  // ---------------------------------------------------------------------
  // Level filter
  // ---------------------------------------------------------------------

  /** The fixed severity table; a name outside it has Go's zero value, 0. */
  const Severity: map<string, nat> :=
    map["fatal" := 5, "error" := 4, "warn" := 3, "info" := 2, "debug" := 1]

  /** The rank a map lookup in the severity table yields. */
  function Rank(level: string): (r: nat)
    ensures r <= 5
    ensures r > 0 <==> level in {"fatal", "error", "warn", "info", "debug"}
  {
    if level in Severity then Severity[level] else 0
  }

  /** Whether a logger configured at `configured` emits an entry at `level`. */
  function IsEnabled(configured: string, level: string): (enabled: bool)
    ensures configured in Severity && level in Severity ==>
              (enabled <==> Severity[level] >= Severity[configured])
    ensures configured in Severity && level !in Severity ==> !enabled
    ensures configured !in Severity ==> enabled
  {
    Rank(level) >= Rank(configured)
  }

  /** The filter is a total preorder on names: a level at least as severe as an enabled one is enabled. */
  lemma EnabledUpward(configured: string, level: string, higher: string)
    requires IsEnabled(configured, level) && Rank(higher) >= Rank(level)
    ensures IsEnabled(configured, higher)
  {
  }

  /** The five named levels in increasing severity. */
  lemma SeverityOrder()
    ensures Rank("debug") < Rank("info") < Rank("warn") < Rank("error") < Rank("fatal")
    ensures IsEnabled("info", "warn") && !IsEnabled("info", "debug")
  {
  }

  // ---------------------------------------------------------------------
  // Map overlay: `for key, val := range src { dst[key] = val }`
  // ---------------------------------------------------------------------

  /** Copies every entry of `src` over `dst`, one key at a time; the later writer wins. */
  method Overlay(dst: Fields, src: Fields) returns (r: Fields)
    ensures r == dst + src
  {
    r := dst;
    var todo := src.Keys;
    while todo != {}
      invariant todo <= src.Keys
      invariant r.Keys == dst.Keys + (src.Keys - todo)
      invariant forall k :: k in src && k !in todo ==> r[k] == src[k]
      invariant forall k :: k in dst && (k !in src || k in todo) ==> r[k] == dst[k]
      decreases todo
    {
      var key :| key in todo;
      r := r[key := src[key]];
      todo := todo - {key};
    }
  }

  /** The overlay keeps the union of the keys, with `src` winning on shared keys. */
  lemma OverlayMeaning(dst: Fields, src: Fields, k: string)
    ensures (dst + src).Keys == dst.Keys + src.Keys
    ensures k in src ==> (dst + src)[k] == src[k]
    ensures k in dst && k !in src ==> (dst + src)[k] == dst[k]
  {
  }

  // ---------------------------------------------------------------------
  // Entry comparison
  // ---------------------------------------------------------------------

  /**
   Two field values compare equal iff both marshal and their JSON texts are
   equal. Map keys are marshalled in sorted order, so the text is a
   canonical form and equal texts mean structurally equal values.
   */
  function CompareFieldValues(a: Value, b: Value): (same: bool)
    ensures same ==> a == b
    ensures same <==> a == b && Encodable(a)
  {
    Encodable(a) && Encodable(b) && a == b
  }

  /** Equality through marshalling is not reflexive: an unencodable value differs from itself. */
  lemma CompareFieldValuesNotReflexive()
    ensures !CompareFieldValues(Unencodable, Unencodable)
    ensures !CompareFieldValues(List([Unencodable]), List([Unencodable]))
  {
    assert List([Unencodable]).items[0] == Unencodable;
  }

  /** The comparison compareFields performs: same size, and every key of `a` found in `b` with a value comparing equal. */
  ghost predicate FieldsMatch(a: Fields, b: Fields)
  {
    |a| == |b| && forall k :: k in a ==> k in b && CompareFieldValues(a[k], b[k])
  }

  /** Scans the keys of `a`, stopping at the first missing key or differing value. */
  method CompareFields(a: Fields, b: Fields) returns (same: bool)
    ensures same <==> FieldsMatch(a, b)
  {
    if |a| != |b| {
      return false;
    }
    var todo := a.Keys;
    while todo != {}
      invariant todo <= a.Keys
      invariant forall k :: k in a && k !in todo ==> k in b && CompareFieldValues(a[k], b[k])
      decreases todo
    {
      var key :| key in todo;
      if key !in b || !CompareFieldValues(a[key], b[key]) {
        return false;
      }
      todo := todo - {key};
    }
    return true;
  }

  /** A subset of a finite set with the same size is the whole set. */
  lemma SubsetOfSameSize(x: set<string>, y: set<string>)
    requires x <= y && |x| == |y|
    ensures x == y
  {
    var extra := y - x;
    assert y == x + extra;
    assert |y| == |x| + |extra|;
  }

  /** Matching field maps have the same key set. */
  lemma FieldsMatchSameKeys(a: Fields, b: Fields)
    requires FieldsMatch(a, b)
    ensures a.Keys == b.Keys
  {
    assert |a.Keys| == |a| && |b.Keys| == |b|;
    SubsetOfSameSize(a.Keys, b.Keys);
  }

  /** compareFields is map equality restricted to maps whose values all marshal. */
  lemma FieldsMatchIffEqual(a: Fields, b: Fields)
    ensures FieldsMatch(a, b) <==> a == b && FieldsEncodable(a)
  {
    if FieldsMatch(a, b) {
      FieldsMatchSameKeys(a, b);
      assert forall k :: k in a ==> a[k] == b[k];
    }
  }

  /** Compares timestamp, message, level and fields, in that order. */
  method CompareLogEntries(a: LogEntry, b: LogEntry) returns (same: bool)
    ensures same <==> a == b && EntryEncodable(a)
  {
    same := a.timestamp == b.timestamp && a.message == b.message && a.level == b.level;
    if same {
      same := CompareFields(a.fields, b.fields);
    }
    FieldsMatchIffEqual(a.fields, b.fields);
  }
}
