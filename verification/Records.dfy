/** The record envelope and the one ordering (hubread/record.py).

    A record's content id is a function of everything but `seq`, so it is not a field here. */
module Records {
  import opened Wrappers
  import opened Ordering

  /** One payload value.  `Other` is any object no declared field type accepts (a float, a list),
      kept with the text an expression would read from it. */
  datatype Value = Null | Bool(b: bool) | Int(i: int) | Text(s: string) | Other(repr: string)

  type Payload = map<string, Value>

  /** Reading a name a payload lacks gives null, as `dict.get` does. */
  function Get(p: Payload, name: string): Value {
    if name in p then p[name] else Null
  }

  datatype Availability = Observed | Published | Derived

  const MIN_TIMESTAMP_MS := 946_684_800_000
  const MAX_TIMESTAMP_MS := 4_102_444_800_000

  datatype Record = Record(
    dataset: string, scope: string, key: string, revision: nat,
    knownAt: int, effectiveAt: int,
    periodStart: Option<int>, periodEnd: Option<int>,
    availability: Availability,
    source: string, sourceVersion: string, parser: string, rawRef: Option<string>,
    fields: Payload, seqNo: nat)

  predicate TimestampOk(t: int) { MIN_TIMESTAMP_MS <= t <= MAX_TIMESTAMP_MS }

  predicate ScopeChar(c: char) {
    'A' <= c <= 'Z' || '0' <= c <= '9' || c == '_' || c == ':' || c == '-'
  }

  predicate ScopeOk(s: string) {
    && 1 <= |s| <= 64
    && (forall i :: 0 <= i < |s| ==> ScopeChar(s[i]))
    && (exists i :: 0 <= i < |s| && 'A' <= s[i] <= 'Z')
  }

  predicate PeriodOk(start: Option<int>, end: Option<int>) {
    && (start.Some? ==> TimestampOk(start.value))
    && (end.Some? ==> TimestampOk(end.value))
    && (start.Some? && end.Some? ==> start.value <= end.value)
  }

  /** What the record constructor insists on. */
  predicate EnvelopeOk(r: Record) {
    && ScopeOk(r.scope) && r.key != "" && r.revision >= 1
    && TimestampOk(r.knownAt) && TimestampOk(r.effectiveAt)
    && PeriodOk(r.periodStart, r.periodEnd)
    && r.source != ""
  }

  // ---------------------------------------------------------------- sort_key

  /** `sort_key(a) < sort_key(b)`: known_at, scope, key, revision, seq, in that order. */
  predicate KeyLess(a: Record, b: Record) {
    if a.knownAt != b.knownAt then a.knownAt < b.knownAt
    else if a.scope != b.scope then StrLess(a.scope, b.scope)
    else if a.key != b.key then StrLess(a.key, b.key)
    else if a.revision != b.revision then a.revision < b.revision
    else a.seqNo < b.seqNo
  }

  predicate KeyLe(a: Record, b: Record) { !KeyLess(b, a) }

  predicate SameKey(a: Record, b: Record) {
    a.knownAt == b.knownAt && a.scope == b.scope && a.key == b.key && a.revision == b.revision && a.seqNo == b.seqNo
  }

  /** No two records of `rs` share a sort key unless they are one record. */
  ghost predicate DistinctKeys(rs: seq<Record>) {
    forall i, j :: 0 <= i < |rs| && 0 <= j < |rs| && SameKey(rs[i], rs[j]) ==> rs[i] == rs[j]
  }

  lemma KeyLessTransitive(a: Record, b: Record, c: Record)
    requires KeyLess(a, b) && KeyLess(b, c)
    ensures KeyLess(a, c)
  {
    if StrLess(a.scope, b.scope) && StrLess(b.scope, c.scope) { StrTransitive(a.scope, b.scope, c.scope); }
    if StrLess(a.key, b.key) && StrLess(b.key, c.key) { StrTransitive(a.key, b.key, c.key); }
    if a.scope == c.scope && a.scope != b.scope && a.knownAt == b.knownAt == c.knownAt {
      StrTransitive(a.scope, b.scope, c.scope);
      StrIrreflexive(a.scope);
    } else if a.key == c.key && a.key != b.key && a.scope == b.scope == c.scope && a.knownAt == b.knownAt == c.knownAt {
      StrTransitive(a.key, b.key, c.key);
      StrIrreflexive(a.key);
    }
  }

  lemma KeyTrichotomy(a: Record, b: Record)
    ensures KeyLess(a, b) || SameKey(a, b) || KeyLess(b, a)
    ensures !(KeyLess(a, b) && KeyLess(b, a))
    ensures SameKey(a, b) ==> !KeyLess(a, b)
  {
    StrTotal(a.scope, b.scope);
    StrTotal(a.key, b.key);
    StrIrreflexive(a.scope);
    StrIrreflexive(a.key);
    if StrLess(a.scope, b.scope) && StrLess(b.scope, a.scope) { StrTransitive(a.scope, b.scope, a.scope); }
    if StrLess(a.key, b.key) && StrLess(b.key, a.key) { StrTransitive(a.key, b.key, a.key); }
  }

  lemma KeyLeTransitive(a: Record, b: Record, c: Record)
    requires KeyLe(a, b) && KeyLe(b, c)
    ensures KeyLe(a, c)
  {
    KeyTrichotomy(a, b);
    KeyTrichotomy(b, c);
    if KeyLess(c, a) {
      if KeyLess(a, b) {
        KeyLessTransitive(c, a, b);
      } else if KeyLess(b, c) {
        KeyLessTransitive(b, c, a);
      }
    }
  }

  /** The one ordering is a total preorder that only equal sort keys tie. */
  lemma KeyOrder()
    ensures Preorder(KeyLe)
    ensures forall a, b :: KeyLe(a, b) && KeyLe(b, a) <==> SameKey(a, b)
  {
    forall a, b
      ensures KeyLe(a, b) || KeyLe(b, a)
      ensures KeyLe(a, b) && KeyLe(b, a) <==> SameKey(a, b)
    {
      KeyTrichotomy(a, b);
    }
    forall a, b, c | KeyLe(a, b) && KeyLe(b, c) ensures KeyLe(a, c) { KeyLeTransitive(a, b, c); }
  }

  function SortRecords(rs: seq<Record>): seq<Record> { Sort(rs, KeyLe) }

  /** With distinct sort keys the sorted journal does not depend on the order of its lines. */
  lemma SortRecordsOrderIndependent(a: seq<Record>, b: seq<Record>)
    requires multiset(a) == multiset(b) && DistinctKeys(a)
    ensures SortRecords(a) == SortRecords(b)
  {
    KeyOrder();
    SortOrderIndependent(a, b, KeyLe);
  }
}
