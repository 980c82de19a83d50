/** The QKH1 snapshot format (hub/snapshot.py, hubread/snapshot.py).

    Encoder and decoder live in separate packages of the original and share only the layout.
    SHA-256 is any function to 32 bytes; that it does not collide is asked for only where a
    corruption is to be caught, and only of the two bodies concerned. */
module Snapshot {
  import opened Wrappers
  import opened Ordering
  import opened Decimals
  import opened Records
  import opened Schemas
  import opened Bytes

  /** What the format takes from outside: the digest and the schema's own hash. */
  datatype Layout = Layout(sha: Buffer -> Buffer, schemaHash: Buffer)

  ghost predicate LayoutOk(f: Layout) {
    |f.schemaHash| == 32 && forall b :: |f.sha(b)| == 32
  }

  const MAGIC: Buffer := [0x51, 0x4B, 0x48, 0x31]   // "QKH1"
  const VERSION := 1
  const NULL_DICT_INDEX := -1
  const FIXED_ROW_BYTES := 8 * 4 + 4 * 3 + 1 + 8 + 4 * 4

  datatype SnapshotField = SnapshotField(name: string, fieldType: FieldType, unit: string)

  datatype Dictionaries = Dictionaries(
    scopes: seq<string>, keys: seq<string>, sources: seq<string>,
    sourceVersions: seq<string>, parsers: seq<string>, rawRefs: seq<string>)

  datatype Header = Header(
    schemaHash: Buffer, dataset: string, count: nat, scale: nat,
    fields: seq<SnapshotField>, dicts: Dictionaries)

  datatype Columns = Columns(
    knownAt: seq<int>, effectiveAt: seq<int>, periodStart: seq<int>, periodEnd: seq<int>,
    scope: seq<int>, key: seq<int>, revision: seq<int>, availability: seq<int>, seqNo: seq<int>,
    source: seq<int>, sourceVersion: seq<int>, parser: seq<int>, rawRef: seq<int>,
    fields: seq<seq<int>>)

  // ---------------------------------------------------------------- one value

  predicate IsStorable(t: FieldType) { !t.StringType? }

  /** The stored integer of one field value; `None` where the encoder refuses. */
  function EncodeFieldValue(t: FieldType, v: Value): Option<int> {
    if v.Null? then Some(NULL_SENTINEL)
    else match t
      case NumberType =>
        var n :- NumberOf(v);
        ToScale8(n)
      case BoolType => if v.Bool? then Some(if v.b then 1 else 0) else None
      case TimestampType => if v.Int? then Some(v.i) else None
      case EnumType => if v.Int? then Some(v.i) else None
      case StringType => None
  }

  function DecodeFieldValue(t: FieldType, raw: int, scale: nat): Value {
    if raw == NULL_SENTINEL then Null
    else match t
      case NumberType => Text(Format(FromScaled(raw, scale)))
      case BoolType => Bool(raw != 0)
      case _ => Int(raw)
  }

  /** A value that validation would return as it is. */
  predicate Normal(spec: FieldSpec, v: Value) { v.Null? || ValidateField(spec, v) == Some(v) }

  /** The one legitimate value the format cannot tell from absence. */
  predicate CollidesWithNull(v: Value) { v == Int(NULL_SENTINEL) }

  lemma CanonicalTextStays(spec: FieldSpec, v: Value)
    requires spec.fieldType.NumberType? && !v.Null? && ValidateField(spec, v) == Some(v)
    ensures NumberOf(v).Some? && ToScale8(NumberOf(v).value).Some?
    ensures v == Text(Format(FromScale8(ToScale8(NumberOf(v).value).value)))
    ensures NULL_SENTINEL < ToScale8(NumberOf(v).value).value < I64_LIMIT
  {
    Scale8Exact(NumberOf(v).value);
  }

  /** A normal value comes back exactly, except the integer that is the null mark. */
  lemma ValueRoundTrip(spec: FieldSpec, v: Value)
    requires IsStorable(spec.fieldType) && Normal(spec, v)
    ensures EncodeFieldValue(spec.fieldType, v).Some?
    ensures DecodeFieldValue(spec.fieldType, EncodeFieldValue(spec.fieldType, v).value, SCALE) ==
            if CollidesWithNull(v) then Null else v
  {
    if !v.Null? && spec.fieldType.NumberType? { CanonicalTextStays(spec, v); }
  }

  // ---------------------------------------------------------------- dictionaries

  /** Neighbouring repeats dropped. */
  function DropRepeats(ss: seq<string>): seq<string> {
    if |ss| <= 1 then ss
    else if ss[0] == ss[1] then DropRepeats(ss[1..])
    else [ss[0]] + DropRepeats(ss[1..])
  }

  /** The sorted distinct values of one column. */
  function Dictionary(ss: seq<string>): seq<string> { DropRepeats(Sort(ss, StrLe)) }

  function IndexIn(ss: seq<string>, s: string): (i: nat)
    requires s in ss
    ensures i < |ss| && ss[i] == s
  {
    if ss[0] == s then 0 else 1 + IndexIn(ss[1..], s)
  }

  lemma {:induction false} DropRepeatsMembers(ss: seq<string>, s: string)
    ensures s in DropRepeats(ss) <==> s in ss
    ensures |DropRepeats(ss)| <= |ss|
  {
    if |ss| <= 1 {
    } else {
      DropRepeatsMembers(ss[1..], s);
      assert ss == [ss[0]] + ss[1..];
    }
  }

  lemma DictionaryMembers(ss: seq<string>, s: string)
    ensures s in Dictionary(ss) <==> s in ss
  {
    DropRepeatsMembers(Sort(ss, StrLe), s);
    SortMember(ss, StrLe, s);
  }

  lemma {:induction false} DropRepeatsAscends(ss: seq<string>)
    requires Sorted(ss, StrLe)
    ensures forall i, j :: 0 <= i < j < |DropRepeats(ss)| ==> StrLess(DropRepeats(ss)[i], DropRepeats(ss)[j])
  {
    if |ss| <= 1 {
    } else {
      DropRepeatsAscends(ss[1..]);
      var rest := DropRepeats(ss[1..]);
      if ss[0] != ss[1] {
        forall s | s in rest ensures StrLess(ss[0], s) {
          DropRepeatsMembers(ss[1..], s);
          var k :| 0 <= k < |ss[1..]| && ss[1..][k] == s;
          StrIrreflexive(s);
          assert k > 0 ==> StrLe(ss[1..][0], ss[1..][k]);
          Between(ss[0], ss[1], s);
        }
      }
    }
  }

  lemma Between(a: string, b: string, c: string)
    requires StrLe(a, b) && a != b && StrLe(b, c)
    ensures StrLess(a, c)
  {
    StrOrder();
    StrTotal(a, b);
    StrTotal(b, c);
    if b != c { StrTransitive(a, b, c); }
  }

  /** A dictionary is in order and holds nothing twice. */
  lemma DictionaryAscends(ss: seq<string>)
    ensures forall i, j :: 0 <= i < j < |Dictionary(ss)| ==> StrLess(Dictionary(ss)[i], Dictionary(ss)[j])
  {
    StrOrder();
    SortSorted(ss, StrLe);
    DropRepeatsAscends(Sort(ss, StrLe));
  }

  // ---------------------------------------------------------------- the tables of a record list

  function Project<T>(rs: seq<Record>, f: Record -> T): (ts: seq<T>)
    ensures |ts| == |rs|
    ensures forall i :: 0 <= i < |rs| ==> ts[i] == f(rs[i])
  {
    if rs == [] then [] else [f(rs[0])] + Project(rs[1..], f)
  }

  function RawRefs(rs: seq<Record>): seq<string> {
    if rs == [] then []
    else (if rs[0].rawRef.Some? then [rs[0].rawRef.value] else []) + RawRefs(rs[1..])
  }

  lemma {:induction false} RawRefMembers(rs: seq<Record>, d: string)
    ensures d in RawRefs(rs) <==> exists r :: r in rs && r.rawRef == Some(d)
  {
    if rs == [] {
    } else {
      RawRefMembers(rs[1..], d);
      assert rs == [rs[0]] + rs[1..];
    }
  }

  lemma {:induction false} RawRefMember(rs: seq<Record>, i: nat)
    requires i < |rs| && rs[i].rawRef.Some?
    ensures rs[i].rawRef.value in RawRefs(rs)
  {
    if i > 0 { RawRefMember(rs[1..], i - 1); }
  }

  function DictionariesOf(rs: seq<Record>): Dictionaries {
    Dictionaries(
      Dictionary(Project(rs, (r: Record) => r.scope)),
      Dictionary(Project(rs, (r: Record) => r.key)),
      Dictionary(Project(rs, (r: Record) => r.source)),
      Dictionary(Project(rs, (r: Record) => r.sourceVersion)),
      Dictionary(Project(rs, (r: Record) => r.parser)),
      Dictionary(RawRefs(rs)))
  }

  ghost predicate Indexed(d: Dictionaries, r: Record) {
    && r.scope in d.scopes && r.key in d.keys && r.source in d.sources
    && r.sourceVersion in d.sourceVersions && r.parser in d.parsers
    && (r.rawRef.Some? ==> r.rawRef.value in d.rawRefs)
  }

  lemma EveryRecordIndexed(rs: seq<Record>, i: nat)
    requires i < |rs|
    ensures Indexed(DictionariesOf(rs), rs[i])
  {
    var r := rs[i];
    var scopes := Project(rs, (r: Record) => r.scope);
    assert scopes[i] == r.scope;
    DictionaryMembers(scopes, r.scope);
    var keys := Project(rs, (r: Record) => r.key);
    assert keys[i] == r.key;
    DictionaryMembers(keys, r.key);
    var sources := Project(rs, (r: Record) => r.source);
    assert sources[i] == r.source;
    DictionaryMembers(sources, r.source);
    var versions := Project(rs, (r: Record) => r.sourceVersion);
    assert versions[i] == r.sourceVersion;
    DictionaryMembers(versions, r.sourceVersion);
    var parsers := Project(rs, (r: Record) => r.parser);
    assert parsers[i] == r.parser;
    DictionaryMembers(parsers, r.parser);
    if r.rawRef.Some? {
      RawRefMember(rs, i);
      DictionaryMembers(RawRefs(rs), r.rawRef.value);
    }
  }

  function IndexOr(ss: seq<string>, s: string): int {
    if s in ss then IndexIn(ss, s) else NULL_DICT_INDEX
  }

  function RawRefIndex(ss: seq<string>, ref: Option<string>): int {
    if ref.None? then NULL_DICT_INDEX else IndexOr(ss, ref.value)
  }

  function OrSentinel(t: Option<int>): int { if t.Some? then t.value else NULL_SENTINEL }

  function Ordinal(a: Availability): int {
    match a case Observed => 0 case Published => 1 case Derived => 2
  }

  function CellOf(f: SnapshotField, r: Record): int {
    var raw := EncodeFieldValue(f.fieldType, Get(r.fields, f.name));
    if raw.Some? then raw.value else 0
  }

  /** The storable fields of a schema, in declaration order. */
  function FieldTable(s: Schema, names: seq<string>): seq<SnapshotField>
    requires forall n :: n in names ==> n in s.fields
  {
    if names == [] then []
    else
      var spec := s.fields[names[0]];
      (if IsStorable(spec.fieldType) then [SnapshotField(names[0], spec.fieldType, spec.unit)] else [])
        + FieldTable(s, names[1..])
  }

  function ColumnsOf(rs: seq<Record>, d: Dictionaries, fields: seq<SnapshotField>): Columns {
    Columns(
      Project(rs, (r: Record) => r.knownAt),
      Project(rs, (r: Record) => r.effectiveAt),
      Project(rs, (r: Record) => OrSentinel(r.periodStart)),
      Project(rs, (r: Record) => OrSentinel(r.periodEnd)),
      Project(rs, (r: Record) => IndexOr(d.scopes, r.scope)),
      Project(rs, (r: Record) => IndexOr(d.keys, r.key)),
      Project(rs, (r: Record) => r.revision as int),
      Project(rs, (r: Record) => Ordinal(r.availability)),
      Project(rs, (r: Record) => r.seqNo as int),
      Project(rs, (r: Record) => IndexOr(d.sources, r.source)),
      Project(rs, (r: Record) => IndexOr(d.sourceVersions, r.sourceVersion)),
      Project(rs, (r: Record) => IndexOr(d.parsers, r.parser)),
      Project(rs, (r: Record) => RawRefIndex(d.rawRefs, r.rawRef)),
      FieldColumns(rs, fields))
  }

  function FieldColumns(rs: seq<Record>, fields: seq<SnapshotField>): (cs: seq<seq<int>>)
    ensures |cs| == |fields|
    ensures forall j :: 0 <= j < |fields| ==> cs[j] == Project(rs, (r: Record) => CellOf(fields[j], r))
  {
    if fields == [] then []
    else
      var f := fields[0];
      [Project(rs, (r: Record) => CellOf(f, r))] + FieldColumns(rs, fields[1..])
  }

  // ---------------------------------------------------------------- what fits

  predicate AllFit(w: Width, vs: seq<int>) { forall v :: v in vs ==> FitsIn(w, v) }

  predicate ColumnsFit(c: Columns) {
    && AllFit(I64, c.knownAt) && AllFit(I64, c.effectiveAt) && AllFit(I64, c.periodStart) && AllFit(I64, c.periodEnd)
    && AllFit(I32, c.scope) && AllFit(I32, c.key) && AllFit(I32, c.revision) && AllFit(U8, c.availability)
    && AllFit(I64, c.seqNo) && AllFit(I32, c.source) && AllFit(I32, c.sourceVersion) && AllFit(I32, c.parser)
    && AllFit(I32, c.rawRef) && forall f :: f in c.fields ==> AllFit(I64, f)
  }

  predicate AllStorable(ss: seq<string>) { FitsIn(I32, |ss|) && forall s :: s in ss ==> Storable(s) }

  predicate FieldFits(f: SnapshotField) { IsStorable(f.fieldType) && Storable(f.name) && Storable(f.unit) }

  predicate HeaderFits(h: Header) {
    && |h.schemaHash| == 32 && Storable(h.dataset)
    && FitsIn(I32, h.count) && FitsIn(I32, |h.fields|) && FitsIn(I32, h.scale)
    && (forall f :: f in h.fields ==> FieldFits(f))
    && AllStorable(h.dicts.scopes) && AllStorable(h.dicts.keys) && AllStorable(h.dicts.sources)
    && AllStorable(h.dicts.sourceVersions) && AllStorable(h.dicts.parsers) && AllStorable(h.dicts.rawRefs)
  }

  // ---------------------------------------------------------------- writing

  function TypeCode(t: FieldType): int
    requires IsStorable(t)
  {
    match t case NumberType => 0 case BoolType => 1 case TimestampType => 2 case EnumType => 3
  }

  function PutField(f: SnapshotField, tail: Buffer): Buffer
    requires FieldFits(f)
  {
    PutString(f.name, PutInt(U8, TypeCode(f.fieldType), PutString(f.unit, tail)))
  }

  function PutFields(fs: seq<SnapshotField>, tail: Buffer): Buffer
    requires forall f :: f in fs ==> FieldFits(f)
  {
    if fs == [] then tail
    else
      assert FieldFits(fs[0]);
      PutField(fs[0], PutFields(fs[1..], tail))
  }

  function PutDict(ss: seq<string>, tail: Buffer): Buffer
    requires AllStorable(ss)
  {
    PutInt(I32, |ss|, PutStrings(ss, tail))
  }

  function PutDicts(d: Dictionaries, tail: Buffer): Buffer
    requires AllStorable(d.scopes) && AllStorable(d.keys) && AllStorable(d.sources)
    requires AllStorable(d.sourceVersions) && AllStorable(d.parsers) && AllStorable(d.rawRefs)
  {
    PutDict(d.scopes, PutDict(d.keys, PutDict(d.sources,
      PutDict(d.sourceVersions, PutDict(d.parsers, PutDict(d.rawRefs, tail))))))
  }

  function PutHeader(h: Header, tail: Buffer): Buffer
    requires HeaderFits(h)
  {
    PutInt(I32, VERSION, h.schemaHash + PutString(h.dataset,
      PutInt(I32, h.count, PutInt(I32, |h.fields|, PutInt(I32, h.scale,
        PutFields(h.fields, PutDicts(h.dicts, tail)))))))
  }

  function PutColumns(cs: seq<seq<int>>, tail: Buffer): Buffer
    requires forall c :: c in cs ==> AllFit(I64, c)
  {
    if cs == [] then tail
    else
      assert AllFit(I64, cs[0]);
      PutInts(I64, cs[0], PutColumns(cs[1..], tail))
  }

  function PutBody(c: Columns, tail: Buffer): Buffer
    requires ColumnsFit(c)
  {
    PutInts(I64, c.knownAt, PutInts(I64, c.effectiveAt, PutInts(I64, c.periodStart, PutInts(I64, c.periodEnd,
    PutInts(I32, c.scope, PutInts(I32, c.key, PutInts(I32, c.revision, PutInts(U8, c.availability,
    PutInts(I64, c.seqNo, PutInts(I32, c.source, PutInts(I32, c.sourceVersion, PutInts(I32, c.parser,
    PutInts(I32, c.rawRef, PutColumns(c.fields, tail))))))))))))))
  }

  // ---------------------------------------------------------------- encoding

  predicate CellsEncode(rs: seq<Record>, fields: seq<SnapshotField>) {
    forall r, f :: r in rs && f in fields ==> EncodeFieldValue(f.fieldType, Get(r.fields, f.name)).Some?
  }

  function HeaderOf(fmt: Layout, s: Schema, rs: seq<Record>): Header
    requires forall n :: n in s.declared ==> n in s.fields
  {
    Header(fmt.schemaHash, s.name, |rs|, SCALE, FieldTable(s, s.declared), DictionariesOf(rs))
  }

  /** The unsealed snapshot of records already in order. */
  function Unsealed(fmt: Layout, s: Schema, rs: seq<Record>, tail: Buffer): Option<Buffer>
    requires forall n :: n in s.declared ==> n in s.fields
  {
    var h := HeaderOf(fmt, s, rs);
    var c := ColumnsOf(rs, h.dicts, h.fields);
    if CellsEncode(rs, h.fields) && HeaderFits(h) && ColumnsFit(c)
    then Some(MAGIC + PutHeader(h, PutBody(c, tail)))
    else None
  }

  /** `encode`: `None` where a dataset differs, a value is refused or an integer does not fit. */
  function Encode(fmt: Layout, s: Schema, records: seq<Record>): Option<Buffer>
    requires forall n :: n in s.declared ==> n in s.fields
  {
    var rs := SortRecords(records);
    if exists r :: r in rs && r.dataset != s.name then None
    else
      var body :- Unsealed(fmt, s, rs, []);
      Some(body + fmt.sha(body))
  }

  // ---------------------------------------------------------------- decoding

  function TypeOfCode(code: int): Option<FieldType> {
    if code == 0 then Some(NumberType) else if code == 1 then Some(BoolType)
    else if code == 2 then Some(TimestampType) else if code == 3 then Some(EnumType) else None
  }

  function ReadField(b: Buffer): Option<(SnapshotField, Buffer)> {
    var (name, b1) :- ReadString(b);
    var (code, b2) :- ReadInt(U8, b1);
    var t :- TypeOfCode(code);
    var (unit, b3) :- ReadString(b2);
    Some((SnapshotField(name, t, unit), b3))
  }

  /** A dictionary; a negative count reads as an empty one, as a range over it does. */
  function ReadDict(b: Buffer): Option<(seq<string>, Buffer)> {
    var (n, rest) :- ReadInt(I32, b);
    ReadMany(ReadString, if n < 0 then 0 else n, rest)
  }

  function ReadDicts(b: Buffer): Option<(Dictionaries, Buffer)> {
    var (scopes, b1) :- ReadDict(b);
    var (keys, b2) :- ReadDict(b1);
    var (sources, b3) :- ReadDict(b2);
    var (versions, b4) :- ReadDict(b3);
    var (parsers, b5) :- ReadDict(b4);
    var (refs, b6) :- ReadDict(b5);
    Some((Dictionaries(scopes, keys, sources, versions, parsers, refs), b6))
  }

  function ReadCounts(b: Buffer): Option<((nat, nat, nat), Buffer)> {
    var (records, b1) :- ReadInt(I32, b);
    var (fields, b2) :- ReadInt(I32, b1);
    var (scale, b3) :- ReadInt(I32, b2);
    if records < 0 || fields < 0 || scale < 0 then None
    else Some(((records, fields, scale), b3))
  }

  function ReadTables(fieldCount: nat, b: Buffer): Option<((seq<SnapshotField>, Dictionaries), Buffer)> {
    var (fields, b1) :- ReadMany(ReadField, fieldCount, b);
    var (dicts, b2) :- ReadDicts(b1);
    Some(((fields, dicts), b2))
  }

  function ReadHeader(b: Buffer): Option<(Header, Buffer)> {
    var (version, b1) :- ReadInt(I32, b);
    if version != VERSION || |b1| < 32 then None
    else
      var (dataset, b2) :- ReadString(b1[32..]);
      var (counts, b3) :- ReadCounts(b2);
      var (tables, b4) :- ReadTables(counts.1, b3);
      Some((Header(b1[..32], dataset, counts.0, counts.2, tables.0, tables.1), b4))
  }

  /** The reader of one field's column. */
  function ColumnReader(n: nat): Buffer -> Option<(seq<int>, Buffer)> { b => ReadInts(I64, n, b) }

  function ReadBody(n: nat, k: nat, b: Buffer): Option<(Columns, Buffer)> {
    var (knownAt, b1) :- ReadInts(I64, n, b);
    var (effectiveAt, b2) :- ReadInts(I64, n, b1);
    var (periodStart, b3) :- ReadInts(I64, n, b2);
    var (periodEnd, b4) :- ReadInts(I64, n, b3);
    var (scope, b5) :- ReadInts(I32, n, b4);
    var (key, b6) :- ReadInts(I32, n, b5);
    var (revision, b7) :- ReadInts(I32, n, b6);
    var (availability, b8) :- ReadInts(U8, n, b7);
    var (seqNo, b9) :- ReadInts(I64, n, b8);
    var (source, b10) :- ReadInts(I32, n, b9);
    var (version, b11) :- ReadInts(I32, n, b10);
    var (parser, b12) :- ReadInts(I32, n, b11);
    var (rawRef, b13) :- ReadInts(I32, n, b12);
    var (fields, b14) :- ReadMany(ColumnReader(n), k, b13);
    Some((Columns(knownAt, effectiveAt, periodStart, periodEnd, scope, key, revision, availability,
                  seqNo, source, version, parser, rawRef, fields), b14))
  }

  function RowBytes(fieldCount: nat): nat { FIXED_ROW_BYTES + fieldCount * 8 }

  function Item(ss: seq<string>, i: int): Option<string> {
    if 0 <= i < |ss| then Some(ss[i]) else None
  }

  function AvailabilityOf(ordinal: int): Option<Availability> {
    if ordinal == 0 then Some(Observed) else if ordinal == 1 then Some(Published)
    else if ordinal == 2 then Some(Derived) else None
  }

  function FromSentinel(raw: int): Option<int> { if raw == NULL_SENTINEL then None else Some(raw) }

  predicate HasRow(c: Columns, k: nat, i: nat) {
    && i < |c.knownAt| && i < |c.effectiveAt| && i < |c.periodStart| && i < |c.periodEnd|
    && i < |c.scope| && i < |c.key| && i < |c.revision| && i < |c.availability| && i < |c.seqNo|
    && i < |c.source| && i < |c.sourceVersion| && i < |c.parser| && i < |c.rawRef|
    && |c.fields| == k && forall j :: 0 <= j < k ==> i < |c.fields[j]|
  }

  function PayloadOf(fields: seq<SnapshotField>, columns: seq<seq<int>>, i: nat, scale: nat): Payload
    requires |columns| == |fields| && forall j :: 0 <= j < |columns| ==> i < |columns[j]|
  {
    if fields == [] then map[]
    else
      var k := |fields| - 1;
      PayloadOf(fields[..k], columns[..k], i, scale)[fields[k].name :=
        DecodeFieldValue(fields[k].fieldType, columns[k][i], scale)]
  }

  /** One row as a record, or a refusal: an index or ordinal out of range, or an envelope the record
      type rejects. */
  function RowRecord(h: Header, c: Columns, i: nat): Option<Record>
    requires HasRow(c, |h.fields|, i)
  {
    var availability :- AvailabilityOf(c.availability[i]);
    var rawRef :- if c.rawRef[i] == NULL_DICT_INDEX then Some(None) else SomeRef(Item(h.dicts.rawRefs, c.rawRef[i]));
    var scope :- Item(h.dicts.scopes, c.scope[i]);
    var key :- Item(h.dicts.keys, c.key[i]);
    var source :- Item(h.dicts.sources, c.source[i]);
    var version :- Item(h.dicts.sourceVersions, c.sourceVersion[i]);
    var parser :- Item(h.dicts.parsers, c.parser[i]);
    if c.revision[i] < 1 || c.seqNo[i] < 0 then None
    else
      var r := Record(h.dataset, scope, key, c.revision[i], c.knownAt[i], c.effectiveAt[i],
                      FromSentinel(c.periodStart[i]), FromSentinel(c.periodEnd[i]),
                      availability, source, version, parser, rawRef,
                      PayloadOf(h.fields, c.fields, i, h.scale), c.seqNo[i]);
      if EnvelopeOk(r) then Some(r) else None
  }

  function SomeRef(s: Option<string>): Option<Option<string>> { if s.None? then None else Some(s) }

  function EachRow(h: Header, c: Columns, n: nat): (rows: seq<Option<Record>>)
    requires forall i :: 0 <= i < n ==> HasRow(c, |h.fields|, i)
    ensures |rows| == n && forall i :: 0 <= i < n ==> rows[i] == RowRecord(h, c, i)
  {
    seq(n, i requires 0 <= i < n => RowRecord(h, c, i))
  }

  function RowRecords(h: Header, c: Columns, n: nat): Option<seq<Record>>
    requires forall i :: 0 <= i < n ==> HasRow(c, |h.fields|, i)
  {
    AllSome(EachRow(h, c, n))
  }

  /** Magic, version, exact length and checksum first; then the columns. */
  function Decode(fmt: Layout, data: Buffer): Option<(Header, seq<Record>)> {
    if |data| < 4 || data[..4] != MAGIC then None
    else
      var (h, rest) :- ReadHeader(data[4..]);
      if |rest| != h.count * RowBytes(|h.fields|) + 32 then None
      else if |data| < 32 || fmt.sha(data[..|data| - 32]) != data[|data| - 32..] then None
      else
        var (c, _) :- ReadBody(h.count, |h.fields|, rest);
        if forall i :: 0 <= i < h.count ==> HasRow(c, |h.fields|, i) then
          var rs :- RowRecords(h, c, h.count);
          Some((h, rs))
        else None
  }
}
