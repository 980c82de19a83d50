/** Decoding an encoded snapshot gives back the records (hub/snapshot.py, `encode`;
    hubread/snapshot.py, `decode`). */
module RoundTrip {
  import opened Wrappers
  import opened Ordering
  import opened Decimals
  import opened Records
  import opened Schemas
  import opened Pipeline
  import opened Bytes
  import opened Snapshot

  // ---------------------------------------------------------------- the header

  lemma ReadPutField(f: SnapshotField, tail: Buffer)
    requires FieldFits(f)
    ensures ReadField(PutField(f, tail)) == Some((f, tail))
  {
    var b2 := PutString(f.unit, tail);
    var b1 := PutInt(U8, TypeCode(f.fieldType), b2);
    ReadPutString(f.unit, tail);
    ReadPutInt(U8, TypeCode(f.fieldType), b2);
    ReadPutString(f.name, b1);
  }

  lemma ReadPutFirst(f: SnapshotField, fs: seq<SnapshotField>, rest: Buffer, tail: Buffer)
    requires FieldFits(f) && ReadMany(ReadField, |fs|, rest) == Some((fs, tail))
    ensures ReadMany(ReadField, |fs| + 1, PutField(f, rest)) == Some(([f] + fs, tail))
  {
    ReadPutField(f, rest);
    ReadManyMore(ReadField, |fs| + 1, PutField(f, rest), f, rest, fs, tail);
  }

  lemma {:induction false} ReadPutFields(fs: seq<SnapshotField>, tail: Buffer)
    requires forall f :: f in fs ==> FieldFits(f)
    ensures ReadMany(ReadField, |fs|, PutFields(fs, tail)) == Some((fs, tail))
  {
    if fs == [] {
    } else {
      assert FieldFits(fs[0]);
      ReadPutFields(fs[1..], tail);
      ReadPutFirst(fs[0], fs[1..], PutFields(fs[1..], tail), tail);
      assert fs == [fs[0]] + fs[1..];
    }
  }

  lemma ReadPutDict(ss: seq<string>, tail: Buffer)
    requires AllStorable(ss)
    ensures ReadDict(PutDict(ss, tail)) == Some((ss, tail))
  {
    ReadPutInt(I32, |ss|, PutStrings(ss, tail));
    ReadPutStrings(ss, tail);
  }

  lemma ReadPutDicts(d: Dictionaries, tail: Buffer)
    requires AllStorable(d.scopes) && AllStorable(d.keys) && AllStorable(d.sources)
    requires AllStorable(d.sourceVersions) && AllStorable(d.parsers) && AllStorable(d.rawRefs)
    ensures ReadDicts(PutDicts(d, tail)) == Some((d, tail))
  {
    var b5 := PutDict(d.rawRefs, tail);
    var b4 := PutDict(d.parsers, b5);
    var b3 := PutDict(d.sourceVersions, b4);
    var b2 := PutDict(d.sources, b3);
    var b1 := PutDict(d.keys, b2);
    ReadPutDict(d.rawRefs, tail);
    ReadPutDict(d.parsers, b5);
    ReadPutDict(d.sourceVersions, b4);
    ReadPutDict(d.sources, b3);
    ReadPutDict(d.keys, b2);
    ReadPutDict(d.scopes, b1);
  }

  lemma ReadPutCounts(records: nat, fields: nat, scale: nat, tail: Buffer)
    requires FitsIn(I32, records) && FitsIn(I32, fields) && FitsIn(I32, scale)
    ensures ReadCounts(PutInt(I32, records, PutInt(I32, fields, PutInt(I32, scale, tail)))) ==
            Some(((records, fields, scale), tail))
  {
    ReadPutInt(I32, scale, tail);
    ReadPutInt(I32, fields, PutInt(I32, scale, tail));
    ReadPutInt(I32, records, PutInt(I32, fields, PutInt(I32, scale, tail)));
  }

  lemma ReadPutHeader(h: Header, tail: Buffer)
    requires HeaderFits(h)
    ensures ReadHeader(PutHeader(h, tail)) == Some((h, tail))
  {
    var b4 := PutDicts(h.dicts, tail);
    var b3 := PutFields(h.fields, b4);
    var b2 := PutInt(I32, h.count, PutInt(I32, |h.fields|, PutInt(I32, h.scale, b3)));
    var b1 := PutString(h.dataset, b2);
    ReadPutDicts(h.dicts, tail);
    ReadPutFields(h.fields, b4);
    ReadPutCounts(h.count, |h.fields|, h.scale, b3);
    ReadPutString(h.dataset, b2);
    ReadPutInt(I32, VERSION, h.schemaHash + b1);
    assert (h.schemaHash + b1)[..32] == h.schemaHash && (h.schemaHash + b1)[32..] == b1;
  }

  // ---------------------------------------------------------------- the body

  lemma ReadPutColumn(c: seq<int>, cs: seq<seq<int>>, rest: Buffer, tail: Buffer)
    requires AllFit(I64, c) && ReadMany(ColumnReader(|c|), |cs|, rest) == Some((cs, tail))
    ensures ReadMany(ColumnReader(|c|), |cs| + 1, PutInts(I64, c, rest)) == Some(([c] + cs, tail))
  {
    ReadPutInts(I64, c, rest);
    ReadManyMore(ColumnReader(|c|), |cs| + 1, PutInts(I64, c, rest), c, rest, cs, tail);
  }

  lemma {:induction false} ReadPutColumns(cs: seq<seq<int>>, n: nat, tail: Buffer)
    requires forall c :: c in cs ==> AllFit(I64, c) && |c| == n
    ensures ReadMany(ColumnReader(n), |cs|, PutColumns(cs, tail)) == Some((cs, tail))
  {
    if cs == [] {
    } else {
      assert AllFit(I64, cs[0]) && |cs[0]| == n;
      ReadPutColumns(cs[1..], n, tail);
      ReadPutColumn(cs[0], cs[1..], PutColumns(cs[1..], tail), tail);
      assert cs == [cs[0]] + cs[1..];
    }
  }

  lemma {:induction false} ColumnsLength(cs: seq<seq<int>>, n: nat, tail: Buffer)
    requires forall c :: c in cs ==> AllFit(I64, c) && |c| == n
    ensures |PutColumns(cs, tail)| == |cs| * (8 * n) + |tail|
  {
    if cs == [] {
    } else {
      assert AllFit(I64, cs[0]) && |cs[0]| == n;
      ColumnsLength(cs[1..], n, tail);
      PutIntsLength(I64, cs[0], PutColumns(cs[1..], tail));
      OneMore(|cs| - 1, 8 * n);
    }
  }

  lemma OneMore(k: nat, m: nat)
    ensures (k + 1) * m == k * m + m
  {}

  predicate Rows(c: Columns, n: nat) {
    && |c.knownAt| == |c.effectiveAt| == |c.periodStart| == |c.periodEnd| == |c.scope| == |c.key| == n
    && |c.revision| == |c.availability| == |c.seqNo| == |c.source| == |c.sourceVersion| == |c.parser| == |c.rawRef| == n
    && forall f :: f in c.fields ==> |f| == n
  }

  /** The second half of the fixed columns, then the fields. */
  function PutLate(c: Columns, tail: Buffer): Buffer
    requires ColumnsFit(c)
  {
    PutInts(U8, c.availability,
    PutInts(I64, c.seqNo, PutInts(I32, c.source, PutInts(I32, c.sourceVersion, PutInts(I32, c.parser,
    PutInts(I32, c.rawRef, PutColumns(c.fields, tail)))))))
  }

  lemma LateLength(c: Columns, n: nat, tail: Buffer)
    requires ColumnsFit(c) && Rows(c, n)
    ensures |PutLate(c, tail)| == 25 * n + |PutColumns(c.fields, tail)|
  {
    var b13 := PutColumns(c.fields, tail);
    var b12 := PutInts(I32, c.rawRef, b13);
    var b11 := PutInts(I32, c.parser, b12);
    var b10 := PutInts(I32, c.sourceVersion, b11);
    var b9 := PutInts(I32, c.source, b10);
    var b8 := PutInts(I64, c.seqNo, b9);
    PutIntsLength(I32, c.rawRef, b13);
    PutIntsLength(I32, c.parser, b12);
    PutIntsLength(I32, c.sourceVersion, b11);
    PutIntsLength(I32, c.source, b10);
    PutIntsLength(I64, c.seqNo, b9);
    PutIntsLength(U8, c.availability, b8);
  }

  lemma ReadPutBody(c: Columns, n: nat, tail: Buffer)
    requires ColumnsFit(c) && Rows(c, n)
    ensures ReadBody(n, |c.fields|, PutBody(c, tail)) == Some((c, tail))
  {
    var b13 := PutColumns(c.fields, tail);
    var b12 := PutInts(I32, c.rawRef, b13);
    var b11 := PutInts(I32, c.parser, b12);
    var b10 := PutInts(I32, c.sourceVersion, b11);
    var b9 := PutInts(I32, c.source, b10);
    var b8 := PutInts(I64, c.seqNo, b9);
    var b7 := PutInts(U8, c.availability, b8);
    var b6 := PutInts(I32, c.revision, b7);
    var b5 := PutInts(I32, c.key, b6);
    var b4 := PutInts(I32, c.scope, b5);
    var b3 := PutInts(I64, c.periodEnd, b4);
    var b2 := PutInts(I64, c.periodStart, b3);
    var b1 := PutInts(I64, c.effectiveAt, b2);
    ReadPutColumns(c.fields, n, tail);
    ReadPutInts(I32, c.rawRef, b13);
    ReadPutInts(I32, c.parser, b12);
    ReadPutInts(I32, c.sourceVersion, b11);
    ReadPutInts(I32, c.source, b10);
    ReadPutInts(I64, c.seqNo, b9);
    ReadPutInts(U8, c.availability, b8);
    ReadPutInts(I32, c.revision, b7);
    ReadPutInts(I32, c.key, b6);
    ReadPutInts(I32, c.scope, b5);
    ReadPutInts(I64, c.periodEnd, b4);
    ReadPutInts(I64, c.periodStart, b3);
    ReadPutInts(I64, c.effectiveAt, b2);
    ReadPutInts(I64, c.knownAt, b1);
  }

  lemma BodyLength(c: Columns, n: nat, tail: Buffer)
    requires ColumnsFit(c) && Rows(c, n)
    ensures |PutBody(c, tail)| == n * RowBytes(|c.fields|) + |tail|
  {
    var b7 := PutLate(c, tail);
    LateLength(c, n, tail);
    PutIntsLength(I32, c.revision, b7);
    var b6 := PutInts(I32, c.revision, b7);
    PutIntsLength(I32, c.key, b6);
    var b5 := PutInts(I32, c.key, b6);
    PutIntsLength(I32, c.scope, b5);
    var b4 := PutInts(I32, c.scope, b5);
    PutIntsLength(I64, c.periodEnd, b4);
    var b3 := PutInts(I64, c.periodEnd, b4);
    PutIntsLength(I64, c.periodStart, b3);
    var b2 := PutInts(I64, c.periodStart, b3);
    PutIntsLength(I64, c.effectiveAt, b2);
    var b1 := PutInts(I64, c.effectiveAt, b2);
    PutIntsLength(I64, c.knownAt, b1);
    assert PutBody(c, tail) == PutInts(I64, c.knownAt, b1);
    ColumnsLength(c.fields, n, tail);
    RowArithmetic(n, |c.fields|);
  }

  lemma RowArithmetic(n: nat, k: nat)
    ensures 69 * n + k * (8 * n) == n * RowBytes(k)
  {
    assert FIXED_ROW_BYTES == 69;
    assert k * (8 * n) == n * (k * 8);
    assert n * (69 + k * 8) == n * 69 + n * (k * 8);
  }

  // ---------------------------------------------------------------- sealing

  lemma {:induction false} PutNatThen(v: nat, width: nat, a: Buffer, b: Buffer)
    ensures PutNat(v, width, a) + b == PutNat(v, width, a + b)
  {
    if width != 0 { PutNatThen(v / 256, width - 1, a, b); }
  }

  lemma PutIntThen(w: Width, v: int, a: Buffer, b: Buffer)
    requires FitsIn(w, v)
    ensures PutInt(w, v, a) + b == PutInt(w, v, a + b)
  {
    PutNatThen(if v < 0 then v + Modulus(w) else v, Size(w), a, b);
  }

  lemma {:induction false} PutIntsThen(w: Width, vs: seq<int>, a: Buffer, b: Buffer)
    requires forall v :: v in vs ==> FitsIn(w, v)
    ensures PutInts(w, vs, a) + b == PutInts(w, vs, a + b)
  {
    if vs == [] {
    } else {
      PutIntsThen(w, vs[1..], a, b);
      PutIntThen(w, vs[0], PutInts(w, vs[1..], a), b);
    }
  }

  lemma PutStringThen(s: string, a: Buffer, b: Buffer)
    requires Storable(s)
    ensures PutString(s, a) + b == PutString(s, a + b)
  {
    PutIntThen(I32, |Utf8(s)|, Utf8(s) + a, b);
    assert Utf8(s) + a + b == Utf8(s) + (a + b);
  }

  lemma {:induction false} PutStringsThen(ss: seq<string>, a: Buffer, b: Buffer)
    requires forall s :: s in ss ==> Storable(s)
    ensures PutStrings(ss, a) + b == PutStrings(ss, a + b)
  {
    if ss == [] {
    } else {
      PutStringsThen(ss[1..], a, b);
      PutStringThen(ss[0], PutStrings(ss[1..], a), b);
    }
  }

  lemma PutDictThen(ss: seq<string>, a: Buffer, b: Buffer)
    requires AllStorable(ss)
    ensures PutDict(ss, a) + b == PutDict(ss, a + b)
  {
    PutStringsThen(ss, a, b);
    PutIntThen(I32, |ss|, PutStrings(ss, a), b);
  }

  lemma PutDictsThen(d: Dictionaries, a: Buffer, b: Buffer)
    requires AllStorable(d.scopes) && AllStorable(d.keys) && AllStorable(d.sources)
    requires AllStorable(d.sourceVersions) && AllStorable(d.parsers) && AllStorable(d.rawRefs)
    ensures PutDicts(d, a) + b == PutDicts(d, a + b)
  {
    var a5 := PutDict(d.rawRefs, a);
    var a4 := PutDict(d.parsers, a5);
    var a3 := PutDict(d.sourceVersions, a4);
    var a2 := PutDict(d.sources, a3);
    PutDictThen(d.rawRefs, a, b);
    PutDictThen(d.parsers, a5, b);
    PutDictThen(d.sourceVersions, a4, b);
    PutDictThen(d.sources, a3, b);
    PutDictThen(d.keys, a2, b);
    PutDictThen(d.scopes, PutDict(d.keys, a2), b);
  }

  lemma PutFieldThen(f: SnapshotField, a: Buffer, b: Buffer)
    requires FieldFits(f)
    ensures PutField(f, a) + b == PutField(f, a + b)
  {
    PutStringThen(f.unit, a, b);
    PutIntThen(U8, TypeCode(f.fieldType), PutString(f.unit, a), b);
    PutStringThen(f.name, PutInt(U8, TypeCode(f.fieldType), PutString(f.unit, a)), b);
  }

  lemma {:induction false} PutFieldsThen(fs: seq<SnapshotField>, a: Buffer, b: Buffer)
    requires forall f :: f in fs ==> FieldFits(f)
    ensures PutFields(fs, a) + b == PutFields(fs, a + b)
  {
    if fs == [] {
    } else {
      assert FieldFits(fs[0]);
      PutFieldsThen(fs[1..], a, b);
      PutFieldThen(fs[0], PutFields(fs[1..], a), b);
    }
  }

  lemma PutHeaderThen(h: Header, a: Buffer, b: Buffer)
    requires HeaderFits(h)
    ensures PutHeader(h, a) + b == PutHeader(h, a + b)
  {
    var a1 := PutDicts(h.dicts, a);
    var a2 := PutFields(h.fields, a1);
    var a3 := PutInt(I32, h.scale, a2);
    var a4 := PutInt(I32, |h.fields|, a3);
    var a5 := PutInt(I32, h.count, a4);
    var a6 := PutString(h.dataset, a5);
    PutDictsThen(h.dicts, a, b);
    PutFieldsThen(h.fields, a1, b);
    PutIntThen(I32, h.scale, a2, b);
    PutIntThen(I32, |h.fields|, a3, b);
    PutIntThen(I32, h.count, a4, b);
    PutStringThen(h.dataset, a5, b);
    assert h.schemaHash + a6 + b == h.schemaHash + (a6 + b);
    PutIntThen(I32, VERSION, h.schemaHash + a6, b);
  }

  lemma {:induction false} PutColumnsThen(cs: seq<seq<int>>, a: Buffer, b: Buffer)
    requires forall c :: c in cs ==> AllFit(I64, c)
    ensures PutColumns(cs, a) + b == PutColumns(cs, a + b)
  {
    if cs == [] {
    } else {
      assert cs[0] in cs;
      PutColumnsThen(cs[1..], a, b);
      PutIntsThen(I64, cs[0], PutColumns(cs[1..], a), b);
    }
  }

  lemma PutBodyThen(c: Columns, a: Buffer, b: Buffer)
    requires ColumnsFit(c)
    ensures PutBody(c, a) + b == PutBody(c, a + b)
  {
    var b13 := PutColumns(c.fields, a);
    var b12 := PutInts(I32, c.rawRef, b13);
    var b11 := PutInts(I32, c.parser, b12);
    var b10 := PutInts(I32, c.sourceVersion, b11);
    var b9 := PutInts(I32, c.source, b10);
    var b8 := PutInts(I64, c.seqNo, b9);
    var b7 := PutInts(U8, c.availability, b8);
    var b6 := PutInts(I32, c.revision, b7);
    var b5 := PutInts(I32, c.key, b6);
    var b4 := PutInts(I32, c.scope, b5);
    var b3 := PutInts(I64, c.periodEnd, b4);
    var b2 := PutInts(I64, c.periodStart, b3);
    var b1 := PutInts(I64, c.effectiveAt, b2);
    PutColumnsThen(c.fields, a, b);
    PutIntsThen(I32, c.rawRef, b13, b);
    PutIntsThen(I32, c.parser, b12, b);
    PutIntsThen(I32, c.sourceVersion, b11, b);
    PutIntsThen(I32, c.source, b10, b);
    PutIntsThen(I64, c.seqNo, b9, b);
    PutIntsThen(U8, c.availability, b8, b);
    PutIntsThen(I32, c.revision, b7, b);
    PutIntsThen(I32, c.key, b6, b);
    PutIntsThen(I32, c.scope, b5, b);
    PutIntsThen(I64, c.periodEnd, b4, b);
    PutIntsThen(I64, c.periodStart, b3, b);
    PutIntsThen(I64, c.effectiveAt, b2, b);
    PutIntsThen(I64, c.knownAt, b1, b);
  }

  lemma SealedShape(h: Header, c: Columns, trailer: Buffer)
    requires HeaderFits(h) && ColumnsFit(c)
    ensures MAGIC + PutHeader(h, PutBody(c, [])) + trailer == MAGIC + PutHeader(h, PutBody(c, trailer))
  {
    PutBodyThen(c, [], trailer);
    assert [] + trailer == trailer;
    PutHeaderThen(h, PutBody(c, []), trailer);
    assert MAGIC + PutHeader(h, PutBody(c, [])) + trailer == MAGIC + (PutHeader(h, PutBody(c, [])) + trailer);
  }

  // ---------------------------------------------------------------- the field table

  lemma {:induction false} FieldTableMembers(s: Schema, names: seq<string>, f: SnapshotField)
    requires forall n :: n in names ==> n in s.fields
    ensures f in FieldTable(s, names) <==>
            f.name in names && IsStorable(s.fields[f.name].fieldType)
            && f == SnapshotField(f.name, s.fields[f.name].fieldType, s.fields[f.name].unit)
  {
    if names == [] {
    } else {
      FieldTableMembers(s, names[1..], f);
      assert names == [names[0]] + names[1..];
    }
  }

  ghost predicate DistinctNames(fs: seq<SnapshotField>) {
    forall i, j :: 0 <= i < j < |fs| ==> fs[i].name != fs[j].name
  }

  lemma {:induction false} FieldTableDistinct(s: Schema, names: seq<string>)
    requires Unique(names) && forall n :: n in names ==> n in s.fields
    ensures DistinctNames(FieldTable(s, names))
  {
    if names == [] {
    } else {
      FieldTableDistinct(s, names[1..]);
      var rest := FieldTable(s, names[1..]);
      forall j | 0 <= j < |rest| ensures rest[j].name != names[0] {
        FieldTableMembers(s, names[1..], rest[j]);
        assert rest[j] in rest;
      }
    }
  }

  /** A decoded row's payload holds each field of the table, decoded from its own column. */
  lemma {:induction false} PayloadCells(fs: seq<SnapshotField>, columns: seq<seq<int>>, i: nat, scale: nat, n: string)
    requires DistinctNames(fs) && |columns| == |fs| && forall j :: 0 <= j < |columns| ==> i < |columns[j]|
    ensures n in PayloadOf(fs, columns, i, scale) <==> exists j :: 0 <= j < |fs| && fs[j].name == n
    ensures forall j :: 0 <= j < |fs| && fs[j].name == n ==>
      n in PayloadOf(fs, columns, i, scale) &&
      PayloadOf(fs, columns, i, scale)[n] == DecodeFieldValue(fs[j].fieldType, columns[j][i], scale)
  {
    if fs == [] {
    } else {
      var k := |fs| - 1;
      PayloadCells(fs[..k], columns[..k], i, scale, n);
      assert forall j :: 0 <= j < k ==> fs[..k][j] == fs[j] && columns[..k][j] == columns[j];
    }
  }

  // ---------------------------------------------------------------- a record through the tables

  /** What the format keeps of a payload: the storable fields, absent ones as null, string fields
      dropped. */
  function Kept(s: Schema, p: Payload): Payload {
    map n | n in s.fields && IsStorable(s.fields[n].fieldType) :: Get(p, n)
  }

  /** What comes back: as kept, but an integer equal to the null mark comes back null. */
  function Returned(s: Schema, p: Payload): Payload {
    map n | n in s.fields && IsStorable(s.fields[n].fieldType) ::
      if CollidesWithNull(Get(p, n)) then Null else Get(p, n)
  }

  function KeptRecord(s: Schema, r: Record): Record { r.(fields := Kept(s, r.fields)) }
  function ReturnedRecord(s: Schema, r: Record): Record { r.(fields := Returned(s, r.fields)) }

  /** A record of the dataset as ingest journals it: a lawful envelope and a normalised payload. */
  ghost predicate Validated(s: Schema, r: Record) {
    && EnvelopeOk(r)
    && forall n :: n in r.fields ==> n in s.fields && Normal(s.fields[n], r.fields[n])
  }

  lemma CellRoundTrip(s: Schema, r: Record, f: SnapshotField)
    requires Validated(s, r) && f.name in s.fields
    requires f == SnapshotField(f.name, s.fields[f.name].fieldType, s.fields[f.name].unit) && IsStorable(f.fieldType)
    ensures DecodeFieldValue(f.fieldType, CellOf(f, r), SCALE) ==
            if CollidesWithNull(Get(r.fields, f.name)) then Null else Get(r.fields, f.name)
  {
    ValueRoundTrip(s.fields[f.name], Get(r.fields, f.name));
  }

  lemma PayloadRoundTrip(s: Schema, rs: seq<Record>, d: Dictionaries, i: nat)
    requires WellFormed(s) && i < |rs| && Validated(s, rs[i])
    ensures var fs := FieldTable(s, s.declared);
            PayloadOf(fs, ColumnsOf(rs, d, fs).fields, i, SCALE) == Returned(s, rs[i].fields)
  {
    var fs := FieldTable(s, s.declared);
    var columns := FieldColumns(rs, fs);
    var p := PayloadOf(fs, columns, i, SCALE);
    FieldTableDistinct(s, s.declared);
    forall n
      ensures n in p <==> n in Returned(s, rs[i].fields)
      ensures n in p ==> p[n] == Returned(s, rs[i].fields)[n]
    {
      PayloadCells(fs, columns, i, SCALE, n);
      if n in s.fields && IsStorable(s.fields[n].fieldType) {
        var f := SnapshotField(n, s.fields[n].fieldType, s.fields[n].unit);
        FieldTableMembers(s, s.declared, f);
        var j :| 0 <= j < |fs| && fs[j] == f;
        assert columns[j][i] == CellOf(f, rs[i]);
        CellRoundTrip(s, rs[i], f);
      } else if n in p {
        var j :| 0 <= j < |fs| && fs[j].name == n;
        FieldTableMembers(s, s.declared, fs[j]);
      }
    }
  }

  lemma SentinelRoundTrip(t: Option<int>)
    requires t.Some? ==> TimestampOk(t.value)
    ensures FromSentinel(OrSentinel(t)) == t
  {}

  /** One row of the tables is one record again. */
  lemma RowRoundTrip(fmt: Layout, s: Schema, rs: seq<Record>, i: nat)
    requires WellFormed(s) && i < |rs|
    requires Validated(s, rs[i]) && rs[i].dataset == s.name
    ensures var h := HeaderOf(fmt, s, rs);
            var c := ColumnsOf(rs, h.dicts, h.fields);
            HasRow(c, |h.fields|, i) && RowRecord(h, c, i) == Some(ReturnedRecord(s, rs[i]))
  {
    var h := HeaderOf(fmt, s, rs);
    var c := ColumnsOf(rs, h.dicts, h.fields);
    var r := rs[i];
    EveryRecordIndexed(rs, i);
    PayloadRoundTrip(s, rs, h.dicts, i);
    SentinelRoundTrip(r.periodStart);
    SentinelRoundTrip(r.periodEnd);
    RowFields(h, c, r, i);
  }

  lemma RowFields(h: Header, c: Columns, r: Record, i: nat)
    requires HasRow(c, |h.fields|, i) && Indexed(h.dicts, r) && h.dataset == r.dataset && EnvelopeOk(r)
    requires c.knownAt[i] == r.knownAt && c.effectiveAt[i] == r.effectiveAt
    requires FromSentinel(c.periodStart[i]) == r.periodStart && FromSentinel(c.periodEnd[i]) == r.periodEnd
    requires c.scope[i] == IndexOr(h.dicts.scopes, r.scope) && c.key[i] == IndexOr(h.dicts.keys, r.key)
    requires c.source[i] == IndexOr(h.dicts.sources, r.source)
    requires c.sourceVersion[i] == IndexOr(h.dicts.sourceVersions, r.sourceVersion)
    requires c.parser[i] == IndexOr(h.dicts.parsers, r.parser)
    requires c.rawRef[i] == RawRefIndex(h.dicts.rawRefs, r.rawRef)
    requires c.revision[i] == r.revision && c.seqNo[i] == r.seqNo && c.availability[i] == Ordinal(r.availability)
    ensures RowRecord(h, c, i) == Some(r.(fields := PayloadOf(h.fields, c.fields, i, h.scale)))
  {}

  function ReturnedAll(s: Schema, rs: seq<Record>): seq<Record> { Project(rs, (r: Record) => ReturnedRecord(s, r)) }
  function KeptAll(s: Schema, rs: seq<Record>): seq<Record> { Project(rs, (r: Record) => KeptRecord(s, r)) }

  lemma RowsRoundTrip(fmt: Layout, s: Schema, rs: seq<Record>)
    requires WellFormed(s) && forall r :: r in rs ==> Validated(s, r) && r.dataset == s.name
    ensures var h := HeaderOf(fmt, s, rs);
            var c := ColumnsOf(rs, h.dicts, h.fields);
            && (forall i :: 0 <= i < |rs| ==> HasRow(c, |h.fields|, i))
            && RowRecords(h, c, |rs|) == Some(ReturnedAll(s, rs))
  {
    var h := HeaderOf(fmt, s, rs);
    var c := ColumnsOf(rs, h.dicts, h.fields);
    var out := ReturnedAll(s, rs);
    forall i | 0 <= i < |rs| ensures HasRow(c, |h.fields|, i) && RowRecord(h, c, i) == Some(out[i]) {
      RowRoundTrip(fmt, s, rs, i);
    }
    AllSomeAre(EachRow(h, c, |rs|), out);
  }

  // ---------------------------------------------------------------- the whole snapshot

  lemma ColumnsHaveRows(rs: seq<Record>, d: Dictionaries, fields: seq<SnapshotField>)
    ensures Rows(ColumnsOf(rs, d, fields), |rs|) && |ColumnsOf(rs, d, fields).fields| == |fields|
  {}

  /** What decoding comes to once header and columns have been read. */
  lemma DecodeBy(fmt: Layout, data: Buffer, h: Header, rest: Buffer, c: Columns, left: Buffer)
    requires |data| >= 32 && data[..4] == MAGIC && ReadHeader(data[4..]) == Some((h, rest))
    requires |rest| == h.count * RowBytes(|h.fields|) + 32
    requires fmt.sha(data[..|data| - 32]) == data[|data| - 32..]
    requires ReadBody(h.count, |h.fields|, rest) == Some((c, left))
    requires forall i :: 0 <= i < h.count ==> HasRow(c, |h.fields|, i)
    ensures Decode(fmt, data) ==
            if RowRecords(h, c, h.count).None? then None else Some((h, RowRecords(h, c, h.count).value))
  {}

  /** Decoding a sealed buffer reaches the rows. */
  lemma DecodeSealed(fmt: Layout, h: Header, c: Columns, trailer: Buffer, body: Buffer)
    requires LayoutOk(fmt) && HeaderFits(h) && ColumnsFit(c) && Rows(c, h.count) && |c.fields| == |h.fields|
    requires trailer == fmt.sha(body)
    requires body + trailer == MAGIC + PutHeader(h, PutBody(c, trailer))
    requires forall i :: 0 <= i < h.count ==> HasRow(c, |h.fields|, i)
    ensures Decode(fmt, body + trailer) ==
            if RowRecords(h, c, h.count).None? then None else Some((h, RowRecords(h, c, h.count).value))
  {
    var data := body + trailer;
    var rest := PutBody(c, trailer);
    ReadPutHeader(h, rest);
    BodyLength(c, h.count, trailer);
    ReadPutBody(c, h.count, trailer);
    var head := PutHeader(h, rest);
    assert data[..4] == MAGIC && data[4..] == head;
    assert data[..|data| - 32] == body && data[|data| - 32..] == trailer;
    DecodeBy(fmt, data, h, rest, c, trailer);
  }

  /** Decoding what was encoded gives the validated records in `sort_key` order, each with its
      string fields dropped and absent storable fields null. */
  lemma DecodeEncode(fmt: Layout, s: Schema, records: seq<Record>)
    requires LayoutOk(fmt) && WellFormed(s)
    requires forall r :: r in records ==> Validated(s, r)
    requires Encode(fmt, s, records).Some?
    ensures Decode(fmt, Encode(fmt, s, records).value) ==
            Some((HeaderOf(fmt, s, SortRecords(records)), ReturnedAll(s, SortRecords(records))))
  {
    var rs := SortRecords(records);
    forall r | r in rs ensures Validated(s, r) && r.dataset == s.name { SortMember(records, KeyLe, r); }
    var h := HeaderOf(fmt, s, rs);
    var c := ColumnsOf(rs, h.dicts, h.fields);
    RowsRoundTrip(fmt, s, rs);
    ColumnsHaveRows(rs, h.dicts, h.fields);
    var body := EncodedBody(fmt, s, records);
    SealedShape(h, c, fmt.sha(body));
    DecodeSealed(fmt, h, c, fmt.sha(body), body);
  }

  lemma EncodedBody(fmt: Layout, s: Schema, records: seq<Record>) returns (body: Buffer)
    requires WellFormed(s) && Encode(fmt, s, records).Some?
    ensures var h := HeaderOf(fmt, s, SortRecords(records));
            var c := ColumnsOf(SortRecords(records), h.dicts, h.fields);
            && HeaderFits(h) && ColumnsFit(c) && body == MAGIC + PutHeader(h, PutBody(c, []))
    ensures Encode(fmt, s, records) == Some(body + fmt.sha(body))
  {
    body := Unsealed(fmt, s, SortRecords(records), []).value;
  }

  /** No timestamp or enum of the record is the integer the format reserves for absence. */
  ghost predicate NoCollision(s: Schema, r: Record) {
    forall n :: n in r.fields && n in s.fields && s.fields[n].fieldType.TimestampType? ==> r.fields[n] != Int(NULL_SENTINEL)
  }

  lemma ExactIffNoCollision(s: Schema, r: Record)
    requires Validated(s, r)
    ensures KeptRecord(s, r) == ReturnedRecord(s, r) <==> NoCollision(s, r)
  {
    var kept, back := Kept(s, r.fields), Returned(s, r.fields);
    if NoCollision(s, r) {
      forall n | n in s.fields && IsStorable(s.fields[n].fieldType) ensures !CollidesWithNull(Get(r.fields, n)) {
        if n in r.fields { assert Normal(s.fields[n], r.fields[n]); }
      }
      assert kept == back;
    } else {
      var n :| n in r.fields && n in s.fields && s.fields[n].fieldType.TimestampType? && r.fields[n] == Int(NULL_SENTINEL);
      assert kept[n] != back[n];
    }
  }

  lemma AllExactIff(s: Schema, rs: seq<Record>)
    requires forall r :: r in rs ==> Validated(s, r)
    ensures KeptAll(s, rs) == ReturnedAll(s, rs) <==> forall r :: r in rs ==> NoCollision(s, r)
  {
    var exact, back := KeptAll(s, rs), ReturnedAll(s, rs);
    forall i | 0 <= i < |rs| ensures exact[i] == back[i] <==> NoCollision(s, rs[i]) {
      ExactIffNoCollision(s, rs[i]);
    }
    if exact == back {
      forall r | r in rs ensures NoCollision(s, r) {
        var i :| 0 <= i < |rs| && rs[i] == r;
        assert exact[i] == back[i];
      }
    } else {
      var i :| 0 <= i < |rs| && exact[i] != back[i];
      assert rs[i] in rs && !NoCollision(s, rs[i]);
    }
  }

  /** The round trip is exact if and only if no timestamp of the records is the reserved integer. */
  lemma RoundTripIffNoCollision(fmt: Layout, s: Schema, records: seq<Record>)
    requires LayoutOk(fmt) && WellFormed(s)
    requires forall r :: r in records ==> Validated(s, r)
    requires Encode(fmt, s, records).Some?
    ensures Decode(fmt, Encode(fmt, s, records).value) ==
              Some((HeaderOf(fmt, s, SortRecords(records)), KeptAll(s, SortRecords(records))))
            <==> forall r :: r in records ==> NoCollision(s, r)
  {
    DecodeEncode(fmt, s, records);
    forall r ensures r in SortRecords(records) <==> r in records { SortMember(records, KeyLe, r); }
    AllExactIff(s, SortRecords(records));
  }

  // ---------------------------------------------------------------- what the encoder accepts

  /** The record's integers and texts are within what the format can hold. */
  ghost predicate RecordFits(r: Record) {
    && FitsIn(I32, r.revision) && FitsIn(I64, r.seqNo)
    && Storable(r.scope) && Storable(r.key) && Storable(r.source) && Storable(r.sourceVersion) && Storable(r.parser)
    && (r.rawRef.Some? ==> Storable(r.rawRef.value))
    && forall n :: n in r.fields && r.fields[n].Int? ==> FitsIn(I64, r.fields[n].i)
  }

  ghost predicate SchemaFits(s: Schema) {
    && Storable(s.name) && FitsIn(I32, |s.declared|)
    && forall n :: n in s.fields ==> Storable(n) && Storable(s.fields[n].unit)
  }

  /** The one timestamp the format loses: a validated record with -2^63 in a timestamp field encodes, and
      that field decodes as null. */
  lemma ReservedTimestampIsLost(fmt: Layout, s: Schema, r: Record, n: string)
    requires LayoutOk(fmt) && WellFormed(s) && SchemaFits(s) && r.dataset == s.name && Validated(s, r) && RecordFits(r)
    requires n in s.fields && s.fields[n].fieldType.TimestampType?
    requires n in r.fields && r.fields[n] == Int(-0x8000_0000_0000_0000)
    ensures ValidateField(s.fields[n], r.fields[n]) == Some(r.fields[n])
    ensures Encode(fmt, s, [r]).Some?
    ensures var back := Decode(fmt, Encode(fmt, s, [r]).value);
            back.Some? && |back.value.1| == 1 && n in back.value.1[0].fields && back.value.1[0].fields[n] == Null
  {
    EncodeAccepts(fmt, s, [r]);
    OneComesBack(fmt, s, r);
    assert CollidesWithNull(Get(r.fields, n)) && n in Returned(s, r.fields);
  }

  lemma OneComesBack(fmt: Layout, s: Schema, r: Record)
    requires LayoutOk(fmt) && WellFormed(s) && Validated(s, r) && Encode(fmt, s, [r]).Some?
    ensures var back := Decode(fmt, Encode(fmt, s, [r]).value);
            back.Some? && back.value.1 == [ReturnedRecord(s, r)]
  {
    SortOne(s, r);
    SortedComesBack(fmt, s, [r]);
  }

  lemma SortOne(s: Schema, r: Record)
    ensures SortRecords([r]) == [r] && ReturnedAll(s, [r]) == [ReturnedRecord(s, r)]
  {
    SortOfSorted([r], KeyLe);
  }

  /** Records already in `sort_key` order come back in place. */
  lemma SortedComesBack(fmt: Layout, s: Schema, rs: seq<Record>)
    requires LayoutOk(fmt) && WellFormed(s) && SortRecords(rs) == rs
    requires forall r :: r in rs ==> Validated(s, r)
    requires Encode(fmt, s, rs).Some?
    ensures var back := Decode(fmt, Encode(fmt, s, rs).value);
            back.Some? && back.value.1 == ReturnedAll(s, rs)
  {
    DecodeEncode(fmt, s, rs);
  }

  lemma DictionaryFits(ss: seq<string>)
    requires FitsIn(I32, |ss|) && forall x :: x in ss ==> Storable(x)
    ensures AllStorable(Dictionary(ss))
    ensures forall x :: FitsIn(I32, IndexOr(Dictionary(ss), x))
  {
    SortContents(ss, StrLe);
    DropRepeatsMembers(Sort(ss, StrLe), "");
    forall x | x in Dictionary(ss) ensures Storable(x) { DictionaryMembers(ss, x); }
  }

  lemma ColumnDictionaryFits(rs: seq<Record>, text: Record -> string)
    requires FitsIn(I32, |rs|) && forall r :: r in rs ==> Storable(text(r))
    ensures AllStorable(Dictionary(Project(rs, text)))
    ensures forall x :: FitsIn(I32, IndexOr(Dictionary(Project(rs, text)), x))
  {
    var ss := Project(rs, text);
    forall x | x in ss ensures Storable(x) {
      var i :| 0 <= i < |rs| && ss[i] == x;
      assert rs[i] in rs;
    }
    DictionaryFits(ss);
  }

  lemma {:induction false} RawRefsAre(rs: seq<Record>)
    requires forall r :: r in rs ==> RecordFits(r)
    ensures |RawRefs(rs)| <= |rs| && forall x :: x in RawRefs(rs) ==> Storable(x)
  {
    if rs == [] {
    } else {
      assert rs[0] in rs;
      RawRefsAre(rs[1..]);
    }
  }

  lemma DictionariesFit(rs: seq<Record>)
    requires FitsIn(I32, |rs|) && forall r :: r in rs ==> RecordFits(r)
    ensures var d := DictionariesOf(rs);
            && AllStorable(d.scopes) && AllStorable(d.keys) && AllStorable(d.sources)
            && AllStorable(d.sourceVersions) && AllStorable(d.parsers) && AllStorable(d.rawRefs)
            && forall x :: FitsIn(I32, IndexOr(d.scopes, x)) && FitsIn(I32, IndexOr(d.keys, x))
                 && FitsIn(I32, IndexOr(d.sources, x)) && FitsIn(I32, IndexOr(d.sourceVersions, x))
                 && FitsIn(I32, IndexOr(d.parsers, x)) && FitsIn(I32, IndexOr(d.rawRefs, x))
  {
    ColumnDictionaryFits(rs, (r: Record) => r.scope);
    ColumnDictionaryFits(rs, (r: Record) => r.key);
    ColumnDictionaryFits(rs, (r: Record) => r.source);
    ColumnDictionaryFits(rs, (r: Record) => r.sourceVersion);
    ColumnDictionaryFits(rs, (r: Record) => r.parser);
    RawRefsAre(rs);
    DictionaryFits(RawRefs(rs));
  }

  lemma {:induction false} FieldTableFits(s: Schema, names: seq<string>)
    requires SchemaFits(s) && forall n :: n in names ==> n in s.fields
    ensures |FieldTable(s, names)| <= |names|
    ensures forall f :: f in FieldTable(s, names) ==> FieldFits(f)
  {
    if names != [] { FieldTableFits(s, names[1..]); }
  }

  lemma NormalFits(spec: FieldSpec, v: Value)
    requires IsStorable(spec.fieldType) && Normal(spec, v) && (v.Int? ==> FitsIn(I64, v.i))
    ensures var raw := EncodeFieldValue(spec.fieldType, v); raw.Some? && FitsIn(I64, raw.value)
  {
    if !v.Null? && spec.fieldType.NumberType? { CanonicalTextStays(spec, v); }
  }

  lemma CellFits(s: Schema, r: Record, f: SnapshotField)
    requires WellFormed(s) && Validated(s, r) && RecordFits(r) && f in FieldTable(s, s.declared)
    ensures EncodeFieldValue(f.fieldType, Get(r.fields, f.name)).Some? && FitsIn(I64, CellOf(f, r))
  {
    FieldTableMembers(s, s.declared, f);
    NormalFits(s.fields[f.name], Get(r.fields, f.name));
  }

  lemma FieldColumnsFit(s: Schema, rs: seq<Record>)
    requires WellFormed(s) && forall r :: r in rs ==> Validated(s, r) && RecordFits(r)
    ensures var fs := FieldTable(s, s.declared);
            CellsEncode(rs, fs) && forall c :: c in FieldColumns(rs, fs) ==> AllFit(I64, c)
  {
    var fs := FieldTable(s, s.declared);
    forall r, f | r in rs && f in fs
      ensures EncodeFieldValue(f.fieldType, Get(r.fields, f.name)).Some? && FitsIn(I64, CellOf(f, r))
    {
      CellFits(s, r, f);
    }
    var cs := FieldColumns(rs, fs);
    forall j, v | 0 <= j < |cs| && v in cs[j] ensures FitsIn(I64, v) {
      var i :| 0 <= i < |rs| && cs[j][i] == v;
      assert v == CellOf(fs[j], rs[i]) && rs[i] in rs && fs[j] in fs;
    }
  }

  lemma ProjectFits(w: Width, rs: seq<Record>, f: Record -> int)
    requires forall r :: r in rs ==> FitsIn(w, f(r))
    ensures AllFit(w, Project(rs, f))
  {
    var vs := Project(rs, f);
    forall v | v in vs ensures FitsIn(w, v) {
      var i :| 0 <= i < |rs| && vs[i] == v;
      assert rs[i] in rs;
    }
  }

  lemma PlainColumnsFit(rs: seq<Record>, d: Dictionaries, fs: seq<SnapshotField>)
    requires forall r :: r in rs ==> EnvelopeOk(r) && RecordFits(r)
    ensures var c := ColumnsOf(rs, d, fs);
            && AllFit(I64, c.knownAt) && AllFit(I64, c.effectiveAt) && AllFit(I64, c.periodStart) && AllFit(I64, c.periodEnd)
            && AllFit(I32, c.revision) && AllFit(U8, c.availability) && AllFit(I64, c.seqNo)
  {
    TimeColumnsFit(rs, d, fs);
    CountColumnsFit(rs, d, fs);
  }

  lemma TimeColumnsFit(rs: seq<Record>, d: Dictionaries, fs: seq<SnapshotField>)
    requires forall r :: r in rs ==> EnvelopeOk(r)
    ensures var c := ColumnsOf(rs, d, fs);
            AllFit(I64, c.knownAt) && AllFit(I64, c.effectiveAt) && AllFit(I64, c.periodStart) && AllFit(I64, c.periodEnd)
  {
    ProjectFits(I64, rs, (r: Record) => r.knownAt);
    ProjectFits(I64, rs, (r: Record) => r.effectiveAt);
    ProjectFits(I64, rs, (r: Record) => OrSentinel(r.periodStart));
    ProjectFits(I64, rs, (r: Record) => OrSentinel(r.periodEnd));
  }

  lemma CountColumnsFit(rs: seq<Record>, d: Dictionaries, fs: seq<SnapshotField>)
    requires forall r :: r in rs ==> RecordFits(r)
    ensures var c := ColumnsOf(rs, d, fs);
            AllFit(I32, c.revision) && AllFit(U8, c.availability) && AllFit(I64, c.seqNo)
  {
    ProjectFits(I32, rs, (r: Record) => r.revision as int);
    ProjectFits(U8, rs, (r: Record) => Ordinal(r.availability));
    ProjectFits(I64, rs, (r: Record) => r.seqNo as int);
  }

  lemma IndexColumnsFit(rs: seq<Record>, fs: seq<SnapshotField>)
    requires FitsIn(I32, |rs|) && forall r :: r in rs ==> RecordFits(r)
    ensures var c := ColumnsOf(rs, DictionariesOf(rs), fs);
            && AllFit(I32, c.scope) && AllFit(I32, c.key) && AllFit(I32, c.source)
            && AllFit(I32, c.sourceVersion) && AllFit(I32, c.parser) && AllFit(I32, c.rawRef)
  {
    var d := DictionariesOf(rs);
    DictionariesFit(rs);
    ProjectFits(I32, rs, (r: Record) => IndexOr(d.scopes, r.scope));
    ProjectFits(I32, rs, (r: Record) => IndexOr(d.keys, r.key));
    ProjectFits(I32, rs, (r: Record) => IndexOr(d.sources, r.source));
    ProjectFits(I32, rs, (r: Record) => IndexOr(d.sourceVersions, r.sourceVersion));
    ProjectFits(I32, rs, (r: Record) => IndexOr(d.parsers, r.parser));
    ProjectFits(I32, rs, (r: Record) => RawRefIndex(d.rawRefs, r.rawRef));
  }

  /** Every list of validated, in-range records of the dataset encodes. */
  lemma EncodeAccepts(fmt: Layout, s: Schema, records: seq<Record>)
    requires LayoutOk(fmt) && WellFormed(s) && SchemaFits(s) && FitsIn(I32, |records|)
    requires forall r :: r in records ==> r.dataset == s.name && Validated(s, r) && RecordFits(r)
    ensures Encode(fmt, s, records).Some?
  {
    SortContents(records, KeyLe);
    forall r ensures r in SortRecords(records) <==> r in records { SortMember(records, KeyLe, r); }
    UnsealedAccepts(fmt, s, SortRecords(records));
  }

  lemma UnsealedAccepts(fmt: Layout, s: Schema, rs: seq<Record>)
    requires LayoutOk(fmt) && WellFormed(s) && SchemaFits(s) && FitsIn(I32, |rs|)
    requires forall r :: r in rs ==> Validated(s, r) && RecordFits(r)
    ensures Unsealed(fmt, s, rs, []).Some?
  {
    var h := HeaderOf(fmt, s, rs);
    var c := ColumnsOf(rs, h.dicts, h.fields);
    assert CellsEncode(rs, h.fields) && ColumnsFit(c) by {
      PlainColumnsFit(rs, h.dicts, h.fields);
      IndexColumnsFit(rs, h.fields);
      FieldColumnsFit(s, rs);
    }
    assert HeaderFits(h) by {
      DictionariesFit(rs);
      FieldTableFits(s, s.declared);
    }
  }

  // ---------------------------------------------------------------- determinism and corruption

  /** The bytes do not depend on the order the records arrive in. */
  lemma EncodeOrderIndependent(fmt: Layout, s: Schema, a: seq<Record>, b: seq<Record>)
    requires multiset(a) == multiset(b) && DistinctKeys(a)
    requires forall n :: n in s.declared ==> n in s.fields
    ensures Encode(fmt, s, a) == Encode(fmt, s, b)
  {
    SortRecordsOrderIndependent(a, b);
  }

  /** Changing one byte of a body for another gives a body with the same digest. */
  predicate Collides(fmt: Layout, body: Buffer, i: nat, flipped: byte) {
    i < |body| && fmt.sha(body[i := flipped]) == fmt.sha(body)
  }

  /** One changed byte anywhere is refused, in the trailer always and in the body unless the digest
      itself collides. */
  lemma FlippedByteIsRefused(fmt: Layout, body: Buffer, i: nat, flipped: byte)
    requires LayoutOk(fmt) && !Collides(fmt, body, i, flipped)
    requires i < |body| + 32 && flipped != (body + fmt.sha(body))[i]
    ensures Decode(fmt, (body + fmt.sha(body))[i := flipped]).None?
  {
    var data := body + fmt.sha(body);
    var bad := data[i := flipped];
    var n := |data| - 32;
    assert data[..n] == body && data[n..] == fmt.sha(body);
    if i < n {
      assert bad[n..] == data[n..];
      assert bad[..n] == body[i := flipped];
    } else {
      assert bad[..n] == body;
      assert bad[n..][i - n] != data[n..][i - n];
    }
  }

  // ---------------------------------------------------------------- truncation

  lemma ReadFieldExtends(b: Buffer, more: Buffer)
    requires ReadField(b).Some?
    ensures ReadField(b + more) == Some((ReadField(b).value.0, ReadField(b).value.1 + more))
  {
    var b1 := ReadString(b).value.1;
    var b2 := ReadInt(U8, b1).value.1;
    ReadStringExtends(b, more);
    ReadIntExtends(U8, b1, more);
    ReadStringExtends(b2, more);
  }

  lemma ReadersAreLocal()
    ensures Local(ReadString) && Local(ReadField)
  {
    forall b, more | ReadString(b).Some?
      ensures ReadString(b + more) == Some((ReadString(b).value.0, ReadString(b).value.1 + more))
    {
      ReadStringExtends(b, more);
    }
    forall b, more | ReadField(b).Some?
      ensures ReadField(b + more) == Some((ReadField(b).value.0, ReadField(b).value.1 + more))
    {
      ReadFieldExtends(b, more);
    }
  }

  lemma ReadDictExtends(b: Buffer, more: Buffer)
    requires ReadDict(b).Some?
    ensures ReadDict(b + more) == Some((ReadDict(b).value.0, ReadDict(b).value.1 + more))
  {
    var (n, rest) := ReadInt(I32, b).value;
    ReadIntExtends(I32, b, more);
    ReadersAreLocal();
    ReadManyExtends(ReadString, if n < 0 then 0 else n, rest, more);
  }

  lemma ReadDictsExtends(b: Buffer, more: Buffer)
    requires ReadDicts(b).Some?
    ensures ReadDicts(b + more) == Some((ReadDicts(b).value.0, ReadDicts(b).value.1 + more))
  {
    var b1 := ReadDict(b).value.1;
    var b2 := ReadDict(b1).value.1;
    var b3 := ReadDict(b2).value.1;
    var b4 := ReadDict(b3).value.1;
    var b5 := ReadDict(b4).value.1;
    ReadDictExtends(b, more);
    ReadDictExtends(b1, more);
    ReadDictExtends(b2, more);
    ReadDictExtends(b3, more);
    ReadDictExtends(b4, more);
    ReadDictExtends(b5, more);
  }

  lemma ReadCountsExtends(b: Buffer, more: Buffer)
    requires ReadCounts(b).Some?
    ensures ReadCounts(b + more) == Some((ReadCounts(b).value.0, ReadCounts(b).value.1 + more))
  {
    var b1 := ReadInt(I32, b).value.1;
    var b2 := ReadInt(I32, b1).value.1;
    ReadIntExtends(I32, b, more);
    ReadIntExtends(I32, b1, more);
    ReadIntExtends(I32, b2, more);
  }

  lemma ReadTablesExtends(count: nat, b: Buffer, more: Buffer)
    requires ReadTables(count, b).Some?
    ensures ReadTables(count, b + more) == Some((ReadTables(count, b).value.0, ReadTables(count, b).value.1 + more))
  {
    ReadersAreLocal();
    ReadManyExtends(ReadField, count, b, more);
    ReadDictsExtends(ReadMany(ReadField, count, b).value.1, more);
  }

  lemma HeaderBy(b: Buffer, b1: Buffer, dataset: string, b2: Buffer, counts: (nat, nat, nat), b3: Buffer,
                 tables: (seq<SnapshotField>, Dictionaries), b4: Buffer)
    requires ReadInt(I32, b) == Some((VERSION, b1)) && |b1| >= 32 && ReadString(b1[32..]) == Some((dataset, b2))
    requires ReadCounts(b2) == Some((counts, b3)) && ReadTables(counts.1, b3) == Some((tables, b4))
    ensures ReadHeader(b) == Some((Header(b1[..32], dataset, counts.0, counts.2, tables.0, tables.1), b4))
  {}

  lemma HeaderParts(b: Buffer)
    returns (b1: Buffer, dataset: string, b2: Buffer, counts: (nat, nat, nat), b3: Buffer,
             tables: (seq<SnapshotField>, Dictionaries), b4: Buffer)
    requires ReadHeader(b).Some?
    ensures ReadInt(I32, b) == Some((VERSION, b1)) && |b1| >= 32 && ReadString(b1[32..]) == Some((dataset, b2))
    ensures ReadCounts(b2) == Some((counts, b3)) && ReadTables(counts.1, b3) == Some((tables, b4))
  {
    b1 := ReadInt(I32, b).value.1;
    dataset, b2 := ReadString(b1[32..]).value.0, ReadString(b1[32..]).value.1;
    counts, b3 := ReadCounts(b2).value.0, ReadCounts(b2).value.1;
    tables, b4 := ReadTables(counts.1, b3).value.0, ReadTables(counts.1, b3).value.1;
  }

  lemma PartsExtend(b: Buffer, b1: Buffer, dataset: string, b2: Buffer, counts: (nat, nat, nat), b3: Buffer,
                    tables: (seq<SnapshotField>, Dictionaries), b4: Buffer, more: Buffer)
    requires ReadInt(I32, b) == Some((VERSION, b1)) && |b1| >= 32 && ReadString(b1[32..]) == Some((dataset, b2))
    requires ReadCounts(b2) == Some((counts, b3)) && ReadTables(counts.1, b3) == Some((tables, b4))
    ensures ReadInt(I32, b + more) == Some((VERSION, b1 + more))
    ensures (b1 + more)[..32] == b1[..32] && ReadString((b1 + more)[32..]) == Some((dataset, b2 + more))
    ensures ReadCounts(b2 + more) == Some((counts, b3 + more)) && ReadTables(counts.1, b3 + more) == Some((tables, b4 + more))
  {
    ReadIntExtends(I32, b, more);
    HashAndNameExtend(b1, more);
    ReadCountsExtends(b2, more);
    ReadTablesExtends(counts.1, b3, more);
  }

  lemma HashAndNameExtend(b1: Buffer, more: Buffer)
    requires |b1| >= 32 && ReadString(b1[32..]).Some?
    ensures (b1 + more)[..32] == b1[..32]
    ensures ReadString((b1 + more)[32..]) == Some((ReadString(b1[32..]).value.0, ReadString(b1[32..]).value.1 + more))
  {
    assert (b1 + more)[..32] == b1[..32] && (b1 + more)[32..] == b1[32..] + more;
    ReadStringExtends(b1[32..], more);
  }

  lemma ReadHeaderExtends(b: Buffer, more: Buffer)
    requires ReadHeader(b).Some?
    ensures ReadHeader(b + more) == Some((ReadHeader(b).value.0, ReadHeader(b).value.1 + more))
  {
    var b1, dataset, b2, counts, b3, tables, b4 := HeaderParts(b);
    HeaderBy(b, b1, dataset, b2, counts, b3, tables, b4);
    PartsExtend(b, b1, dataset, b2, counts, b3, tables, b4, more);
    HeaderBy(b + more, b1 + more, dataset, b2 + more, counts, b3 + more, tables, b4 + more);
  }

  /** What follows the header is exactly as long as the header says. */
  predicate AsAnnounced(b: Buffer) {
    && ReadHeader(b).Some?
    && var (h, rest) := ReadHeader(b).value; |rest| == h.count * RowBytes(|h.fields|) + 32
  }

  lemma DecodedIsAsAnnounced(fmt: Layout, data: Buffer)
    ensures Decode(fmt, data).Some? ==> |data| >= 4 && AsAnnounced(data[4..])
  {}

  /** A header that still reads announces a length the rest no longer has. */
  lemma PrefixIsNotAsAnnounced(b: Buffer, more: Buffer)
    requires AsAnnounced(b + more) && more != []
    ensures !AsAnnounced(b)
  {
    if ReadHeader(b).Some? { ReadHeaderExtends(b, more); }
  }

  /** A buffer cut short anywhere is refused: its header, if it still reads, announces a length it
      no longer has.  No property of the digest is needed. */
  lemma PrefixIsRefused(fmt: Layout, data: Buffer, cut: nat)
    requires Decode(fmt, data).Some? && cut < |data|
    ensures Decode(fmt, data[..cut]).None?
  {
    DecodedIsAsAnnounced(fmt, data);
    DecodedIsAsAnnounced(fmt, data[..cut]);
    if cut >= 4 {
      assert data[4..] == data[..cut][4..] + data[cut..];
      PrefixIsNotAsAnnounced(data[..cut][4..], data[cut..]);
    }
  }
}
