/** The encoder and decoder as they run: a buffer that grows and a cursor that advances
    (hub/snapshot.py, `encode`; hubread/snapshot.py, `_Cursor` and `decode`).

    Both are proved equal to the functions of `Snapshot`, whose round trip is proved in
    `RoundTrip`. */
module Codec {
  import opened Wrappers
  import opened Records
  import opened Schemas
  import opened Bytes
  import opened Snapshot
  import opened RoundTrip

  // ---------------------------------------------------------------- the cursor

  lemma {:induction false} ReadIntsExtends(w: Width, count: nat, b: Buffer, more: Buffer)
    requires ReadInts(w, count, b).Some?
    ensures var (vs, rest) := ReadInts(w, count, b).value; ReadInts(w, count, b + more) == Some((vs, rest + more))
  {
    if count == 0 {
    } else {
      ReadIntExtends(w, b, more);
      ReadIntsExtends(w, count - 1, ReadInt(w, b).value.1, more);
    }
  }

  /** A column is read if and only if its bytes are there. */
  lemma {:induction false} ReadIntsWhen(w: Width, count: nat, b: Buffer)
    ensures ReadInts(w, count, b).Some? <==> |b| >= count * Size(w)
    ensures ReadInts(w, count, b).Some? ==>
              |ReadInts(w, count, b).value.0| == count && |ReadInts(w, count, b).value.1| == |b| - count * Size(w)
  {
    if count == 0 {
    } else {
      OneMore(count - 1, Size(w));
      if ReadInt(w, b).Some? { ReadIntsWhen(w, count - 1, ReadInt(w, b).value.1); }
    }
  }

  /** `x` is what `reader` takes off the front of `before`, and `after` is what it leaves. */
  ghost predicate Took<T>(reader: Buffer -> Option<(T, Buffer)>, before: Buffer, x: Option<T>, after: Buffer) {
    match reader(before)
    case Some(p) => x == Some(p.0) && after == p.1
    case None => x == None
  }

  /** A bounds-checked read position.  Each method takes off the front of what is left exactly what
      the reader of the same name takes. */
  class Cursor {
    const data: Buffer
    var offset: nat

    constructor (data: Buffer)
      ensures Valid() && this.data == data && offset == 0
    {
      this.data := data;
      offset := 0;
    }

    ghost predicate Valid() reads this { offset <= |data| }

    function Rest(): Buffer
      requires Valid()
      reads this
    {
      data[offset..]
    }

    method Take(n: int) returns (chunk: Option<Buffer>)
      requires Valid()
      modifies `offset
      ensures Valid()
      ensures if 0 <= n <= |old(Rest())| then chunk == Some(old(Rest())[..n]) && Rest() == old(Rest())[n..]
              else chunk == None && Rest() == old(Rest())
    {
      var end := offset + n;
      if n < 0 || end > |data| { return None; }
      assert data[offset..end] == Rest()[..n] && data[end..] == Rest()[n..];
      chunk := Some(data[offset..end]);
      offset := end;
    }

    method Int(w: Width) returns (v: Option<int>)
      requires Valid()
      modifies `offset
      ensures Valid()
      ensures match ReadInt(w, old(Rest()))
              case Some(p) => v == Some(p.0) && Rest() == p.1
              case None => v == None
    {
      var chunk := Take(Size(w));
      if chunk.None? { return None; }
      v := Some(FromUnsigned(w, ReadNat(Size(w), chunk.value)));
      ReadNatExtends(Size(w), chunk.value, Rest());
      assert old(Rest()) == chunk.value + Rest();
    }

    method String() returns (s: Option<string>)
      requires Valid()
      modifies `offset
      ensures Valid()
      ensures match ReadString(old(Rest()))
              case Some(p) => s == Some(p.0) && Rest() == p.1
              case None => s == None
    {
      var length := Int(I32);
      if length.None? || length.value < 0 { return None; }
      var chunk := Take(length.value);
      if chunk.None? { return None; }
      s := DecodeUtf8(chunk.value);
    }

    method Column(w: Width, count: nat) returns (vs: Option<seq<int>>)
      requires Valid()
      modifies `offset
      ensures Valid()
      ensures match ReadInts(w, count, old(Rest()))
              case Some(p) => vs == Some(p.0) && Rest() == p.1 && |p.0| == count
              case None => vs == None
    {
      if count == 0 { return Some([]); }
      ReadIntsWhen(w, count, Rest());
      var chunk := Take(Size(w) * count);
      if chunk.None? { return None; }
      ReadIntsWhen(w, count, chunk.value);
      ReadIntsExtends(w, count, chunk.value, Rest());
      assert old(Rest()) == chunk.value + Rest();
      vs := Some(ReadInts(w, count, chunk.value).value.0);
    }
  }

  // ---------------------------------------------------------------- decoding

  /** What a loop has read so far, put before what is still to be read. */
  function Prepend<T>(done: seq<T>, left: Option<(seq<T>, Buffer)>): Option<(seq<T>, Buffer)> {
    if left.None? then None else Some((done + left.value.0, left.value.1))
  }

  lemma PrependNothing<T>(all: Option<(seq<T>, Buffer)>, done: seq<T>, b: Buffer)
    ensures Prepend([], all) == all
    ensures Prepend(done, Some(([], b))) == Some((done, b))
  {
    if all.Some? { assert [] + all.value.0 == all.value.0; }
    assert done + [] == done;
  }

  lemma PrependOne<T>(done: seq<T>, x: T, left: Option<(seq<T>, Buffer)>)
    ensures Prepend(done, Prepend([x], left)) == Prepend(done + [x], left)
  {
    if left.Some? { assert done + ([x] + left.value.0) == done + [x] + left.value.0; }
  }

  /** One turn of a reading loop, its start and its end. */
  lemma ManyLoop<T>(reader: Buffer -> Option<(T, Buffer)>, done: seq<T>, n: nat, b: Buffer)
    ensures Prepend([], ReadMany(reader, n, b)) == ReadMany(reader, n, b)
    ensures Prepend(done, ReadMany(reader, 0, b)) == Some((done, b))
    ensures n > 0 ==>
              Prepend(done, ReadMany(reader, n, b)) == (
              if reader(b).None? then None
              else Prepend(done + [reader(b).value.0], ReadMany(reader, n - 1, reader(b).value.1)))
  {
    PrependNothing(ReadMany(reader, n, b), done, b);
    if n > 0 && reader(b).Some? {
      var (x, rest) := reader(b).value;
      PrependOne(done, x, ReadMany(reader, n - 1, rest));
    }
  }

  /** One turn of a reading loop. */
  lemma LoopStep<T>(reader: Buffer -> Option<(T, Buffer)>, all: Option<(seq<T>, Buffer)>, done: seq<T>, left: nat,
                    before: Buffer, x: Option<T>, after: Buffer)
    requires left > 0 && all == Prepend(done, ReadMany(reader, left, before)) && Took(reader, before, x, after)
    ensures if x.None? then all.None? else all == Prepend(done + [x.value], ReadMany(reader, left - 1, after))
  {
    ManyLoop(reader, done, left, before);
  }

  method DecodeStrings(cursor: Cursor, count: nat) returns (ss: Option<seq<string>>)
    requires cursor.Valid()
    modifies cursor
    ensures cursor.Valid()
    ensures match ReadMany(ReadString, count, old(cursor.Rest()))
            case Some(p) => ss == Some(p.0) && cursor.Rest() == p.1
            case None => ss == None
  {
    var out: seq<string> := [];
    ghost var all := ReadMany(ReadString, count, cursor.Rest());
    ghost var b := cursor.Rest();
    ManyLoop(ReadString, [], count, b);
    for left := count downto 0
      invariant cursor.Valid() && b == cursor.Rest()
      invariant all == Prepend(out, ReadMany(ReadString, left, b))
    {
      ghost var before := b;
      var s := cursor.String();
      b := cursor.Rest();
      LoopStep(ReadString, all, out, left + 1, before, s, b);
      if s.None? { return None; }
      out := out + [s.value];
    }
    ManyLoop(ReadString, out, 0, b);
    ss := Some(out);
  }

  method DecodeField(cursor: Cursor) returns (f: Option<SnapshotField>)
    requires cursor.Valid()
    modifies cursor
    ensures cursor.Valid()
    ensures Took(ReadField, old(cursor.Rest()), f, cursor.Rest())
  {
    var name := cursor.String();
    if name.None? { return None; }
    var code := cursor.Int(U8);
    if code.None? || TypeOfCode(code.value).None? { return None; }
    var unit := cursor.String();
    if unit.None? { return None; }
    f := Some(SnapshotField(name.value, TypeOfCode(code.value).value, unit.value));
  }

  method DecodeFields(cursor: Cursor, count: nat) returns (fs: Option<seq<SnapshotField>>)
    requires cursor.Valid()
    modifies cursor
    ensures cursor.Valid()
    ensures match ReadMany(ReadField, count, old(cursor.Rest()))
            case Some(p) => fs == Some(p.0) && cursor.Rest() == p.1
            case None => fs == None
  {
    var out: seq<SnapshotField> := [];
    ghost var all := ReadMany(ReadField, count, cursor.Rest());
    ghost var b := cursor.Rest();
    ManyLoop(ReadField, [], count, b);
    for left := count downto 0
      invariant cursor.Valid() && b == cursor.Rest()
      invariant all == Prepend(out, ReadMany(ReadField, left, b))
    {
      ghost var before := b;
      var f := DecodeField(cursor);
      b := cursor.Rest();
      LoopStep(ReadField, all, out, left + 1, before, f, b);
      if f.None? { return None; }
      out := out + [f.value];
    }
    ManyLoop(ReadField, out, 0, b);
    fs := Some(out);
  }

  method DecodeDict(cursor: Cursor) returns (ss: Option<seq<string>>)
    requires cursor.Valid()
    modifies cursor
    ensures cursor.Valid()
    ensures Took(ReadDict, old(cursor.Rest()), ss, cursor.Rest())
  {
    var count := cursor.Int(I32);
    if count.None? { return None; }
    ss := DecodeStrings(cursor, if count.value < 0 then 0 else count.value);
  }

  method DecodeDicts(cursor: Cursor) returns (d: Option<Dictionaries>)
    requires cursor.Valid()
    modifies cursor
    ensures cursor.Valid()
    ensures Took(ReadDicts, old(cursor.Rest()), d, cursor.Rest())
  {
    var scopes := DecodeDict(cursor);
    if scopes.None? { return None; }
    var keys := DecodeDict(cursor);
    if keys.None? { return None; }
    var sources := DecodeDict(cursor);
    if sources.None? { return None; }
    var versions := DecodeDict(cursor);
    if versions.None? { return None; }
    var parsers := DecodeDict(cursor);
    if parsers.None? { return None; }
    var refs := DecodeDict(cursor);
    if refs.None? { return None; }
    d := Some(Dictionaries(scopes.value, keys.value, sources.value, versions.value, parsers.value, refs.value));
  }

  method DecodeCounts(cursor: Cursor) returns (counts: Option<(nat, nat, nat)>)
    requires cursor.Valid()
    modifies cursor
    ensures cursor.Valid()
    ensures Took(ReadCounts, old(cursor.Rest()), counts, cursor.Rest())
  {
    var records := cursor.Int(I32);
    if records.None? { return None; }
    var fields := cursor.Int(I32);
    if fields.None? { return None; }
    var scale := cursor.Int(I32);
    if scale.None? || records.value < 0 || fields.value < 0 || scale.value < 0 { return None; }
    counts := Some((records.value, fields.value, scale.value));
  }

  method DecodeHeader(cursor: Cursor) returns (h: Option<Header>)
    requires cursor.Valid()
    modifies cursor
    ensures cursor.Valid()
    ensures Took(ReadHeader, old(cursor.Rest()), h, cursor.Rest())
  {
    var version := cursor.Int(I32);
    if version.None? || version.value != VERSION { return None; }
    var hash := cursor.Take(32);
    if hash.None? { return None; }
    var dataset := cursor.String();
    if dataset.None? { return None; }
    var counts := DecodeCounts(cursor);
    if counts.None? { return None; }
    var fields := DecodeFields(cursor, counts.value.1);
    if fields.None? { return None; }
    var dicts := DecodeDicts(cursor);
    if dicts.None? { return None; }
    h := Some(Header(hash.value, dataset.value, counts.value.0, counts.value.2, fields.value, dicts.value));
  }

  method DecodeFieldColumns(cursor: Cursor, k: nat, n: nat) returns (cs: Option<seq<seq<int>>>)
    requires cursor.Valid()
    modifies cursor
    ensures cursor.Valid()
    ensures match ReadMany(ColumnReader(n), k, old(cursor.Rest()))
            case Some(p) => cs == Some(p.0) && cursor.Rest() == p.1
            case None => cs == None
    ensures cs.Some? ==> |cs.value| == k && forall c :: c in cs.value ==> |c| == n
  {
    var out: seq<seq<int>> := [];
    ghost var all := ReadMany(ColumnReader(n), k, cursor.Rest());
    ghost var b := cursor.Rest();
    ManyLoop(ColumnReader(n), [], k, b);
    for left := k downto 0
      invariant cursor.Valid() && b == cursor.Rest() && |out| == k - left && forall c :: c in out ==> |c| == n
      invariant all == Prepend(out, ReadMany(ColumnReader(n), left, b))
    {
      ghost var before := b;
      var c := cursor.Column(I64, n);
      b := cursor.Rest();
      LoopStep(ColumnReader(n), all, out, left + 1, before, c, b);
      if c.None? { return None; }
      out := out + [c.value];
    }
    ManyLoop(ColumnReader(n), out, 0, b);
    cs := Some(out);
  }

  method DecodeBody(cursor: Cursor, n: nat, k: nat) returns (c: Option<Columns>)
    requires cursor.Valid()
    modifies cursor
    ensures cursor.Valid()
    ensures match ReadBody(n, k, old(cursor.Rest()))
            case Some(p) => c == Some(p.0)
            case None => c == None
    ensures c.Some? ==> Rows(c.value, n) && |c.value.fields| == k
  {
    var knownAt := cursor.Column(I64, n);
    if knownAt.None? { return None; }
    var effectiveAt := cursor.Column(I64, n);
    if effectiveAt.None? { return None; }
    var periodStart := cursor.Column(I64, n);
    if periodStart.None? { return None; }
    var periodEnd := cursor.Column(I64, n);
    if periodEnd.None? { return None; }
    var scope := cursor.Column(I32, n);
    if scope.None? { return None; }
    var key := cursor.Column(I32, n);
    if key.None? { return None; }
    var revision := cursor.Column(I32, n);
    if revision.None? { return None; }
    var availability := cursor.Column(U8, n);
    if availability.None? { return None; }
    var seqNo := cursor.Column(I64, n);
    if seqNo.None? { return None; }
    var source := cursor.Column(I32, n);
    if source.None? { return None; }
    var version := cursor.Column(I32, n);
    if version.None? { return None; }
    var parser := cursor.Column(I32, n);
    if parser.None? { return None; }
    var rawRef := cursor.Column(I32, n);
    if rawRef.None? { return None; }
    var fields := DecodeFieldColumns(cursor, k, n);
    if fields.None? { return None; }
    c := Some(Columns(knownAt.value, effectiveAt.value, periodStart.value, periodEnd.value, scope.value, key.value,
                      revision.value, availability.value, seqNo.value, source.value, version.value, parser.value,
                      rawRef.value, fields.value));
  }

  lemma RowsHaveRow(c: Columns, n: nat, i: nat)
    requires Rows(c, n) && i < n
    ensures HasRow(c, |c.fields|, i)
  {
    forall j | 0 <= j < |c.fields| ensures i < |c.fields[j]| { assert c.fields[j] in c.fields; }
  }

  method DecodeRows(h: Header, c: Columns) returns (rs: Option<seq<Record>>)
    requires Rows(c, h.count) && |c.fields| == |h.fields|
    requires forall i :: 0 <= i < h.count ==> HasRow(c, |h.fields|, i)
    ensures rs == RowRecords(h, c, h.count)
  {
    rs := TakeRows(h, c, EachRow(h, c, h.count));
  }

  method TakeRows(h: Header, c: Columns, ghost rows: seq<Option<Record>>) returns (rs: Option<seq<Record>>)
    requires |rows| == h.count
    requires forall i :: 0 <= i < h.count ==> HasRow(c, |h.fields|, i) && rows[i] == RowRecord(h, c, i)
    ensures rs == AllSome(rows)
  {
    var out: seq<Record> := [];
    for i := 0 to h.count
      invariant |out| == i && forall j :: 0 <= j < i ==> rows[j] == Some(out[j])
    {
      var r := RowRecord(h, c, i);
      if r.None? {
        AllSomeFails(rows, i);
        return None;
      }
      out := out + [r.value];
    }
    AllSomeAre(rows, out);
    rs := Some(out);
  }

  /** `decode` as it runs. */
  method DecodeSnapshot(fmt: Layout, data: Buffer) returns (r: Option<(Header, seq<Record>)>)
    requires LayoutOk(fmt)
    ensures r == Decode(fmt, data)
  {
    if |data| < 4 || data[..4] != MAGIC { return None; }
    var cursor := new Cursor(data);
    var magic := cursor.Take(4);
    assert cursor.Rest() == data[4..];
    var h := DecodeHeader(cursor);
    if h.None? { return None; }
    var expected := cursor.offset + h.value.count * RowBytes(|h.value.fields|) + 32;
    if |data| != expected { return None; }
    if fmt.sha(data[..|data| - 32]) != data[|data| - 32..] { return None; }
    ghost var rest := cursor.Rest();
    var c := DecodeBody(cursor, h.value.count, |h.value.fields|);
    if c.None? { return None; }
    forall i | 0 <= i < h.value.count ensures HasRow(c.value, |h.value.fields|, i) {
      RowsHaveRow(c.value, h.value.count, i);
    }
    var rs := DecodeRows(h.value, c.value);
    DecodeBy(fmt, data, h.value, rest, c.value, ReadBody(h.value.count, |h.value.fields|, rest).value.1);
    if rs.None? { return None; }
    r := Some((h.value, rs.value));
  }

  // ---------------------------------------------------------------- encoding

  lemma Join(out: Buffer, a: Buffer, b: Buffer)
    ensures [] + b == b && out + (a + b) == out + a + b
  {}

  /** `_pack_column` and the fixed integers: appending one block moves it from what is still to be
      written to what has been. */
  lemma AppendInts(out: Buffer, w: Width, vs: seq<int>, rest: Buffer)
    requires forall v :: v in vs ==> FitsIn(w, v)
    ensures out + PutInts(w, vs, rest) == out + PutInts(w, vs, []) + rest
  {
    PutIntsThen(w, vs, [], rest);
    Join(out, PutInts(w, vs, []), rest);
  }

  lemma AppendInt(out: Buffer, w: Width, v: int, rest: Buffer)
    requires FitsIn(w, v)
    ensures out + PutInt(w, v, rest) == out + PutInt(w, v, []) + rest
  {
    PutIntThen(w, v, [], rest);
    Join(out, PutInt(w, v, []), rest);
  }

  lemma AppendString(out: Buffer, s: string, rest: Buffer)
    requires Storable(s)
    ensures out + PutString(s, rest) == out + PutString(s, []) + rest
  {
    PutStringThen(s, [], rest);
    Join(out, PutString(s, []), rest);
  }

  method WriteDict(before: Buffer, ss: seq<string>, ghost rest: Buffer) returns (out: Buffer)
    requires AllStorable(ss)
    ensures out + rest == before + PutDict(ss, rest)
  {
    out := before + PutInt(I32, |ss|, []);
    AppendInt(before, I32, |ss|, PutStrings(ss, rest));
    for i := 0 to |ss|
      invariant out + PutStrings(ss[i..], rest) == before + PutDict(ss, rest)
    {
      assert ss[i..][1..] == ss[i + 1..];
      AppendString(out, ss[i], PutStrings(ss[i + 1..], rest));
      out := out + PutString(ss[i], []);
    }
  }

  method WriteDicts(before: Buffer, d: Dictionaries, ghost rest: Buffer) returns (out: Buffer)
    requires AllStorable(d.scopes) && AllStorable(d.keys) && AllStorable(d.sources)
    requires AllStorable(d.sourceVersions) && AllStorable(d.parsers) && AllStorable(d.rawRefs)
    ensures out + rest == before + PutDicts(d, rest)
  {
    ghost var t5 := PutDict(d.rawRefs, rest);
    ghost var t4 := PutDict(d.parsers, t5);
    ghost var t3 := PutDict(d.sourceVersions, t4);
    ghost var t2 := PutDict(d.sources, t3);
    ghost var t1 := PutDict(d.keys, t2);
    out := WriteDict(before, d.scopes, t1);
    out := WriteDict(out, d.keys, t2);
    out := WriteDict(out, d.sources, t3);
    out := WriteDict(out, d.sourceVersions, t4);
    out := WriteDict(out, d.parsers, t5);
    out := WriteDict(out, d.rawRefs, rest);
  }

  method WriteFields(before: Buffer, fs: seq<SnapshotField>, ghost rest: Buffer) returns (out: Buffer)
    requires forall f :: f in fs ==> FieldFits(f)
    ensures out + rest == before + PutFields(fs, rest)
  {
    out := before;
    for i := 0 to |fs|
      invariant out + PutFields(fs[i..], rest) == before + PutFields(fs, rest)
    {
      var f := fs[i];
      assert fs[i..][1..] == fs[i + 1..] && FieldFits(f);
      ghost var t2 := PutFields(fs[i + 1..], rest);
      ghost var t1 := PutString(f.unit, t2);
      AppendString(out, f.name, PutInt(U8, TypeCode(f.fieldType), t1));
      out := out + PutString(f.name, []);
      AppendInt(out, U8, TypeCode(f.fieldType), t1);
      out := out + PutInt(U8, TypeCode(f.fieldType), []);
      AppendString(out, f.unit, t2);
      out := out + PutString(f.unit, []);
    }
  }

  method WriteHeader(before: Buffer, h: Header, ghost rest: Buffer) returns (out: Buffer)
    requires HeaderFits(h)
    ensures out + rest == before + PutHeader(h, rest)
  {
    ghost var t6 := PutDicts(h.dicts, rest);
    ghost var t5 := PutFields(h.fields, t6);
    ghost var t4 := PutInt(I32, h.scale, t5);
    ghost var t3 := PutInt(I32, |h.fields|, t4);
    ghost var t2 := PutInt(I32, h.count, t3);
    ghost var t1 := PutString(h.dataset, t2);
    AppendInt(before, I32, VERSION, h.schemaHash + t1);
    out := before + PutInt(I32, VERSION, []);
    Join(out, h.schemaHash, t1);
    out := out + h.schemaHash;
    AppendString(out, h.dataset, t2);
    out := out + PutString(h.dataset, []);
    AppendInt(out, I32, h.count, t3);
    out := out + PutInt(I32, h.count, []);
    AppendInt(out, I32, |h.fields|, t4);
    out := out + PutInt(I32, |h.fields|, []);
    AppendInt(out, I32, h.scale, t5);
    out := out + PutInt(I32, h.scale, []);
    out := WriteFields(out, h.fields, t6);
    out := WriteDicts(out, h.dicts, rest);
  }

  method WriteColumn(before: Buffer, w: Width, vs: seq<int>, ghost rest: Buffer) returns (out: Buffer)
    requires AllFit(w, vs)
    ensures out + rest == before + PutInts(w, vs, rest)
  {
    AppendInts(before, w, vs, rest);
    out := before + PutInts(w, vs, []);
  }

  method WriteBody(before: Buffer, c: Columns, ghost rest: Buffer) returns (out: Buffer)
    requires ColumnsFit(c)
    ensures out + rest == before + PutBody(c, rest)
  {
    ghost var t13 := PutColumns(c.fields, rest);
    ghost var t12 := PutInts(I32, c.rawRef, t13);
    ghost var t11 := PutInts(I32, c.parser, t12);
    ghost var t10 := PutInts(I32, c.sourceVersion, t11);
    ghost var t9 := PutInts(I32, c.source, t10);
    ghost var t8 := PutInts(I64, c.seqNo, t9);
    ghost var t7 := PutInts(U8, c.availability, t8);
    ghost var t6 := PutInts(I32, c.revision, t7);
    ghost var t5 := PutInts(I32, c.key, t6);
    ghost var t4 := PutInts(I32, c.scope, t5);
    ghost var t3 := PutInts(I64, c.periodEnd, t4);
    ghost var t2 := PutInts(I64, c.periodStart, t3);
    ghost var t1 := PutInts(I64, c.effectiveAt, t2);
    out := WriteColumn(before, I64, c.knownAt, t1);
    out := WriteColumn(out, I64, c.effectiveAt, t2);
    out := WriteColumn(out, I64, c.periodStart, t3);
    out := WriteColumn(out, I64, c.periodEnd, t4);
    out := WriteColumn(out, I32, c.scope, t5);
    out := WriteColumn(out, I32, c.key, t6);
    out := WriteColumn(out, I32, c.revision, t7);
    out := WriteColumn(out, U8, c.availability, t8);
    out := WriteColumn(out, I64, c.seqNo, t9);
    out := WriteColumn(out, I32, c.source, t10);
    out := WriteColumn(out, I32, c.sourceVersion, t11);
    out := WriteColumn(out, I32, c.parser, t12);
    out := WriteColumn(out, I32, c.rawRef, t13);
    for j := 0 to |c.fields|
      invariant out + PutColumns(c.fields[j..], rest) == before + PutBody(c, rest)
    {
      assert c.fields[j] in c.fields && c.fields[j..][1..] == c.fields[j + 1..];
      out := WriteColumn(out, I64, c.fields[j], PutColumns(c.fields[j + 1..], rest));
    }
  }

  method WriteBlocks(h: Header, c: Columns) returns (out: Buffer)
    requires HeaderFits(h) && ColumnsFit(c)
    ensures out == MAGIC + PutHeader(h, PutBody(c, []))
  {
    out := WriteHeader(MAGIC, h, PutBody(c, []));
    out := WriteBody(out, c, []);
    assert out + [] == out;
  }

  /** `encode` as it runs: a buffer grown block by block, then sealed.  A value the encoder refuses,
      or one too wide for its column, raises before anything is returned. */
  method EncodeSnapshot(fmt: Layout, s: Schema, records: seq<Record>) returns (r: Option<Buffer>)
    requires forall n :: n in s.declared ==> n in s.fields
    ensures r == Encode(fmt, s, records)
  {
    var ordered := SortRecords(records);
    if exists r :: r in ordered && r.dataset != s.name { return None; }
    var h := HeaderOf(fmt, s, ordered);
    var c := ColumnsOf(ordered, h.dicts, h.fields);
    if !(CellsEncode(ordered, h.fields) && HeaderFits(h) && ColumnsFit(c)) { return None; }
    var out := WriteBlocks(h, c);
    r := Some(out + fmt.sha(out));
  }
}
