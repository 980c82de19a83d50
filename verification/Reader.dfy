/** Reading the store at a point in time (hubread/reader.py).

    A range is stitched from compiled snapshots where the manifest has them and from the journal
    everywhere else; an `as_of` answers from what was visible at an instant, and its answers about
    the past never change. */
module Reader {
  import opened Wrappers
  import opened Ordering
  import opened Records
  import opened Schemas
  import opened Bytes
  import opened Snapshot
  import opened RoundTrip
  import opened Journal
  import opened Ranges
  import opened Incremental
  import opened Visibility

  // ---------------------------------------------------------------- windows of the manifest

  datatype WindowInfo = WindowInfo(fromMs: int, toMs: int, file: SnapPath, sha: Buffer)

  predicate Inside(w: WindowInfo, t: int) { w.fromMs <= t <= w.toMs }

  predicate Covered(ws: seq<WindowInfo>, t: int) { exists w :: w in ws && Inside(w, t) }

  ghost predicate Disjoint(ws: seq<WindowInfo>) {
    && (forall w :: w in ws ==> w.fromMs <= w.toMs)
    && (forall i, j :: 0 <= i < j < |ws| ==> ws[i].toMs < ws[j].fromMs)
  }

  /** A record as a range shows it: through the snapshot format inside a window, as journalled
      outside. */
  function Shown(s: Schema, ws: seq<WindowInfo>): Record -> Record {
    (r: Record) => if Covered(ws, r.knownAt) then ReturnedRecord(s, r) else r
  }

  datatype RangeError = BadJournal | MissingFile | HashMismatch | BadSnapshot

  /** How a reader gets at a window's records: `_decode_window`. */
  type Loader = WindowInfo -> Result<seq<Record>, RangeError>

  /** How a reader gets at the journal: `read_range`. */
  type JournalReader = (int, int) -> Result<seq<Record>, RangeError>

  /** The records of one snapshot file, once its bytes have been checked against the manifest. */
  function DecodeWindow(fmt: Layout, snaps: Snapshots): Loader {
    (w: WindowInfo) =>
      if w.file !in snaps then Err(MissingFile)
      else if fmt.sha(snaps[w.file]) != w.sha then Err(HashMismatch)
      else match Decode(fmt, snaps[w.file])
        case None => Err(BadSnapshot)
        case Some(p) => Ok(p.1)
  }

  /** The snapshot of a window matches the journal. */
  ghost predicate Matches(load: Loader, s: Schema, journal: seq<Record>, w: WindowInfo) {
    load(w) == Ok(ReturnedAll(s, Span(journal, w.fromMs, w.toMs)))
  }

  // ---------------------------------------------------------------- projections and order

  ghost predicate KeepsKeys(f: Record -> Record) { forall r :: SameKey(f(r), r) }

  lemma ShownKeepsKeys(s: Schema, ws: seq<WindowInfo>)
    ensures KeepsKeys(Shown(s, ws))
  {}

  lemma {:induction false} ProjectCount(a: seq<Record>, f: Record -> Record, x: Record)
    requires a != [] && x in a
    ensures multiset(Project(a, f)) == multiset(Project(Removed(a, x), f)) + multiset{f(x)}
  {
    if a[0] == x {
      assert Project(a, f) == [f(x)] + Project(a[1..], f);
    } else {
      assert a == [a[0]] + a[1..];
      ProjectCount(a[1..], f, x);
      var rest := Removed(a[1..], x);
      assert ([a[0]] + rest)[1..] == rest;
      assert Project(Removed(a, x), f) == [f(a[0])] + Project(rest, f);
      assert Project(a, f) == [f(a[0])] + Project(a[1..], f);
    }
  }

  /** A list without its first `x`. */
  function Removed(a: seq<Record>, x: Record): seq<Record> {
    if a == [] then [] else if a[0] == x then a[1..] else [a[0]] + Removed(a[1..], x)
  }

  lemma {:induction false} RemovedContents(a: seq<Record>, x: Record)
    requires x in a
    ensures multiset(Removed(a, x)) == multiset(a) - multiset{x}
  {
    assert a == [a[0]] + a[1..];
    if a[0] != x { RemovedContents(a[1..], x); }
  }

  /** What a projection holds depends only on what it projects. */
  lemma {:induction false} ProjectContents(a: seq<Record>, b: seq<Record>, f: Record -> Record)
    requires multiset(a) == multiset(b)
    ensures multiset(Project(a, f)) == multiset(Project(b, f))
    decreases |a|
  {
    assert |multiset(a)| == |a| && |multiset(b)| == |b|;
    if a == [] {
    } else {
      var x := a[0];
      assert x in multiset(a);
      assert x in b;
      RemovedContents(b, x);
      assert a == [x] + a[1..];
      ProjectContents(a[1..], Removed(b, x), f);
      ProjectCount(b, f, x);
      assert Project(a, f) == [f(x)] + Project(a[1..], f);
    }
  }

  lemma {:induction false} ProjectConcat(a: seq<Record>, b: seq<Record>, f: Record -> Record)
    ensures Project(a + b, f) == Project(a, f) + Project(b, f)
  {}

  lemma {:induction false} FilterProject(a: seq<Record>, f: Record -> Record, p: Record -> bool)
    requires forall r :: p(f(r)) == p(r)
    ensures Filter(Project(a, f), p) == Project(Filter(a, p), f)
  {
    if a == [] {
    } else {
      FilterProject(a[1..], f, p);
      assert Project(a, f)[1..] == Project(a[1..], f);
      if p(a[0]) { assert Filter(a, p)[1..] == Filter(a[1..], p); }
    }
  }

  /** Projecting the sorted records and sorting the projected ones agree. */
  lemma SortProjected(journal: seq<Record>, out: seq<Record>, f: Record -> Record)
    requires KeepsKeys(f) && DistinctKeys(journal)
    requires multiset(out) == multiset(Project(journal, f))
    ensures SortRecords(out) == Project(SortRecords(journal), f)
  {
    var sorted := SortRecords(journal);
    var shown := Project(sorted, f);
    KeyOrder();
    SortSorted(journal, KeyLe);
    SortContents(journal, KeyLe);
    ProjectContents(sorted, journal, f);
    forall i, j | 0 <= i < j < |shown| ensures KeyLe(shown[i], shown[j]) {
      SameKeysSameOrder(shown[i], sorted[i], shown[j], sorted[j]);
    }
    SortOfSorted(shown, KeyLe);
    forall r | r in sorted ensures r in journal { SortMember(journal, KeyLe, r); }
    DistinctAmong(sorted, journal);
    forall i, j | 0 <= i < |shown| && 0 <= j < |shown| && SameKey(shown[i], shown[j])
      ensures shown[i] == shown[j]
    {
      assert SameKey(shown[i], sorted[i]) && SameKey(shown[j], sorted[j]);
      assert sorted[i] == sorted[j];
    }
    SortRecordsOrderIndependent(shown, out);
  }

  lemma SameKeysSameOrder(a: Record, b: Record, c: Record, d: Record)
    requires SameKey(a, b) && SameKey(c, d)
    ensures KeyLe(a, c) == KeyLe(b, d)
  {}

  // ---------------------------------------------------------------- stitching

  /** Two lists one after the other, the first failure winning. */
  function Joined(a: Result<seq<Record>, RangeError>, b: Result<seq<Record>, RangeError>): Result<seq<Record>, RangeError> {
    if a.Err? then a else if b.Err? then b else Ok(a.value + b.value)
  }

  /** The journal from the cursor up to `hi`, if that is anything. */
  function Gap(read: JournalReader, cursor: int, hi: int): Result<seq<Record>, RangeError> {
    if cursor <= hi then read(cursor, hi) else Ok([])
  }

  /** A window's own records, cut to the asked interval. */
  function Cut(load: Loader, w: WindowInfo, from: int, to: int): Result<seq<Record>, RangeError> {
    var decoded :- load(w);
    Ok(Filter(decoded, KnownIn(from, to)))
  }

  /** What one overlapping window adds: the gap before it, and itself. */
  function Piece(read: JournalReader, load: Loader, w: WindowInfo, from: int, to: int, cursor: int): Result<seq<Record>, RangeError> {
    Joined(Gap(read, cursor, w.fromMs - 1), Cut(load, w, from, to))
  }

  function Past(w: WindowInfo, cursor: int): int { if cursor > w.toMs + 1 then cursor else w.toMs + 1 }

  predicate Apart(w: WindowInfo, from: int, to: int) { w.toMs < from || w.fromMs > to }

  /** What the loop of `range` has still to add when it stands before window `i` with its cursor. */
  function StitchFrom(read: JournalReader, load: Loader, ws: seq<WindowInfo>, i: nat, from: int, to: int, cursor: int)
    : Result<seq<Record>, RangeError>
    requires i <= |ws|
    decreases |ws| - i
  {
    if i == |ws| then Gap(read, cursor, to)
    else if Apart(ws[i], from, to) then StitchFrom(read, load, ws, i + 1, from, to, cursor)
    else if Past(ws[i], cursor) > to then Piece(read, load, ws[i], from, to, cursor)
    else Joined(Piece(read, load, ws[i], from, to, cursor),
                StitchFrom(read, load, ws, i + 1, from, to, Past(ws[i], cursor)))
  }

  /** Everything `range` gathers: straight from the journal when there are no windows. */
  function Stitched(read: JournalReader, load: Loader, ws: seq<WindowInfo>, from: int, to: int): Result<seq<Record>, RangeError> {
    if ws == [] then read(from, to) else StitchFrom(read, load, ws, 0, from, to, from)
  }

  lemma JoinedNested(out: seq<Record>, piece: seq<Record>, rest: Result<seq<Record>, RangeError>)
    ensures Joined(Ok(out), Joined(Ok(piece), rest)) == Joined(Ok(out + piece), rest)
    ensures Joined(Ok([]), rest) == rest
    ensures Joined(Ok(out), Ok(piece)) == Ok(out + piece)
  {
    if rest.Ok? { assert out + (piece + rest.value) == out + piece + rest.value && [] + rest.value == rest.value; }
  }

  /** What is to be shown, by interval of `knownAt`. */
  type Content = (int, int) -> multiset<Record>

  function ContentOf(shown: Record -> Record, journal: seq<Record>): Content {
    (lo: int, hi: int) => multiset(Project(Filter(journal, KnownIn(lo, hi)), shown))
  }

  ghost predicate Splits(content: Content, lo: int, mid: int, hi: int) {
    content(lo, mid) + content(mid + 1, hi) == content(lo, hi)
  }

  ghost predicate Additive(content: Content) {
    && (forall lo, hi :: lo > hi ==> content(lo, hi) == multiset{})
    && (forall lo, mid, hi :: lo <= mid + 1 <= hi + 1 ==> Splits(content, lo, mid, hi))
  }

  ghost predicate Yields(r: Result<seq<Record>, RangeError>, m: multiset<Record>) {
    r.Ok? && multiset(r.value) == m
  }

  function Max(a: int, b: int): int { if a > b then a else b }

  function Min(a: int, b: int): int { if a < b then a else b }

  /** What the two sources of a range give: the journal wherever no window is, and each window its
      own interval. */
  ghost predicate Sources(read: JournalReader, load: Loader, ws: seq<WindowInfo>, content: Content) {
    && (forall lo, hi {:trigger read(lo, hi)} :: (forall t :: lo <= t <= hi ==> !Covered(ws, t)) ==> Yields(read(lo, hi), content(lo, hi)))
    && (forall w, from, to {:trigger Cut(load, w, from, to)} :: w in ws ==> Yields(Cut(load, w, from, to), content(Max(from, w.fromMs), Min(to, w.toMs))))
  }

  /** The cursor stands at the start of the range or before every window still to come, and no
      window already passed reaches over what is still wanted. */
  ghost predicate CursorOk(ws: seq<WindowInfo>, i: nat, from: int, to: int, cursor: int) {
    && from <= cursor
    && (forall j :: i <= j < |ws| ==> cursor == from || cursor <= ws[j].fromMs)
    && (forall j, t :: 0 <= j < i && j < |ws| && cursor <= t <= to ==> !Inside(ws[j], t))
  }

  lemma InsideSome(ws: seq<WindowInfo>, t: int)
    requires Covered(ws, t)
    ensures exists j :: 0 <= j < |ws| && Inside(ws[j], t)
  {
    var w :| w in ws && Inside(w, t);
    var j :| 0 <= j < |ws| && ws[j] == w;
  }

  lemma JoinYields(content: Content, lo: int, mid: int, next: int, hi: int, a: Result<seq<Record>, RangeError>, b: Result<seq<Record>, RangeError>)
    requires Additive(content) && lo <= next == mid + 1 <= hi + 1
    requires Yields(a, content(lo, mid)) && Yields(b, content(next, hi))
    ensures Yields(Joined(a, b), content(lo, hi))
  {
    assert Splits(content, lo, mid, hi);
  }

  /** The gap before window `i`, or after the last, is where no window is. */
  lemma GapYields(read: JournalReader, load: Loader, ws: seq<WindowInfo>, content: Content,
                  i: nat, from: int, to: int, cursor: int, hi: int)
    requires Sources(read, load, ws, content) && Additive(content) && Disjoint(ws)
    requires CursorOk(ws, i, from, to, cursor) && i <= |ws| && hi <= to && (i < |ws| ==> hi < ws[i].fromMs)
    ensures Yields(Gap(read, cursor, hi), content(cursor, hi))
  {
    forall t | cursor <= t <= hi ensures !Covered(ws, t) {
      if Covered(ws, t) { InsideSome(ws, t); }
    }
  }

  /** Moving on past a window. */
  lemma CursorMoves(ws: seq<WindowInfo>, i: nat, from: int, to: int, cursor: int)
    requires Disjoint(ws) && i < |ws| && CursorOk(ws, i, from, to, cursor)
    ensures Apart(ws[i], from, to) ==> CursorOk(ws, i + 1, from, to, cursor)
    ensures !Apart(ws[i], from, to) ==> Past(ws[i], cursor) == ws[i].toMs + 1 && CursorOk(ws, i + 1, from, to, ws[i].toMs + 1)
    ensures cursor == from || cursor <= ws[i].fromMs
  {
    assert ws[i] in ws;
  }

  /** One window that overlaps the range: the gap before it, and itself. */
  lemma PieceYields(read: JournalReader, load: Loader, ws: seq<WindowInfo>, content: Content, i: nat, from: int, to: int, cursor: int)
    requires Sources(read, load, ws, content) && Additive(content) && Disjoint(ws)
    requires i < |ws| && CursorOk(ws, i, from, to, cursor) && !Apart(ws[i], from, to)
    ensures Yields(Piece(read, load, ws[i], from, to, cursor), content(cursor, Min(to, ws[i].toMs)))
  {
    var w := ws[i];
    assert w in ws;
    CursorMoves(ws, i, from, to, cursor);
    GapYields(read, load, ws, content, i, from, to, cursor, w.fromMs - 1);
    var cut := Cut(load, w, from, to);
    assert Yields(cut, content(Max(from, w.fromMs), Min(to, w.toMs)));
    if cursor <= w.fromMs {
      assert Max(from, w.fromMs) == w.fromMs;
      JoinYields(content, cursor, w.fromMs - 1, w.fromMs, Min(to, w.toMs), Gap(read, cursor, w.fromMs - 1), cut);
    } else {
      assert Max(from, w.fromMs) == cursor;
      JoinedNested([], [], cut);
    }
  }

  /** An overlapping window and everything after it. */
  lemma TurnYields(read: JournalReader, load: Loader, ws: seq<WindowInfo>, content: Content,
                   i: nat, from: int, to: int, cursor: int, end: int)
    requires Additive(content) && i < |ws| && !Apart(ws[i], from, to) && ws[i].toMs == end && Past(ws[i], cursor) == end + 1
    requires Yields(Piece(read, load, ws[i], from, to, cursor), content(cursor, Min(to, end)))
    requires end + 1 <= to ==> Yields(StitchFrom(read, load, ws, i + 1, from, to, end + 1), content(end + 1, to))
    ensures Yields(StitchFrom(read, load, ws, i, from, to, cursor), content(cursor, to))
  {
    if end + 1 <= to {
      JoinYields(content, cursor, end, end + 1, to, Piece(read, load, ws[i], from, to, cursor),
                 StitchFrom(read, load, ws, i + 1, from, to, end + 1));
    }
  }

  lemma {:induction false} StitchYields(read: JournalReader, load: Loader, ws: seq<WindowInfo>, content: Content,
                                        i: nat, from: int, to: int, cursor: int)
    requires Sources(read, load, ws, content) && Additive(content) && Disjoint(ws)
    requires i <= |ws| && CursorOk(ws, i, from, to, cursor)
    ensures Yields(StitchFrom(read, load, ws, i, from, to, cursor), content(cursor, to))
    decreases |ws| - i
  {
    if i == |ws| {
      GapYields(read, load, ws, content, i, from, to, cursor, to);
      assert StitchFrom(read, load, ws, i, from, to, cursor) == Gap(read, cursor, to);
      return;
    }
    CursorMoves(ws, i, from, to, cursor);
    if Apart(ws[i], from, to) {
      StitchYields(read, load, ws, content, i + 1, from, to, cursor);
      assert StitchFrom(read, load, ws, i, from, to, cursor) == StitchFrom(read, load, ws, i + 1, from, to, cursor);
      return;
    }
    var end := ws[i].toMs;
    PieceYields(read, load, ws, content, i, from, to, cursor);
    if end + 1 <= to { StitchYields(read, load, ws, content, i + 1, from, to, end + 1); }
    TurnYields(read, load, ws, content, i, from, to, cursor, end);
  }

  // ---------------------------------------------------------------- what the sources hold

  /** What the two sources of a range give for a journal: `ReadRange` gives each span of it, and
      every window's file its own span through the snapshot format. */
  ghost predicate Sound(read: JournalReader, load: Loader, s: Schema, ws: seq<WindowInfo>, journal: seq<Record>) {
    && (forall lo, hi :: read(lo, hi) == Ok(Span(journal, lo, hi)))
    && (forall w :: w in ws ==> Matches(load, s, journal, w))
  }

  lemma ContentAdds(shown: Record -> Record, journal: seq<Record>, lo: int, mid: int, hi: int)
    requires lo <= mid + 1 <= hi + 1
    ensures Splits(ContentOf(shown, journal), lo, mid, hi)
  {
    var p, q, either := KnownIn(lo, mid), KnownIn(mid + 1, hi), KnownIn(lo, hi);
    forall r ensures multiset(Filter(journal, either))[r] == multiset(Filter(journal, p) + Filter(journal, q))[r] {
      FilterCount(journal, either, r);
      FilterCount(journal, p, r);
      FilterCount(journal, q, r);
    }
    ProjectContents(Filter(journal, either), Filter(journal, p) + Filter(journal, q), shown);
    ProjectConcat(Filter(journal, p), Filter(journal, q), shown);
  }

  lemma ContentIsAdditive(shown: Record -> Record, journal: seq<Record>)
    ensures Additive(ContentOf(shown, journal))
  {
    var c := ContentOf(shown, journal);
    forall lo, hi | lo > hi ensures c(lo, hi) == multiset{} { FilterNone(journal, KnownIn(lo, hi)); }
    forall lo, mid, hi | lo <= mid + 1 <= hi + 1 ensures Splits(c, lo, mid, hi) {
      ContentAdds(shown, journal, lo, mid, hi);
    }
  }

  lemma ProjectAgree(rs: seq<Record>, f: Record -> Record, g: Record -> Record)
    requires forall r :: r in rs ==> f(r) == g(r)
    ensures Project(rs, f) == Project(rs, g)
  {}

  /** A span through `back`, where that is how its records are shown. */
  lemma SpanYields(shown: Record -> Record, back: Record -> Record, journal: seq<Record>, lo: int, hi: int)
    requires forall r: Record :: lo <= r.knownAt <= hi ==> back(r) == shown(r)
    ensures multiset(Project(Span(journal, lo, hi), back)) == ContentOf(shown, journal)(lo, hi)
  {
    var some := Filter(journal, KnownIn(lo, hi));
    SortContents(some, KeyLe);
    ProjectContents(SortRecords(some), some, back);
    forall r | r in some ensures back(r) == shown(r) { FilterMember(journal, KnownIn(lo, hi), r); }
    ProjectAgree(some, back, shown);
  }

  lemma ProjectSelf(rs: seq<Record>)
    ensures Project(rs, (r: Record) => r) == rs
  {}

  function Through(s: Schema): Record -> Record { (r: Record) => ReturnedRecord(s, r) }

  /** A window's decoded records, cut to the asked interval. */
  lemma CutYields(load: Loader, s: Schema, ws: seq<WindowInfo>, journal: seq<Record>, w: WindowInfo, from: int, to: int)
    requires w in ws && Matches(load, s, journal, w)
    ensures Yields(Cut(load, w, from, to), ContentOf(Shown(s, ws), journal)(Max(from, w.fromMs), Min(to, w.toMs)))
  {
    var lo, hi := Max(from, w.fromMs), Min(to, w.toMs);
    var all := Span(journal, w.fromMs, w.toMs);
    assert ReturnedAll(s, all) == Project(all, Through(s));
    FilterProject(all, Through(s), KnownIn(from, to));
    forall r | r in all ensures KnownIn(from, to)(r) == KnownIn(lo, hi)(r) { SpanMember(journal, w.fromMs, w.toMs, r); }
    FilterAgree(all, KnownIn(from, to), KnownIn(lo, hi));
    SpanWithin(journal, w.fromMs, w.toMs, lo, hi);
    SpanYields(Shown(s, ws), Through(s), journal, lo, hi);
  }

  lemma SourcesOf(read: JournalReader, load: Loader, s: Schema, ws: seq<WindowInfo>, journal: seq<Record>)
    requires Sound(read, load, s, ws, journal)
    ensures Sources(read, load, ws, ContentOf(Shown(s, ws), journal))
  {
    var content := ContentOf(Shown(s, ws), journal);
    forall lo, hi | forall t :: lo <= t <= hi ==> !Covered(ws, t) ensures Yields(read(lo, hi), content(lo, hi)) {
      assert read(lo, hi) == Ok(Span(journal, lo, hi));
      ProjectSelf(Span(journal, lo, hi));
      SpanYields(Shown(s, ws), (r: Record) => r, journal, lo, hi);
    }
    forall w, from, to | w in ws ensures Yields(Cut(load, w, from, to), content(Max(from, w.fromMs), Min(to, w.toMs))) {
      CutYields(load, s, ws, journal, w, from, to);
    }
  }

  /** Range stitching: over ascending disjoint windows whose snapshots match the journal, a range is
      the journal's own span, each record once and in `sort_key` order, with the records inside a
      window as the snapshot format returns them. */
  lemma StitchedRange(read: JournalReader, load: Loader, s: Schema, ws: seq<WindowInfo>, journal: seq<Record>, from: int, to: int)
    requires Sound(read, load, s, ws, journal) && Disjoint(ws) && DistinctKeys(journal)
    ensures var pieces := Stitched(read, load, ws, from, to);
            pieces.Ok? && SortRecords(pieces.value) == Project(Span(journal, from, to), Shown(s, ws))
  {
    var content := ContentOf(Shown(s, ws), journal);
    SourcesOf(read, load, s, ws, journal);
    ContentIsAdditive(Shown(s, ws), journal);
    if ws == [] {
      assert Yields(read(from, to), content(from, to));
    } else {
      StitchYields(read, load, ws, content, 0, from, to, from);
    }
    var some := Filter(journal, KnownIn(from, to));
    forall r | r in some ensures r in journal { FilterMember(journal, KnownIn(from, to), r); }
    DistinctAmong(some, journal);
    ShownKeepsKeys(s, ws);
    SortProjected(some, Stitched(read, load, ws, from, to).value, Shown(s, ws));
  }

  /** `read_range` over a store's files, as a range asks for it. */
  ghost function FromFiles(c: Journal.Codec, files: Files, dataset: string): JournalReader {
    (lo: int, hi: int) =>
      match ReadSpan(c, files, dataset, lo, hi)
      case Err(_) => Err(BadJournal)
      case Ok(rs) => Ok(rs)
  }

  class StoreReader {
    const codec: Journal.Codec
    const disk: Disk
    const dataset: string
    const load: Loader
    const schema: Schema
    const windows: seq<WindowInfo>
    const policy: Policy

    constructor (codec: Journal.Codec, disk: Disk, dataset: string, load: Loader, schema: Schema, windows: seq<WindowInfo>, policy: Policy)
      ensures this.codec == codec && this.disk == disk && this.dataset == dataset && this.load == load
      ensures this.schema == schema && this.windows == windows && this.policy == policy
    {
      this.codec, this.disk, this.dataset := codec, disk, dataset;
      this.load, this.schema, this.windows, this.policy := load, schema, windows, policy;
    }

    /** The dataset's journal as its files now stand. */
    ghost function Read(): JournalReader
      reads disk
    {
      FromFiles(codec, disk.files, dataset)
    }

    method ReadJournal(lo: int, hi: int) returns (r: Result<seq<Record>, RangeError>)
      ensures r == Read()(lo, hi)
    {
      var got := ReadRange(codec, disk.files, dataset, lo, hi, []);
      return if got.Err? then Err(BadJournal) else Ok(got.value);
    }

    /** The loop of `range`: everything the range shows, in the order it is met. */
    method Gather(from: int, to: int) returns (r: Result<seq<Record>, RangeError>)
      ensures r == Stitched(Read(), load, windows, from, to)
    {
      if windows == [] {
        r := ReadJournal(from, to);
        return;
      }
      ghost var read := Read();
      ghost var all := StitchFrom(read, load, windows, 0, from, to, from);
      var out: seq<Record> := [];
      var cursor := from;
      JoinedNested([], [], all);
      for i := 0 to |windows|
        invariant all == Joined(Ok(out), StitchFrom(read, load, windows, i, from, to, cursor))
      {
        var w := windows[i];
        if w.toMs < from || w.fromMs > to { continue; }
        var piece: seq<Record> := [];
        if cursor < w.fromMs {
          var gap := ReadJournal(cursor, w.fromMs - 1);
          if gap.Err? { return gap; }
          piece := gap.value;
        }
        var decoded := load(w);
        if decoded.Err? { return decoded; }
        piece := piece + Filter(decoded.value, KnownIn(from, to));
        assert Piece(read, load, w, from, to, cursor) == Ok(piece);
        cursor := if cursor > w.toMs + 1 then cursor else w.toMs + 1;
        if cursor > to { return Ok(out + piece); }
        JoinedNested(out, piece, StitchFrom(read, load, windows, i + 1, from, to, cursor));
        out := out + piece;
      }
      if cursor <= to {
        var rest := ReadJournal(cursor, to);
        if rest.Err? { return rest; }
        out := out + rest.value;
      } else {
        assert out + [] == out;
      }
      return Ok(out);
    }

    /** `range`: each record of the interval once, in `sort_key` order; refused when a source it
        needs is. */
    method Range(from: int, to: int) returns (r: Result<seq<Record>, RangeError>)
      ensures var pieces := Stitched(Read(), load, windows, from, to);
              r == if pieces.Ok? then Ok(SortRecords(pieces.value)) else pieces
      ensures forall journal :: Sound(Read(), load, schema, windows, journal) && Disjoint(windows) && DistinctKeys(journal) ==>
                r == Ok(Project(Span(journal, from, to), Shown(schema, windows)))
    {
      var pieces := Gather(from, to);
      forall journal | Sound(Read(), load, schema, windows, journal) && Disjoint(windows) && DistinctKeys(journal)
        ensures pieces.Ok? && SortRecords(pieces.value) == Project(Span(journal, from, to), Shown(schema, windows))
      {
        StitchedRange(Read(), load, schema, windows, journal, from, to);
      }
      if pieces.Err? { return pieces; }
      return Ok(SortRecords(pieces.value));
    }

    method Seen(scope: string, t: int) returns (r: Result<seq<Record>, RangeError>)
      ensures var all := Read()(MIN_TIMESTAMP_MS, t); r == if all.Err? then all else Ok(Filter(all.value, Visible(policy, scope, t)))
    {
      var candidates := ReadJournal(MIN_TIMESTAMP_MS, t);
      if candidates.Err? { return candidates; }
      var out: seq<Record> := [];
      for i := 0 to |candidates.value|
        invariant out == Filter(candidates.value[..i], Visible(policy, scope, t))
      {
        var record := candidates.value[i];
        assert candidates.value[..i + 1] == candidates.value[..i] + [record];
        FilterSnoc(candidates.value[..i], record, Visible(policy, scope, t));
        if record.scope != scope { continue; }
        if policy.refuseDerived && record.availability.Derived? { continue; }
        if record.knownAt + policy.minLag > t { continue; }
        out := out + [record];
      }
      assert candidates.value[..|candidates.value|] == candidates.value;
      return Ok(out);
    }

    /** `as_of`: the newest visible record of every key; refused when the journal cannot be read. */
    method AnswerAt(scope: string, t: int) returns (r: Result<Answer, RangeError>)
      ensures r.Ok? <==> Read()(MIN_TIMESTAMP_MS, t).Ok?
      ensures forall journal :: Read()(MIN_TIMESTAMP_MS, t) == Ok(Span(journal, MIN_TIMESTAMP_MS, t)) ==>
                r == Ok(AsOf(policy, journal, scope, t))
    {
      var visible := Seen(scope, t);
      if visible.Err? { return Err(visible.error); }
      var latest: Answer := map[];
      for i := 0 to |visible.value|
        invariant latest == NewestOf(visible.value[..i])
      {
        var record := visible.value[i];
        assert visible.value[..i + 1][..i] == visible.value[..i];
        if record.key !in latest || Newer(record, latest[record.key]) {
          latest := latest[record.key := record];
        }
      }
      assert visible.value[..|visible.value|] == visible.value;
      return Ok(latest);
    }
  }
}
