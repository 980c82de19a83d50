/** The compiler as it runs (hub/compiler.py): one store root, its snapshot files and its manifest.

    Every method is proved against `Compiler` and `Incremental`, whose theorems say what the result
    means.  `journal` is the ghost list of the records the dataset's files hold. */
module Compilation {
  import opened Wrappers
  import opened Ordering
  import opened Records
  import opened Agreement
  import opened Snapshot
  import opened Journal
  import opened Calendar
  import opened Ranges
  import opened Compiler
  import opened Incremental
  import Codec

  /** The months of some day files: `_discover_windows`. */
  ghost predicate Discovered(files: Files, dataset: string, months: seq<nat>) {
    && StrictlyAscending(months)
    && forall m :: m in months <==> exists d :: Path(dataset, d) in files && MonthOf(d * DAY_MS) == m
  }

  lemma SameDiscovery(files: Files, dataset: string, a: seq<nat>, b: seq<nat>)
    requires Discovered(files, dataset, a) && Discovered(files, dataset, b)
    ensures a == b
  {
    AscendingPrefix(a, b);
    AscendingPrefix(b, a);
  }

  /** The months that have at least one day file of the dataset. */
  ghost function MonthsOf(files: Files, dataset: string): (months: seq<nat>)
    ensures Discovered(files, dataset, months)
  {
    var found := set p | p in files && p.dataset == dataset :: MonthOf(p.day * DAY_MS) as int;
    AscendingListExists(found);
    var ms :| Ascends(ms) && forall m :: m in ms <==> m in found;
    var months := Naturals(ms);
    assert forall d :: Path(dataset, d) in files ==> MonthOf(Path(dataset, d).day * DAY_MS) in found;
    ListedMonths(files, dataset, ms, months);
    months
  }

  function Naturals(ms: seq<int>): (ns: seq<nat>)
    requires forall m :: m in ms ==> 0 <= m
    ensures |ns| == |ms| && forall i :: 0 <= i < |ms| ==> ns[i] == ms[i]
  {
    if ms == [] then []
    else
      assert ms[0] in ms && forall m :: m in ms[1..] ==> m in ms;
      var first: nat := ms[0];
      [first] + Naturals(ms[1..])
  }

  lemma ListedMonths(files: Files, dataset: string, ms: seq<int>, months: seq<nat>)
    requires Ascends(ms) && |months| == |ms| && forall i :: 0 <= i < |ms| ==> months[i] == ms[i]
    requires forall m :: m in ms <==> exists d :: Path(dataset, d) in files && MonthOf(d * DAY_MS) == m
    ensures Discovered(files, dataset, months)
  {
    forall m: nat ensures m in months <==> exists d :: Path(dataset, d) in files && MonthOf(d * DAY_MS) == m {
      assert m in months <==> m in ms;
    }
  }

  /** The discovered months cover the journal. */
  lemma DiscoveredCovers(c: Journal.Codec, files: Files, dataset: string, journal: seq<Record>, months: seq<nat>)
    requires Holds(c, files, dataset, journal) && TimesOk(journal) && Discovered(files, dataset, months)
    ensures Covers(months, journal)
  {
    forall r | r in journal ensures MonthOf(r.knownAt) in months {
      MonthOfDay(r.knownAt);
      assert PathOf(r) == Path(dataset, DayOf(r.knownAt));
    }
  }

  lemma {:induction false} MonthsFollowDays(d: int, e: int)
    requires d <= e
    ensures MonthOf(d * DAY_MS) <= MonthOf(e * DAY_MS)
  {
    if d >= 0 {
      MonthBounds(e * DAY_MS, MonthOf(d * DAY_MS));
    }
  }

  method DiscoverWindows(files: Files, dataset: string) returns (months: seq<nat>)
    ensures Discovered(files, dataset, months) && months == MonthsOf(files, dataset)
  {
    var days := ListDayFiles(files, dataset);
    months := [];
    for i := 0 to |days|
      invariant StrictlyAscending(months)
      invariant forall m :: m in months <==> exists j :: 0 <= j < i && MonthOf(days[j] * DAY_MS) == m
      invariant i == 0 ==> months == []
      invariant i > 0 ==> months != [] && months[|months| - 1] == MonthOf(days[i - 1] * DAY_MS)
    {
      var m := MonthOf(days[i] * DAY_MS);
      if i > 0 { MonthsFollowDays(days[i - 1], days[i]); }
      if months == [] || months[|months| - 1] != m { months := months + [m]; }
    }
    forall m ensures m in months <==> exists d :: Path(dataset, d) in files && MonthOf(d * DAY_MS) == m {
      if d :| Path(dataset, d) in files && MonthOf(d * DAY_MS) == m {
        assert d in days;
        var j :| 0 <= j < |days| && days[j] == d;
      }
      if m in months {
        var j :| 0 <= j < |days| && MonthOf(days[j] * DAY_MS) == m;
        assert days[j] in days;
      }
    }
    SameDiscovery(files, dataset, months, MonthsOf(files, dataset));
  }

  // ---------------------------------------------------------------- reuse

  function Tally(counts: map<nat, nat>, m: nat): nat { if m in counts then counts[m] else 0 }

  method CountMonths(records: seq<Record>) returns (counts: map<nat, nat>)
    ensures forall m: nat :: Tally(counts, m) == |Filter(records, OfMonth(m))|
  {
    counts := map[];
    for i := 0 to |records|
      invariant forall m: nat :: Tally(counts, m) == |Filter(records[..i], OfMonth(m))|
    {
      var month := MonthOf(records[i].knownAt);
      var was := counts;
      counts := counts[month := Tally(counts, month) + 1];
      forall m: nat ensures Tally(counts, m) == |Filter(records[..i + 1], OfMonth(m))| {
        assert records[..i + 1] == records[..i] + [records[i]];
        FilterConcat(records[..i], [records[i]], OfMonth(m));
        assert Tally(was, m) == |Filter(records[..i], OfMonth(m))|;
      }
    }
    assert records[..|records|] == records;
  }

  /** The first month a record above `lastSeq` lands in. */
  method FirstChanged(records: seq<Record>, lastSeq: nat) returns (first: Option<nat>)
    ensures forall m: nat :: Untouched(records, lastSeq, m) <==> first.None? || m < first.value
  {
    first := None;
    for i := 0 to |records|
      invariant forall m: nat :: Untouched(records[..i], lastSeq, m) <==> first.None? || m < first.value
    {
      var r := records[i];
      var was := first;
      if r.seqNo > lastSeq && (first.None? || MonthOf(r.knownAt) < first.value) { first := Some(MonthOf(r.knownAt)); }
      var seen := records[..i + 1];
      assert seen == records[..i] + [r];
      forall m: nat ensures Untouched(seen, lastSeq, m) <==> first.None? || m < first.value {
        assert Untouched(records[..i], lastSeq, m) <==> was.None? || m < was.value;
        UntouchedSnoc(records[..i], r, lastSeq, m);
      }
    }
    assert records[..|records|] == records;
  }

  lemma UntouchedSnoc(records: seq<Record>, r: Record, lastSeq: nat, m: nat)
    ensures Untouched(records + [r], lastSeq, m) <==>
            Untouched(records, lastSeq, m) && (r.seqNo > lastSeq ==> m < MonthOf(r.knownAt))
  {
    if Untouched(records + [r], lastSeq, m) {
      assert r in records + [r];
      forall q | q in records && q.seqNo > lastSeq ensures m < MonthOf(q.knownAt) { assert q in records + [r]; }
    }
  }

  method HighestSeq(records: seq<Record>) returns (top: nat)
    ensures top == TopSeq(records)
  {
    top := 0;
    for i := 0 to |records|
      invariant top == TopSeq(records[..i])
    {
      assert records[..i + 1][..i] == records[..i];
      if records[i].seqNo > top { top := records[i].seqNo; }
    }
    assert records[..|records|] == records;
  }

  method LatestKnown(records: seq<Record>) returns (t: Option<int>)
    ensures t == Latest(records)
  {
    t := None;
    for i := 0 to |records|
      invariant t == Latest(records[..i])
    {
      assert records[..i + 1][..i] == records[..i];
      if t.None? || records[i].knownAt > t.value { t := Some(records[i].knownAt); }
    }
    assert records[..|records|] == records;
  }

  /** `_unchanged_windows`. */
  method UnchangedWindows(k: Kit, previous: Option<Manifest>, records: seq<Record>, months: seq<nat>, snaps: Snapshots)
    returns (kept: map<nat, Entry>)
    ensures kept == Unchanged(k, previous, records, months, snaps)
  {
    if previous.None? || previous.value.schemaHash != k.fmt.schemaHash { return map[]; }
    var top := HighestSeq(records);
    if top < previous.value.lastSeq { return map[]; }
    var first := FirstChanged(records, previous.value.lastSeq);
    var counts := CountMonths(records);
    var windows := previous.value.windows;
    kept := map[];
    for i := 0 to |windows|
      invariant kept == KeptOf(Keeper(previous.value, records, months, snaps), windows[..i])
    {
      var e := windows[i];
      assert windows[..i + 1][..i] == windows[..i];
      if e.month in months && (first.None? || e.month < first.value) && Tally(counts, e.month) == e.records && e.file in snaps {
        assert Keepable(previous.value, records, months, snaps, e);
        kept := kept[e.month := e];
      } else {
        assert !Keepable(previous.value, records, months, snaps, e);
      }
    }
    assert windows[..|windows|] == windows;
  }

  // ---------------------------------------------------------------- the store root

  lemma {:induction false} RefusalEnds(write: nat -> Result<Window, CompileError>, ms: seq<nat>, i: nat)
    requires i <= |ms| && WriteEach(write, ms[..i]).error.Some?
    ensures WriteEach(write, ms) == WriteEach(write, ms[..i])
    decreases |ms| - i
  {
    if i == |ms| {
      assert ms[..i] == ms;
    } else {
      assert ms[..i + 1][..i] == ms[..i];
      RefusalEnds(write, ms, i + 1);
    }
  }

  lemma PlaceSnoc(k: Kit, snaps: Snapshots, ws: seq<Window>, w: Window)
    ensures Place(k, snaps, ws + [w]) == Place(k, snaps, ws)[FileOf(k, w.month) := w.data]
  {
    assert (ws + [w])[..|ws|] == ws;
  }

  /** How far a compile of several datasets has got. */
  datatype Progress = Progress(manifest: map<string, Manifest>, snaps: Snapshots, error: Option<CompileError>)

  function EntryFor(manifest: map<string, Manifest>, dataset: string): Option<Manifest> {
    if dataset in manifest then Some(manifest[dataset]) else None
  }

  function JournalOf(journals: map<string, seq<Record>>, dataset: string): seq<Record> {
    if dataset in journals then journals[dataset] else []
  }

  /** Some day file a compile must read holds a malformed line. */
  ghost predicate Broken(c: Journal.Codec, files: Files, dataset: string, from: int, to: int) {
    exists p :: p in files && p.dataset == dataset && DayIn(p.day, from, to) && ReadDayFile(c, files[p]).Err?
  }

  ghost predicate Torn(c: Journal.Codec, files: Files, dataset: string) {
    Broken(c, files, dataset, MIN_TIMESTAMP_MS, MAX_TIMESTAMP_MS)
  }

  /** The files of every dataset of a registry hold its journal, unless they cannot be read. */
  ghost predicate AllHeld(c: Journal.Codec, files: Files, kits: seq<Kit>, journals: map<string, seq<Record>>) {
    forall k :: k in kits ==> KitOk(k) && Held(c, files, k.hub.schema.name, JournalOf(journals, k.hub.schema.name))
  }

  ghost predicate Held(c: Journal.Codec, files: Files, dataset: string, journal: seq<Record>) {
    Torn(c, files, dataset) || (Holds(c, files, dataset, journal) && DistinctKeys(journal) && TimesOk(journal))
  }

  /** `compile_all`, dataset by dataset, until one fails. */
  ghost function CompileEach(c: Journal.Codec, kits: seq<Kit>, files: Files, journals: map<string, seq<Record>>, start: Progress): Progress
    requires forall k :: k in kits ==> KitOk(k)
  {
    if kits == [] then start
    else
      var init := CompileEach(c, kits[..|kits| - 1], files, journals, start);
      if init.error.Some? then init
      else CompileNext(c, kits[|kits| - 1], files, JournalOf(journals, kits[|kits| - 1].hub.schema.name), init)
  }

  ghost function CompileNext(c: Journal.Codec, k: Kit, files: Files, journal: seq<Record>, p: Progress): Progress
    requires KitOk(k)
  {
    var name := k.hub.schema.name;
    if Torn(c, files, name) then p.(error := Some(Unreadable))
    else
      var (site, error) := CompileStep(k, journal, MonthsOf(files, name), Site(EntryFor(p.manifest, name), p.snaps));
      Progress(if error.None? && site.manifest.Some? then p.manifest[name := site.manifest.value] else p.manifest, site.snaps, error)
  }

  /** One more dataset. */
  lemma CompileEachSnoc(c: Journal.Codec, kits: seq<Kit>, files: Files, journals: map<string, seq<Record>>, start: Progress, i: nat)
    requires forall k :: k in kits ==> KitOk(k)
    requires i < |kits| && CompileEach(c, kits[..i], files, journals, start).error.None?
    ensures CompileEach(c, kits[..i + 1], files, journals, start) ==
            CompileNext(c, kits[i], files, JournalOf(journals, kits[i].hub.schema.name), CompileEach(c, kits[..i], files, journals, start))
  {
    assert kits[..i + 1][..i] == kits[..i];
  }

  /** Writing windows never finds the journal unreadable. */
  lemma {:induction false} WritingReadsNothing(k: Kit, history: seq<Record>, ms: seq<nat>)
    requires KitOk(k)
    ensures WriteEach(Writer(k, history), ms).error != Some(Unreadable)
  {
    if ms == [] {
    } else {
      WritingReadsNothing(k, history, ms[..|ms| - 1]);
    }
  }

  class HubRoot {
    const codec: Journal.Codec
    const disk: Disk
    var manifest: map<string, Manifest>
    var snaps: Snapshots

    constructor (codec: Journal.Codec, disk: Disk)
      ensures this.codec == codec && this.disk == disk && manifest == map[] && snaps == map[]
    {
      this.codec, this.disk := codec, disk;
      manifest, snaps := map[], map[];
    }

    /** `_write_window`: encode one month and put the file in place. */
    method WriteFile(k: Kit, history: seq<Record>, m: nat) returns (r: Result<Window, CompileError>)
      requires KitOk(k)
      modifies this`snaps
      ensures r == Writer(k, history)(m)
      ensures snaps == if r.Ok? then old(snaps)[FileOf(k, r.value.month) := r.value.data] else old(snaps)
    {
      var rs := SortRecords(Filter(history, InMonth(m)));
      var data := Codec.EncodeSnapshot(k.fmt, k.hub.schema, rs);
      if data.None? { return Err(Unencodable); }
      snaps := snaps[FileOf(k, m) := data.value];
      return Ok(Window(m, data.value, k.fmt.sha(data.value), |rs|, Dictionary(RawRefs(rs))));
    }

    /** `compile_dataset`. */
    method CompileDataset(k: Kit, m: nat, ghost journal: seq<Record>) returns (r: Result<Window, CompileError>)
      requires KitOk(k)
      modifies this`snaps
      ensures Holds(codec, disk.files, k.hub.schema.name, journal) && DistinctKeys(journal) ==> r == OwnCompile(k, journal)(m)
      ensures r == Err(Unreadable) <==> Broken(codec, disk.files, k.hub.schema.name, MIN_TIMESTAMP_MS, MonthEnd(m))
      ensures snaps == if r.Ok? then old(snaps)[FileOf(k, r.value.month) := r.value.data] else old(snaps)
    {
      var history := ReadRange(codec, disk.files, k.hub.schema.name, MIN_TIMESTAMP_MS, MonthEnd(m), journal);
      if history.Err? { return Err(Unreadable); }
      var ok := VerifyDerivedFields(k.hub, history.value);
      if !ok { return Err(Mismatch); }
      r := WriteFile(k, history.value, m);
    }

    /** `compile_windows`: one read, one verification, then every window. */
    method CompileWindows(k: Kit, ms: seq<nat>, ghost journal: seq<Record>) returns (pass: Batch)
      requires KitOk(k)
      modifies this`snaps
      ensures Holds(codec, disk.files, k.hub.schema.name, journal) && DistinctKeys(journal) ==> pass == CompileMany(k, journal, ms)
      ensures pass.error == Some(Unreadable) <==>
              ms != [] && Broken(codec, disk.files, k.hub.schema.name, ReadFrom(k, ms), MonthEnd(Greatest(ms)))
      ensures snaps == Place(k, old(snaps), pass.windows)
    {
      if ms == [] { return Batch([], None); }
      var history := ReadRange(codec, disk.files, k.hub.schema.name, ReadFrom(k, ms), MonthEnd(Greatest(ms)), journal);
      if history.Err? { return Batch([], Some(Unreadable)); }
      var ok := VerifyDerivedFields(k.hub, history.value);
      if !ok { return Batch([], Some(Mismatch)); }
      pass := WriteFiles(k, history.value, ms);
      WritingReadsNothing(k, history.value, ms);
    }

    method WriteFiles(k: Kit, history: seq<Record>, ms: seq<nat>) returns (pass: Batch)
      requires KitOk(k)
      modifies this`snaps
      ensures pass == WriteEach(Writer(k, history), ms) && snaps == Place(k, old(snaps), pass.windows)
    {
      pass := Batch([], None);
      for i := 0 to |ms|
        invariant pass == WriteEach(Writer(k, history), ms[..i]) && pass.error.None?
        invariant snaps == Place(k, old(snaps), pass.windows)
      {
        assert ms[..i + 1][..i] == ms[..i];
        var w := WriteFile(k, history, ms[i]);
        if w.Err? {
          RefusalEnds(Writer(k, history), ms, i + 1);
          return Batch(pass.windows, Some(w.error));
        }
        PlaceSnoc(k, old(snaps), pass.windows, w.value);
        pass := Batch(pass.windows + [w.value], None);
      }
      assert ms[..|ms|] == ms;
    }

    /** One dataset of `compile_all`. */
    method CompileOneDataset(k: Kit, months: seq<nat>, previous: Option<Manifest>, ghost journal: seq<Record>)
      returns (entry: Option<Manifest>, error: Option<CompileError>)
      requires KitOk(k) && Held(codec, disk.files, k.hub.schema.name, journal)
      requires Discovered(disk.files, k.hub.schema.name, months)
      modifies this`snaps
      ensures if Torn(codec, disk.files, k.hub.schema.name)
              then entry == previous && error == Some(Unreadable) && snaps == old(snaps)
              else CompileStep(k, journal, months, Site(previous, old(snaps))) == (Site(entry, snaps), error)
    {
      if months == [] {
        NoFilesNothingTorn(codec, disk.files, k.hub.schema.name);
        return previous, None;
      }
      var records := ReadRange(codec, disk.files, k.hub.schema.name, MIN_TIMESTAMP_MS, MAX_TIMESTAMP_MS, journal);
      if records.Err? { return previous, Some(Unreadable); }
      var kept := UnchangedWindows(k, previous, records.value, months, snaps);
      var top := HighestSeq(records.value);
      var latest := LatestKnown(records.value);
      var pass := CompileWindows(k, Todo(months, kept), journal);
      if pass.error.Some? { return previous, pass.error; }
      var entries := MergeEntries(k, months, kept, pass.windows);
      return Some(Manifest(k.fmt.schemaHash, top, latest, entries)), None;
    }

    method CompileAll(kits: seq<Kit>, ghost journals: map<string, seq<Record>>)
      returns (error: Option<CompileError>)
      requires AllHeld(codec, disk.files, kits, journals)
      modifies this`snaps, this`manifest
      ensures var p := CompileEach(codec, kits, disk.files, journals, Progress(old(manifest), old(snaps), None));
              error == p.error && snaps == p.snaps && manifest == if p.error.None? then p.manifest else old(manifest)
    {
      var draft := manifest;
      error := None;
      ghost var start := Progress(manifest, snaps, None);
      for i := 0 to |kits|
        invariant manifest == old(manifest)
        invariant CompileEach(codec, kits[..i], disk.files, journals, start) == Progress(draft, snaps, None)
      {
        var k := kits[i];
        var name := k.hub.schema.name;
        assert k in kits;
        CompileEachSnoc(codec, kits, disk.files, journals, start, i);
        var found := DiscoverWindows(disk.files, name);
        var entry, refused := CompileOneDataset(k, found, EntryFor(draft, name), JournalOf(journals, name));
        if refused.Some? {
          error := refused;
          CompileStops(codec, kits, disk.files, journals, start, i + 1);
          return;
        }
        if entry.Some? { draft := draft[name := entry.value]; }
      }
      assert kits[..|kits|] == kits;
      manifest := draft;
    }
  }

  lemma FilesHaveMonths(files: Files, dataset: string, months: seq<nat>)
    requires Discovered(files, dataset, months)
    ensures forall p :: p in files && p.dataset == dataset ==> MonthOf(p.day * DAY_MS) in months
  {
    forall p | p in files && p.dataset == dataset ensures MonthOf(p.day * DAY_MS) in months {
      assert p == Path(dataset, p.day);
    }
  }

  lemma NoFilesNothingTorn(c: Journal.Codec, files: Files, dataset: string)
    requires Discovered(files, dataset, [])
    ensures !Torn(c, files, dataset)
  {
    FilesHaveMonths(files, dataset, []);
  }

  method MergeEntries(k: Kit, months: seq<nat>, kept: map<nat, Entry>, ws: seq<Window>) returns (entries: seq<Entry>)
    ensures entries == Merged(months, kept, Compiled(k, ws))
  {
    var compiled: map<nat, Entry> := map[];
    for i := 0 to |ws|
      invariant compiled == Compiled(k, ws[..i])
    {
      assert ws[..i + 1][..i] == ws[..i];
      compiled := compiled[ws[i].month := EntryOf(k, ws[i])];
    }
    assert ws[..|ws|] == ws;
    entries := [];
    for i := 0 to |months|
      invariant entries == Merged(months[..i], kept, compiled)
    {
      assert months[..i + 1][..i] == months[..i];
      var m := months[i];
      if m in kept { entries := entries + [kept[m]]; }
      else if m in compiled { entries := entries + [compiled[m]]; }
    }
    assert months[..|months|] == months;
  }

  lemma StopsOnce(c: Journal.Codec, kits: seq<Kit>, files: Files, journals: map<string, seq<Record>>, start: Progress, i: nat)
    requires forall k :: k in kits ==> KitOk(k)
    requires i < |kits| && CompileEach(c, kits[..i], files, journals, start).error.Some?
    ensures CompileEach(c, kits[..i + 1], files, journals, start) == CompileEach(c, kits[..i], files, journals, start)
  {
    assert kits[..i + 1][..i] == kits[..i];
  }

  lemma {:induction false} CompileStops(c: Journal.Codec, kits: seq<Kit>, files: Files, journals: map<string, seq<Record>>, start: Progress, i: nat)
    requires forall k :: k in kits ==> KitOk(k)
    requires i <= |kits| && CompileEach(c, kits[..i], files, journals, start).error.Some?
    ensures CompileEach(c, kits, files, journals, start) == CompileEach(c, kits[..i], files, journals, start)
    decreases |kits| - i
  {
    if i == |kits| {
      assert kits[..i] == kits;
    } else {
      StopsOnce(c, kits, files, journals, start, i);
      CompileStops(c, kits, files, journals, start, i + 1);
    }
  }
}
