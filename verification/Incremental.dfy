/** Compiling again only what changed (hub/compiler.py, `compile_all` and `_unchanged_windows`).

    A compile keeps the manifest entries of the months no new record touched.  Over any run of
    appends, backfills into old months included, the manifest it writes is the one a compile from
    scratch would write. */
module Incremental {
  import opened Wrappers
  import opened Ordering
  import opened Records
  import opened Protocol
  import opened Bytes
  import opened Calendar
  import opened Ranges
  import opened Compiler

  datatype SnapPath = SnapPath(dataset: string, tag: Buffer, month: nat)

  type Snapshots = map<SnapPath, Buffer>

  datatype Entry = Entry(month: nat, file: SnapPath, sha: Buffer, records: nat, rawDeps: seq<string>)

  datatype Manifest = Manifest(schemaHash: Buffer, lastSeq: nat, lastKnownAt: Option<int>, windows: seq<Entry>)

  /** The first eight hex digits of the schema hash name the directory. */
  function Tag(k: Kit): Buffer {
    if |k.fmt.schemaHash| < 4 then k.fmt.schemaHash else k.fmt.schemaHash[..4]
  }

  function FileOf(k: Kit, m: nat): SnapPath { SnapPath(k.hub.schema.name, Tag(k), m) }

  function EntryOf(k: Kit, w: Window): Entry { Entry(w.month, FileOf(k, w.month), w.sha, w.records, w.rawDeps) }

  // ---------------------------------------------------------------- what can be kept

  function TopSeq(rs: seq<Record>): nat {
    if rs == [] then 0
    else
      var top := TopSeq(rs[..|rs| - 1]);
      if rs[|rs| - 1].seqNo > top then rs[|rs| - 1].seqNo else top
  }

  function Latest(rs: seq<Record>): Option<int> {
    if rs == [] then None
    else
      var t := Latest(rs[..|rs| - 1]);
      if t.None? || rs[|rs| - 1].knownAt > t.value then Some(rs[|rs| - 1].knownAt) else t
  }

  function OfMonth(m: nat): Record -> bool { (r: Record) => MonthOf(r.knownAt) == m }

  /** No record above `lastSeq` lands in month `m` or before it. */
  predicate Untouched(records: seq<Record>, lastSeq: nat, m: nat) {
    forall r :: r in records && r.seqNo > lastSeq ==> m < MonthOf(r.knownAt)
  }

  predicate Keepable(previous: Manifest, records: seq<Record>, months: seq<nat>, snaps: Snapshots, e: Entry) {
    && e.month in months
    && Untouched(records, previous.lastSeq, e.month)
    && |Filter(records, OfMonth(e.month))| == e.records
    && e.file in snaps
  }

  function KeptOf(keep: Entry -> bool, es: seq<Entry>): map<nat, Entry> {
    if es == [] then map[]
    else
      var init := KeptOf(keep, es[..|es| - 1]);
      var e := es[|es| - 1];
      if keep(e) then init[e.month := e] else init
  }

  function Keeper(previous: Manifest, records: seq<Record>, months: seq<nat>, snaps: Snapshots): Entry -> bool {
    (e: Entry) => Keepable(previous, records, months, snaps, e)
  }

  /** `_unchanged_windows`. */
  function Unchanged(k: Kit, previous: Option<Manifest>, records: seq<Record>, months: seq<nat>, snaps: Snapshots): map<nat, Entry> {
    if previous.None? || previous.value.schemaHash != k.fmt.schemaHash then map[]
    else if TopSeq(records) < previous.value.lastSeq then map[]
    else KeptOf(Keeper(previous.value, records, months, snaps), previous.value.windows)
  }

  lemma {:induction false} KeptIsKept(keep: Entry -> bool, es: seq<Entry>, m: nat)
    ensures m in KeptOf(keep, es) <==> exists e :: e in es && e.month == m && keep(e)
    ensures m in KeptOf(keep, es) ==>
              KeptOf(keep, es)[m] in es && KeptOf(keep, es)[m].month == m && keep(KeptOf(keep, es)[m])
  {
    if es == [] {
    } else {
      KeptIsKept(keep, es[..|es| - 1], m);
      assert es == es[..|es| - 1] + [es[|es| - 1]];
    }
  }

  // ---------------------------------------------------------------- one dataset's compile

  datatype Site = Site(manifest: Option<Manifest>, snaps: Snapshots)

  function Place(k: Kit, snaps: Snapshots, ws: seq<Window>): Snapshots {
    if ws == [] then snaps
    else Place(k, snaps, ws[..|ws| - 1])[FileOf(k, ws[|ws| - 1].month) := ws[|ws| - 1].data]
  }

  function NotIn(kept: map<nat, Entry>): nat -> bool { (m: nat) => m !in kept }

  function Todo(months: seq<nat>, kept: map<nat, Entry>): seq<nat> { Filter(months, NotIn(kept)) }

  /** The compiled windows as manifest entries, by month. */
  function Compiled(k: Kit, ws: seq<Window>): map<nat, Entry> {
    if ws == [] then map[]
    else Compiled(k, ws[..|ws| - 1])[ws[|ws| - 1].month := EntryOf(k, ws[|ws| - 1])]
  }

  /** A kept entry where there is one, else the compiled one. */
  function Merged(months: seq<nat>, kept: map<nat, Entry>, compiled: map<nat, Entry>): seq<Entry> {
    if months == [] then []
    else
      var m := months[|months| - 1];
      Merged(months[..|months| - 1], kept, compiled) +
      (if m in kept then [kept[m]] else if m in compiled then [compiled[m]] else [])
  }

  /** What `compile_all` does to one dataset: its new manifest entry and snapshot files, or the
      files alone and the failure. */
  ghost function CompileStep(k: Kit, journal: seq<Record>, months: seq<nat>, site: Site): (Site, Option<CompileError>)
    requires KitOk(k)
  {
    if months == [] then (site, None)
    else
      var records := Span(journal, MIN_TIMESTAMP_MS, MAX_TIMESTAMP_MS);
      var kept := Unchanged(k, site.manifest, records, months, site.snaps);
      var pass := CompileMany(k, journal, Todo(months, kept));
      var snaps := Place(k, site.snaps, pass.windows);
      if pass.error.Some? then (site.(snaps := snaps), pass.error)
      else (Site(Some(Manifest(k.fmt.schemaHash, TopSeq(records), Latest(records),
                               Merged(months, kept, Compiled(k, pass.windows)))), snaps), None)
  }

  // ---------------------------------------------------------------- entries that are current

  ghost predicate IsEntry(k: Kit, one: nat -> Result<Window, CompileError>, e: Entry) {
    one(e.month).Ok? && e == EntryOf(k, one(e.month).value)
  }

  ghost predicate Stored(one: nat -> Result<Window, CompileError>, snaps: Snapshots, e: Entry) {
    one(e.month).Ok? && e.file in snaps && snaps[e.file] == one(e.month).value.data
  }

  /** `one` calls each of its windows by the month asked for. */
  ghost predicate Named(one: nat -> Result<Window, CompileError>) {
    forall m :: one(m).Ok? ==> one(m).value.month == m
  }

  lemma OwnCompileIsNamed(k: Kit, journal: seq<Record>)
    requires KitOk(k)
    ensures Named(OwnCompile(k, journal))
  {
    forall m: nat | OwnCompile(k, journal)(m).Ok?
      ensures OwnCompile(k, journal)(m).value.month == m
    {
      CompileOneBy(k, journal, m);
    }
  }

  ghost predicate StrictlyAscending(ms: seq<nat>) { forall i, j :: 0 <= i < j < |ms| ==> ms[i] < ms[j] }

  /** Placing windows stores each of them and disturbs no other file. */
  lemma {:induction false} PlaceStores(k: Kit, snaps: Snapshots, ms: seq<nat>, ws: seq<Window>)
    requires StrictlyAscending(ms) && |ws| <= |ms|
    requires forall i :: 0 <= i < |ws| ==> ws[i].month == ms[i]
    ensures var after := Place(k, snaps, ws);
            && (forall i :: 0 <= i < |ws| ==> FileOf(k, ms[i]) in after && after[FileOf(k, ms[i])] == ws[i].data)
            && (forall p :: p in snaps ==> p in after)
            && (forall p :: p in after && (forall i :: 0 <= i < |ws| ==> p != FileOf(k, ms[i])) ==> p in snaps && after[p] == snaps[p])
  {
    if ws != [] { PlaceStores(k, snaps, ms, ws[..|ws| - 1]); }
  }

  lemma {:induction false} CompiledAre(k: Kit, ms: seq<nat>, ws: seq<Window>)
    requires StrictlyAscending(ms) && |ws| <= |ms|
    requires forall i :: 0 <= i < |ws| ==> ws[i].month == ms[i]
    ensures forall i :: 0 <= i < |ws| ==> ms[i] in Compiled(k, ws) && Compiled(k, ws)[ms[i]] == EntryOf(k, ws[i])
  {
    if ws != [] { CompiledAre(k, ms, ws[..|ws| - 1]); }
  }

  lemma {:induction false} MergedAre(months: seq<nat>, kept: map<nat, Entry>, compiled: map<nat, Entry>)
    requires forall m :: m in months ==> m in kept || m in compiled
    ensures var es := Merged(months, kept, compiled);
            |es| == |months| && forall i :: 0 <= i < |months| ==>
              es[i] == if months[i] in kept then kept[months[i]] else compiled[months[i]]
  {
    if months != [] { MergedAre(months[..|months| - 1], kept, compiled); }
  }

  /** One entry per month, each the entry a compile of that month alone gives, its file holding
      that compile's bytes. */
  ghost predicate FromScratch(k: Kit, one: nat -> Result<Window, CompileError>, months: seq<nat>, windows: seq<Entry>, snaps: Snapshots) {
    && |windows| == |months|
    && forall i :: 0 <= i < |months| ==>
         windows[i].month == months[i] && IsEntry(k, one, windows[i]) && Stored(one, snaps, windows[i])
  }

  /** Every month compiled afresh has its entry and its file, and no other file has moved. */
  lemma CompiledIsStored(k: Kit, one: nat -> Result<Window, CompileError>, todo: seq<nat>, ws: seq<Window>, snaps: Snapshots)
    requires Named(one) && StrictlyAscending(todo) && |ws| == |todo|
    requires forall i :: 0 <= i < |ws| ==> one(todo[i]) == Ok(ws[i])
    ensures forall m :: m in todo ==>
      && m in Compiled(k, ws) && Compiled(k, ws)[m].month == m
      && IsEntry(k, one, Compiled(k, ws)[m]) && Stored(one, Place(k, snaps, ws), Compiled(k, ws)[m])
    ensures forall e: Entry :: e.month !in todo && IsEntry(k, one, e) && Stored(one, snaps, e) ==> Stored(one, Place(k, snaps, ws), e)
  {
    forall i | 0 <= i < |todo| ensures ws[i].month == todo[i] { assert one(todo[i]) == Ok(ws[i]); }
    PlaceStores(k, snaps, todo, ws);
    CompiledAre(k, todo, ws);
    forall m | m in todo
      ensures m in Compiled(k, ws) && Compiled(k, ws)[m].month == m
      ensures IsEntry(k, one, Compiled(k, ws)[m]) && Stored(one, Place(k, snaps, ws), Compiled(k, ws)[m])
    {
      var i :| 0 <= i < |todo| && todo[i] == m;
    }
  }

  /** Merging kept and compiled entries, when the kept ones are current. */
  lemma MergeIsScratch(k: Kit, one: nat -> Result<Window, CompileError>, months: seq<nat>, kept: map<nat, Entry>, pass: Batch, snaps: Snapshots)
    requires Named(one) && StrictlyAscending(months)
    requires forall m :: m in kept ==> kept[m].month == m && IsEntry(k, one, kept[m]) && Stored(one, snaps, kept[m])
    requires Pointwise(one, Todo(months, kept), pass)
    ensures pass.error.None? <==> forall m :: m in months ==> one(m).Ok?
    ensures pass.error.None? ==>
              FromScratch(k, one, months, Merged(months, kept, Compiled(k, pass.windows)), Place(k, snaps, pass.windows))
  {
    TodoIs(months, kept);
    assert forall m :: m in kept ==> one(m).Ok?;
    if pass.error.None? {
      CompiledIsStored(k, one, Todo(months, kept), pass.windows, snaps);
      MergedAre(months, kept, Compiled(k, pass.windows));
      forall i | 0 <= i < |months|
        ensures var e := Merged(months, kept, Compiled(k, pass.windows))[i];
                e.month == months[i] && IsEntry(k, one, e) && Stored(one, Place(k, snaps, pass.windows), e)
      {
        assert months[i] in months;
      }
    }
  }

  lemma TodoIs(months: seq<nat>, kept: map<nat, Entry>)
    requires StrictlyAscending(months)
    ensures StrictlyAscending(Todo(months, kept))
    ensures forall m :: m in Todo(months, kept) <==> m in months && m !in kept
  {
    FilterSorted(months, NotIn(kept), (a: nat, b: nat) => a < b);
    forall m ensures m in Todo(months, kept) <==> m in months && m !in kept { FilterMember(months, NotIn(kept), m); }
  }

  // ---------------------------------------------------------------- a dataset's life

  datatype World = World(journal: seq<Record>, site: Site)

  datatype Event =
    | Append(record: Record)
    | Compile(kit: Kit, months: seq<nat>, saved: bool)   // not saved: another dataset failed later
    | LoseFile(path: SnapPath)

  const EMPTY := World([], Site(None, map[]))

  /** The months of the dataset's day files: every record's month, and perhaps months whose files
      are empty. */
  ghost predicate Covers(months: seq<nat>, journal: seq<Record>) {
    StrictlyAscending(months) && forall r :: r in journal ==> MonthOf(r.knownAt) in months
  }

  ghost predicate Allowed(w: World, e: Event) {
    match e
    case Append(r) => r.seqNo == |w.journal| + 1 && TimestampOk(r.knownAt)
    case Compile(k, months, _) => KitOk(k) && Covers(months, w.journal)
    case LoseFile(_) => true
  }

  ghost function Advance(w: World, e: Event): World
    requires Allowed(w, e)
  {
    match e
    case Append(r) => w.(journal := w.journal + [r])
    case Compile(k, months, saved) =>
      var (site, error) := CompileStep(k, w.journal, months, w.site);
      w.(site := if error.None? && saved then site else w.site.(snaps := site.snaps))
    case LoseFile(p) => w.(site := w.site.(snaps := w.site.snaps - {p}))
  }

  ghost predicate IsRun(states: seq<World>, events: seq<Event>) {
    && |states| == |events| + 1 && states[0] == EMPTY
    && forall i :: 0 <= i < |events| ==> Allowed(states[i], events[i]) && states[i + 1] == Advance(states[i], events[i])
  }

  /** A run goes on by any event its last world allows. */
  lemma RunGoesOn(states: seq<World>, events: seq<Event>, e: Event, next: World)
    requires IsRun(states, events) && Allowed(states[|events|], e) && next == Advance(states[|events|], e)
    ensures IsRun(states + [next], events + [e])
  {
    var after, all := states + [next], events + [e];
    forall i | 0 <= i < |all| ensures Allowed(after[i], all[i]) && after[i + 1] == Advance(after[i], all[i]) {
      if i < |events| { assert Allowed(states[i], events[i]) && states[i + 1] == Advance(states[i], events[i]); }
    }
  }

  ghost function Kits(events: seq<Event>): iset<Kit> { iset e | e in events && e.Compile? :: e.kit }

  /** Schemas are told apart by the digits that name their directory. */
  ghost predicate KitsApart(kits: iset<Kit>) {
    forall a, b :: a in kits && b in kits && Tag(a) == Tag(b) ==> a == b
  }

  // ---------------------------------------------------------------- the invariant

  /** The entry a month's compile gave when the manifest was written; and, while nothing has landed
      in that month or before it, its file still holds those bytes. */
  ghost predicate EntryOk(k: Kit, w: World, lastSeq: nat, e: Entry)
    requires KitOk(k) && lastSeq <= |w.journal|
  {
    var one := OwnCompile(k, w.journal[..lastSeq]);
    && IsEntry(k, one, e)
    && (Untouched(w.journal, lastSeq, e.month) && e.file in w.site.snaps ==> w.site.snaps[e.file] == one(e.month).value.data)
  }

  ghost predicate ManifestOk(k: Kit, w: World, m: Manifest) {
    && KitOk(k) && k.fmt.schemaHash == m.schemaHash && m.lastSeq <= |w.journal|
    && forall e :: e in m.windows ==> EntryOk(k, w, m.lastSeq, e)
  }

  ghost predicate Inv(kits: iset<Kit>, w: World) {
    && Numbered(w.journal) && TimesOk(w.journal)
    && (w.site.manifest.Some? ==> exists k :: k in kits && ManifestOk(k, w, w.site.manifest.value))
  }

  /** Nothing appended since lands in a kept month, so a compile of it now is the compile of it
      then. */
  lemma UntouchedIsUnseen(k: Kit, journal: seq<Record>, lastSeq: nat, m: nat)
    requires KitOk(k) && Numbered(journal) && TimesOk(journal) && lastSeq <= |journal|
    requires Untouched(journal, lastSeq, m)
    ensures OwnCompile(k, journal)(m) == OwnCompile(k, journal[..lastSeq])(m)
  {
    var added := journal[lastSeq..];
    assert journal == journal[..lastSeq] + added;
    forall r | r in added ensures MonthEnd(m) < r.knownAt {
      var i :| 0 <= i < |added| && added[i] == r;
      assert journal[lastSeq + i] == r && r in journal && r.seqNo == lastSeq + i + 1;
      MonthBounds(r.knownAt, m + 1);
    }
    LaterAppendsUnseen(k, journal[..lastSeq], added, m);
  }

  lemma EverythingSpanned(journal: seq<Record>)
    requires TimesOk(journal)
    ensures forall r :: r in Span(journal, MIN_TIMESTAMP_MS, MAX_TIMESTAMP_MS) <==> r in journal
  {
    forall r ensures r in Span(journal, MIN_TIMESTAMP_MS, MAX_TIMESTAMP_MS) <==> r in journal {
      SpanMember(journal, MIN_TIMESTAMP_MS, MAX_TIMESTAMP_MS, r);
    }
  }

  lemma EntryIsCurrent(k: Kit, w: World, lastSeq: nat, e: Entry)
    requires KitOk(k) && Numbered(w.journal) && TimesOk(w.journal) && lastSeq <= |w.journal| && EntryOk(k, w, lastSeq, e)
    requires Untouched(w.journal, lastSeq, e.month) && e.file in w.site.snaps
    ensures IsEntry(k, OwnCompile(k, w.journal), e) && Stored(OwnCompile(k, w.journal), w.site.snaps, e)
  {
    UntouchedIsUnseen(k, w.journal, lastSeq, e.month);
  }

  /** What a kept entry was: an entry of the previous manifest, under this schema, untouched. */
  lemma KeptShape(k: Kit, journal: seq<Record>, site: Site, months: seq<nat>, m: nat)
    requires TimesOk(journal)
    requires m in Unchanged(k, site.manifest, Span(journal, MIN_TIMESTAMP_MS, MAX_TIMESTAMP_MS), months, site.snaps)
    ensures var e := Unchanged(k, site.manifest, Span(journal, MIN_TIMESTAMP_MS, MAX_TIMESTAMP_MS), months, site.snaps)[m];
            && site.manifest.Some? && site.manifest.value.schemaHash == k.fmt.schemaHash
            && e in site.manifest.value.windows && e.month == m && e.file in site.snaps
            && Untouched(journal, site.manifest.value.lastSeq, m)
  {
    var records := Span(journal, MIN_TIMESTAMP_MS, MAX_TIMESTAMP_MS);
    var previous := site.manifest.value;
    var keep := Keeper(previous, records, months, site.snaps);
    KeptIsKept(keep, previous.windows, m);
    var e := KeptOf(keep, previous.windows)[m];
    assert keep(e);
    EverythingSpanned(journal);
  }

  /** Every entry a compile keeps is the entry a compile of that month would give now. */
  lemma KeptAreCurrent(kits: iset<Kit>, k: Kit, w: World, months: seq<nat>, m: nat)
    requires Inv(kits, w) && KitsApart(kits) && k in kits && KitOk(k)
    requires m in Unchanged(k, w.site.manifest, Span(w.journal, MIN_TIMESTAMP_MS, MAX_TIMESTAMP_MS), months, w.site.snaps)
    ensures var e := Unchanged(k, w.site.manifest, Span(w.journal, MIN_TIMESTAMP_MS, MAX_TIMESTAMP_MS), months, w.site.snaps)[m];
            e.month == m && IsEntry(k, OwnCompile(k, w.journal), e) && Stored(OwnCompile(k, w.journal), w.site.snaps, e)
  {
    KeptShape(k, w.journal, w.site, months, m);
    var e := Unchanged(k, w.site.manifest, Span(w.journal, MIN_TIMESTAMP_MS, MAX_TIMESTAMP_MS), months, w.site.snaps)[m];
    CurrentIn(kits, k, w, w.site.manifest.value, e);
  }

  lemma CurrentIn(kits: iset<Kit>, k: Kit, w: World, previous: Manifest, e: Entry)
    requires Inv(kits, w) && KitsApart(kits) && k in kits && KitOk(k)
    requires w.site.manifest == Some(previous) && previous.schemaHash == k.fmt.schemaHash && e in previous.windows
    requires Untouched(w.journal, previous.lastSeq, e.month) && e.file in w.site.snaps
    ensures IsEntry(k, OwnCompile(k, w.journal), e) && Stored(OwnCompile(k, w.journal), w.site.snaps, e)
  {
    var was :| was in kits && ManifestOk(was, w, previous);
    assert Tag(was) == Tag(k);
    EntryIsCurrent(k, w, previous.lastSeq, e);
  }

  /** A compile after any history: it succeeds exactly when compiling every month from scratch
      would, and then leaves exactly what that leaves. */
  lemma CompileIsScratch(kits: iset<Kit>, k: Kit, w: World, months: seq<nat>)
    requires Inv(kits, w) && KitsApart(kits) && k in kits && KitOk(k) && Covers(months, w.journal)
    ensures var (site, error) := CompileStep(k, w.journal, months, w.site);
            var one := OwnCompile(k, w.journal);
            && (error.None? <==> forall m :: m in months ==> one(m).Ok?)
            && (error.None? && months != [] ==>
                  site.manifest.Some? && FromScratch(k, one, months, site.manifest.value.windows, site.snaps))
  {
    if months != [] {
      var records := Span(w.journal, MIN_TIMESTAMP_MS, MAX_TIMESTAMP_MS);
      var kept := Unchanged(k, w.site.manifest, records, months, w.site.snaps);
      var one := OwnCompile(k, w.journal);
      forall m | m in kept
        ensures kept[m].month == m && IsEntry(k, one, kept[m]) && Stored(one, w.site.snaps, kept[m])
      {
        KeptAreCurrent(kits, k, w, months, m);
      }
      OwnCompileIsNamed(k, w.journal);
      OnePassEqualsMany(k, w.journal, Todo(months, kept));
      MergeIsScratch(k, one, months, kept, CompileMany(k, w.journal, Todo(months, kept)), w.site.snaps);
    }
  }

  // ---------------------------------------------------------------- preservation

  lemma {:induction false} TopSeqIs(rs: seq<Record>)
    ensures forall r :: r in rs ==> r.seqNo <= TopSeq(rs)
    ensures TopSeq(rs) == 0 || exists r :: r in rs && r.seqNo == TopSeq(rs)
  {
    if rs == [] {
    } else {
      TopSeqIs(rs[..|rs| - 1]);
      assert rs == rs[..|rs| - 1] + [rs[|rs| - 1]];
    }
  }

  lemma TopSeqCounts(journal: seq<Record>)
    requires Numbered(journal) && TimesOk(journal)
    ensures TopSeq(Span(journal, MIN_TIMESTAMP_MS, MAX_TIMESTAMP_MS)) == |journal|
  {
    var records := Span(journal, MIN_TIMESTAMP_MS, MAX_TIMESTAMP_MS);
    TopSeqIs(records);
    EverythingSpanned(journal);
    if journal != [] { assert journal[|journal| - 1] in records; }
  }

  lemma AppendKeepsEntry(k: Kit, w: World, lastSeq: nat, e: Entry, r: Record)
    requires KitOk(k) && lastSeq <= |w.journal| && EntryOk(k, w, lastSeq, e)
    ensures EntryOk(k, w.(journal := w.journal + [r]), lastSeq, e)
  {
    assert (w.journal + [r])[..lastSeq] == w.journal[..lastSeq];
    if Untouched(w.journal + [r], lastSeq, e.month) {
      forall q | q in w.journal && q.seqNo > lastSeq ensures e.month < MonthOf(q.knownAt) { assert q in w.journal + [r]; }
    }
  }

  lemma AppendKeepsInv(kits: iset<Kit>, w: World, r: Record)
    requires Inv(kits, w) && Allowed(w, Event.Append(r))
    ensures Inv(kits, Advance(w, Event.Append(r)))
  {
    var after := Advance(w, Event.Append(r));
    if w.site.manifest.Some? {
      var previous := w.site.manifest.value;
      var k :| k in kits && ManifestOk(k, w, previous);
      forall e | e in previous.windows ensures EntryOk(k, after, previous.lastSeq, e) {
        AppendKeepsEntry(k, w, previous.lastSeq, e, r);
      }
      assert ManifestOk(k, after, previous);
    }
  }

  lemma LoseKeepsInv(kits: iset<Kit>, w: World, p: SnapPath)
    requires Inv(kits, w)
    ensures Inv(kits, Advance(w, LoseFile(p)))
  {
    var after := Advance(w, LoseFile(p));
    if w.site.manifest.Some? {
      var previous := w.site.manifest.value;
      var k :| k in kits && ManifestOk(k, w, previous);
      forall e | e in previous.windows ensures EntryOk(k, after, previous.lastSeq, e) {
        assert EntryOk(k, w, previous.lastSeq, e);
      }
      assert ManifestOk(k, after, previous);
    }
  }

  /** Files written by a compile whose manifest was not saved leave the old manifest's entries as
      true as they were. */
  lemma PlacedKeepsEntry(kits: iset<Kit>, k: Kit, was: Kit, w: World, ms: seq<nat>, ws: seq<Window>, lastSeq: nat, e: Entry)
    requires KitsApart(kits) && k in kits && was in kits && KitOk(k) && KitOk(was)
    requires Numbered(w.journal) && TimesOk(w.journal) && lastSeq <= |w.journal| && EntryOk(was, w, lastSeq, e)
    requires StrictlyAscending(ms) && |ws| <= |ms|
    requires forall i :: 0 <= i < |ws| ==> OwnCompile(k, w.journal)(ms[i]) == Ok(ws[i])
    ensures EntryOk(was, w.(site := w.site.(snaps := Place(k, w.site.snaps, ws))), lastSeq, e)
  {
    OwnCompileIsNamed(k, w.journal);
    forall i | 0 <= i < |ws| ensures ws[i].month == ms[i] { assert OwnCompile(k, w.journal)(ms[i]) == Ok(ws[i]); }
    PlaceStores(k, w.site.snaps, ms, ws);
    if Untouched(w.journal, lastSeq, e.month) {
      UntouchedIsUnseen(was, w.journal, lastSeq, e.month);
      if i :| 0 <= i < |ws| && e.file == FileOf(k, ms[i]) {
        OwnCompileIsNamed(was, w.journal[..lastSeq]);
        assert Tag(was) == Tag(k);
      }
    }
  }

  lemma UnsavedKeepsInv(kits: iset<Kit>, k: Kit, w: World, months: seq<nat>)
    requires Inv(kits, w) && KitsApart(kits) && k in kits && KitOk(k) && Covers(months, w.journal)
    ensures Inv(kits, w.(site := w.site.(snaps := CompileStep(k, w.journal, months, w.site).0.snaps)))
  {
    var after := w.(site := w.site.(snaps := CompileStep(k, w.journal, months, w.site).0.snaps));
    if months == [] {
      assert after == w;
    } else if w.site.manifest.Some? {
      var kept := Unchanged(k, w.site.manifest, Span(w.journal, MIN_TIMESTAMP_MS, MAX_TIMESTAMP_MS), months, w.site.snaps);
      var todo := Todo(months, kept);
      var previous := w.site.manifest.value;
      var was :| was in kits && ManifestOk(was, w, previous);
      TodoIs(months, kept);
      OnePassEqualsMany(k, w.journal, todo);
      forall e | e in previous.windows ensures EntryOk(was, after, previous.lastSeq, e) {
        PlacedKeepsEntry(kits, k, was, w, todo, CompileMany(k, w.journal, todo).windows, previous.lastSeq, e);
      }
      assert ManifestOk(was, after, previous);
    }
  }

  lemma ScratchIsOk(k: Kit, w: World, months: seq<nat>, m: Manifest)
    requires KitOk(k) && m.schemaHash == k.fmt.schemaHash && m.lastSeq == |w.journal|
    requires FromScratch(k, OwnCompile(k, w.journal), months, m.windows, w.site.snaps)
    ensures ManifestOk(k, w, m)
  {
    assert w.journal[..m.lastSeq] == w.journal;
    forall e | e in m.windows ensures EntryOk(k, w, m.lastSeq, e) {
      var i :| 0 <= i < |m.windows| && m.windows[i] == e;
    }
  }

  lemma CompileKeepsInv(kits: iset<Kit>, w: World, k: Kit, months: seq<nat>, saved: bool)
    requires Inv(kits, w) && KitsApart(kits) && k in kits && Allowed(w, Compile(k, months, saved))
    ensures Inv(kits, Advance(w, Compile(k, months, saved)))
  {
    var (site, error) := CompileStep(k, w.journal, months, w.site);
    UnsavedKeepsInv(kits, k, w, months);
    if error.None? && saved && months != [] {
      CompileIsScratch(kits, k, w, months);
      TopSeqCounts(w.journal);
      ScratchIsOk(k, w.(site := site), months, site.manifest.value);
    }
  }

  lemma {:induction false} RunKeepsInv(states: seq<World>, events: seq<Event>, i: nat)
    requires IsRun(states, events) && KitsApart(Kits(events)) && i < |states|
    ensures Inv(Kits(events), states[i])
  {
    if i == 0 {
    } else {
      RunKeepsInv(states, events, i - 1);
      var e := events[i - 1];
      assert Allowed(states[i - 1], e) && states[i] == Advance(states[i - 1], e) && e in events;
      match e
      case Append(r) => AppendKeepsInv(Kits(events), states[i - 1], r);
      case Compile(k, months, saved) => CompileKeepsInv(Kits(events), states[i - 1], k, months, saved);
      case LoseFile(p) => LoseKeepsInv(Kits(events), states[i - 1], p);
    }
  }

  /** Incremental compile equals compile from scratch: after any run of appends to any month,
      compiles that failed or were not saved, lost files and changes of schema, a compile succeeds
      exactly when compiling every month afresh would, and then its manifest lists, month by month,
      the hash, count and lineage the fresh compile gives, every file holding its bytes. */
  lemma IncrementalEqualsScratch(states: seq<World>, events: seq<Event>, i: nat)
    requires IsRun(states, events) && KitsApart(Kits(events)) && i < |events| && events[i].Compile?
    ensures Allowed(states[i], events[i])
    ensures var k, months, journal := events[i].kit, events[i].months, states[i].journal;
            var (site, error) := CompileStep(k, journal, months, states[i].site);
            && (error.None? <==> CompileMany(k, journal, months).error.None?)
            && (error.None? && months != [] ==>
                  site.manifest.Some? && FromScratch(k, OwnCompile(k, journal), months, site.manifest.value.windows, site.snaps))
  {
    RunKeepsInv(states, events, i);
    var k := events[i].kit;
    assert Allowed(states[i], events[i]) && events[i] in events;
    CompileIsScratch(Kits(events), k, states[i], events[i].months);
    OnePassEqualsMany(k, states[i].journal, events[i].months);
  }
}
