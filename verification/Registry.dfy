/** A store of several datasets over its whole life (hub/compiler.py, `compile_all`).

    Datasets share one manifest and one tree of snapshot files.  Seen from any one of them a compile of
    the registry is a compile of that dataset alone, so what holds of one dataset's life holds of
    every dataset's. */
module Registry {
  import opened Wrappers
  import opened Ordering
  import opened Records
  import opened Journal
  import opened Calendar
  import opened Ranges
  import opened Compiler
  import opened Incremental
  import opened Compilation

  // ---------------------------------------------------------------- one dataset's share

  function BelongsTo(dataset: string, snaps: Snapshots): Snapshots {
    map p | p in snaps && p.dataset == dataset :: snaps[p]
  }

  /** Every file a dataset's manifest entry names is the dataset's own. */
  ghost predicate AtHome(dataset: string, manifest: Option<Manifest>) {
    manifest.Some? ==> forall e :: e in manifest.value.windows ==> e.file.dataset == dataset
  }

  lemma {:induction false} KeptOfAgree(keep: Entry -> bool, also: Entry -> bool, es: seq<Entry>)
    requires forall e :: e in es ==> keep(e) == also(e)
    ensures KeptOf(keep, es) == KeptOf(also, es)
  {
    if es == [] {
    } else {
      assert es == es[..|es| - 1] + [es[|es| - 1]];
      KeptOfAgree(keep, also, es[..|es| - 1]);
    }
  }

  /** What can be kept depends only on the dataset's own files. */
  lemma UnchangedOwn(k: Kit, previous: Option<Manifest>, records: seq<Record>, months: seq<nat>, snaps: Snapshots)
    requires AtHome(k.hub.schema.name, previous)
    ensures Unchanged(k, previous, records, months, BelongsTo(k.hub.schema.name, snaps)) == Unchanged(k, previous, records, months, snaps)
  {
    if previous.Some? {
      KeptOfAgree(Keeper(previous.value, records, months, BelongsTo(k.hub.schema.name, snaps)),
                  Keeper(previous.value, records, months, snaps), previous.value.windows);
    }
  }

  lemma {:induction false} PlaceShares(k: Kit, snaps: Snapshots, ws: seq<Window>, dataset: string)
    ensures BelongsTo(dataset, Place(k, snaps, ws)) ==
            if dataset == k.hub.schema.name then Place(k, BelongsTo(dataset, snaps), ws) else BelongsTo(dataset, snaps)
  {
    if ws == [] {
    } else {
      PlaceShares(k, snaps, ws[..|ws| - 1], dataset);
    }
  }

  lemma {:induction false} CompiledAtHome(k: Kit, ws: seq<Window>)
    ensures forall m :: m in Compiled(k, ws) ==> Compiled(k, ws)[m].file.dataset == k.hub.schema.name
  {
    if ws == [] {
    } else {
      CompiledAtHome(k, ws[..|ws| - 1]);
    }
  }

  lemma {:induction false} MergedAtHome(dataset: string, months: seq<nat>, kept: map<nat, Entry>, compiled: map<nat, Entry>)
    requires forall m :: m in kept ==> kept[m].file.dataset == dataset
    requires forall m :: m in compiled ==> compiled[m].file.dataset == dataset
    ensures forall e :: e in Merged(months, kept, compiled) ==> e.file.dataset == dataset
  {
    if months == [] {
    } else {
      MergedAtHome(dataset, months[..|months| - 1], kept, compiled);
    }
  }

  /** One dataset's compile, on all the snapshot files and on its own alone. */
  lemma StepShares(k: Kit, journal: seq<Record>, months: seq<nat>, manifest: Option<Manifest>, snaps: Snapshots)
    requires KitOk(k) && AtHome(k.hub.schema.name, manifest)
    ensures var name := k.hub.schema.name;
            var (site, error) := CompileStep(k, journal, months, Site(manifest, snaps));
            && CompileStep(k, journal, months, Site(manifest, BelongsTo(name, snaps))) ==
               (Site(site.manifest, BelongsTo(name, site.snaps)), error)
            && AtHome(name, site.manifest)
            && forall other :: other != name ==> BelongsTo(other, site.snaps) == BelongsTo(other, snaps)
  {
    if months != [] {
      var name := k.hub.schema.name;
      var records := Span(journal, MIN_TIMESTAMP_MS, MAX_TIMESTAMP_MS);
      var kept := Unchanged(k, manifest, records, months, snaps);
      var pass := CompileMany(k, journal, Todo(months, kept));
      UnchangedOwn(k, manifest, records, months, snaps);
      forall dataset ensures BelongsTo(dataset, Place(k, snaps, pass.windows)) ==
        if dataset == name then Place(k, BelongsTo(dataset, snaps), pass.windows) else BelongsTo(dataset, snaps)
      {
        PlaceShares(k, snaps, pass.windows, dataset);
      }
      forall m | m in kept ensures kept[m].file.dataset == name {
        KeptIsKept(Keeper(manifest.value, records, months, snaps), manifest.value.windows, m);
      }
      CompiledAtHome(k, pass.windows);
      MergedAtHome(name, months, kept, Compiled(k, pass.windows));
    }
  }

  // ---------------------------------------------------------------- a registry's compile, by dataset

  /** A dataset's site within the progress of a compile. */
  function SiteIn(p: Progress, dataset: string): Site {
    Site(EntryFor(p.manifest, dataset), BelongsTo(dataset, p.snaps))
  }

  ghost predicate HomelyProgress(p: Progress) { forall name :: AtHome(name, EntryFor(p.manifest, name)) }

  /** One dataset's turn: its own step on its own site, and nothing on any other's. */
  lemma NextShares(c: Journal.Codec, k: Kit, files: Files, journal: seq<Record>, p: Progress)
    requires KitOk(k) && HomelyProgress(p)
    ensures var after, name := CompileNext(c, k, files, journal, p), k.hub.schema.name;
            && HomelyProgress(after)
            && (forall other :: other != name ==> SiteIn(after, other) == SiteIn(p, other))
            && if Torn(c, files, name) then SiteIn(after, name) == SiteIn(p, name) && after.error == Some(Unreadable)
               else (SiteIn(after, name), after.error) == CompileStep(k, journal, MonthsOf(files, name), SiteIn(p, name))
  {
    var name := k.hub.schema.name;
    StepShares(k, journal, MonthsOf(files, name), EntryFor(p.manifest, name), p.snaps);
    var after := CompileNext(c, k, files, journal, p);
    forall other ensures AtHome(other, EntryFor(after.manifest, other)) {
      assert AtHome(other, EntryFor(p.manifest, other));
    }
  }

  /** The registry's schemas have different names. */
  ghost predicate NamesApart(kits: seq<Kit>) {
    forall i, j :: 0 <= i < j < |kits| ==> kits[i].hub.schema.name != kits[j].hub.schema.name
  }

  lemma {:induction false} EachSpares(c: Journal.Codec, kits: seq<Kit>, files: Files, journals: map<string, seq<Record>>, start: Progress, name: string)
    requires (forall k :: k in kits ==> KitOk(k)) && HomelyProgress(start)
    ensures var p := CompileEach(c, kits, files, journals, start);
            && HomelyProgress(p)
            && ((forall k :: k in kits ==> k.hub.schema.name != name) ==> SiteIn(p, name) == SiteIn(start, name))
  {
    if kits == [] {
    } else {
      var init, k := kits[..|kits| - 1], kits[|kits| - 1];
      EachSpares(c, init, files, journals, start, name);
      assert k in kits;
      var p := CompileEach(c, init, files, journals, start);
      if p.error.None? { NextShares(c, k, files, JournalOf(journals, k.hub.schema.name), p); }
    }
  }

  /** What the compile of one kit's dataset alone comes to. */
  ghost function OwnStep(c: Journal.Codec, k: Kit, files: Files, journals: map<string, seq<Record>>, start: Progress): (Site, Option<CompileError>)
    requires KitOk(k)
  {
    var name := k.hub.schema.name;
    if Torn(c, files, name) then (SiteIn(start, name), Some(Unreadable))
    else CompileStep(k, JournalOf(journals, name), MonthsOf(files, name), SiteIn(start, name))
  }

  lemma OwnTurn(c: Journal.Codec, k: Kit, files: Files, journals: map<string, seq<Record>>, start: Progress, before: Progress)
    requires KitOk(k) && HomelyProgress(before)
    requires SiteIn(before, k.hub.schema.name) == SiteIn(start, k.hub.schema.name) && before.error.None?
    ensures var name := k.hub.schema.name;
            var after := CompileNext(c, k, files, JournalOf(journals, name), before);
            && (SiteIn(after, name), after.error) == OwnStep(c, k, files, journals, start)
            && forall other :: other != name ==> SiteIn(after, other) == SiteIn(before, other)
  {
    NextShares(c, k, files, JournalOf(journals, k.hub.schema.name), before);
  }

  /** One kit's dataset, after a compile that began at `start`. */
  ghost predicate Projected(c: Journal.Codec, k: Kit, files: Files, journals: map<string, seq<Record>>, start: Progress, p: Progress)
    requires KitOk(k)
  {
    var site := SiteIn(p, k.hub.schema.name);
    || site == OwnStep(c, k, files, journals, start).0
    || (p.error.Some? && site == SiteIn(start, k.hub.schema.name))
  }

  /** A registry's compile projected onto one of its datasets is that dataset's own compile, or nothing
      when an earlier dataset failed; and it succeeds exactly when every dataset's own compile does. */
  lemma {:induction false} EachProjects(c: Journal.Codec, kits: seq<Kit>, files: Files, journals: map<string, seq<Record>>, start: Progress)
    requires (forall k :: k in kits ==> KitOk(k)) && HomelyProgress(start) && NamesApart(kits) && start.error.None?
    ensures var p := CompileEach(c, kits, files, journals, start);
            && (p.error.None? <==> forall k :: k in kits ==> OwnStep(c, k, files, journals, start).1.None?)
            && forall k :: k in kits ==> Projected(c, k, files, journals, start, p)
  {
    if kits == [] {
    } else {
      var init, last := kits[..|kits| - 1], kits[|kits| - 1];
      var before := CompileEach(c, init, files, journals, start);
      assert kits == init + [last];
      EachProjects(c, init, files, journals, start);
      EachSpares(c, init, files, journals, start, last.hub.schema.name);
      if before.error.None? {
        OwnTurn(c, last, files, journals, start, before);
        var after := CompileEach(c, kits, files, journals, start);
        forall k | k in kits ensures Projected(c, k, files, journals, start, after) {
          if k != last { assert Projected(c, k, files, journals, start, before); }
        }
      }
    }
  }

  // ---------------------------------------------------------------- a store's life

  datatype Root = Root(journals: map<string, seq<Record>>, manifest: map<string, Manifest>, snaps: Snapshots)

  datatype Act =
    | Journalled(dataset: string, record: Record)
    | CompiledAll(kits: seq<Kit>, files: Files)
    | Lost(path: SnapPath)

  const EMPTY_ROOT := Root(map[], map[], map[])

  function Begun(r: Root): Progress { Progress(r.manifest, r.snaps, None) }

  ghost predicate May(c: Journal.Codec, r: Root, a: Act) {
    match a
    case Journalled(d, q) => q.seqNo == |JournalOf(r.journals, d)| + 1 && TimestampOk(q.knownAt)
    case CompiledAll(kits, files) => NamesApart(kits) && AllHeld(c, files, kits, r.journals)
    case Lost(_) => true
  }

  ghost function Does(c: Journal.Codec, r: Root, a: Act): Root
    requires May(c, r, a)
  {
    match a
    case Journalled(d, q) => r.(journals := r.journals[d := JournalOf(r.journals, d) + [q]])
    case CompiledAll(kits, files) =>
      var p := CompileEach(c, kits, files, r.journals, Begun(r));
      r.(manifest := if p.error.None? then p.manifest else r.manifest, snaps := p.snaps)
    case Lost(p) => r.(snaps := r.snaps - {p})
  }

  ghost predicate IsLife(c: Journal.Codec, roots: seq<Root>, acts: seq<Act>) {
    && |roots| == |acts| + 1 && roots[0] == EMPTY_ROOT
    && forall i :: 0 <= i < |acts| ==> May(c, roots[i], acts[i]) && roots[i + 1] == Does(c, roots[i], acts[i])
  }

  /** A life goes on by any act its last state allows. */
  lemma LifeGoesOn(c: Journal.Codec, roots: seq<Root>, acts: seq<Act>, a: Act)
    requires IsLife(c, roots, acts) && May(c, roots[|acts|], a)
    ensures IsLife(c, roots + [Does(c, roots[|acts|], a)], acts + [a])
  {
    var after, all := roots + [Does(c, roots[|acts|], a)], acts + [a];
    forall i | 0 <= i < |all| ensures May(c, after[i], all[i]) && after[i + 1] == Does(c, after[i], all[i]) {
      if i < |acts| { assert May(c, roots[i], acts[i]) && roots[i + 1] == Does(c, roots[i], acts[i]); }
    }
  }

  /** The schemas one dataset has been compiled under. */
  ghost function KitsOf(acts: seq<Act>, dataset: string): iset<Kit> {
    iset a, k | a in acts && a.CompiledAll? && k in a.kits && k.hub.schema.name == dataset :: k
  }

  /** One dataset's own world within the store. */
  function WorldOf(r: Root, dataset: string): World {
    World(JournalOf(r.journals, dataset), Site(EntryFor(r.manifest, dataset), BelongsTo(dataset, r.snaps)))
  }

  ghost predicate Sound(acts: seq<Act>, r: Root) {
    forall name :: Inv(KitsOf(acts, name), WorldOf(r, name)) && AtHome(name, EntryFor(r.manifest, name))
  }

  /** Seen from one of its datasets, a registry's compile is a compile of that dataset, saved when the
      whole succeeds, or nothing. */
  lemma CompileProjects(c: Journal.Codec, r: Root, kits: seq<Kit>, files: Files, k: Kit)
    requires May(c, r, CompiledAll(kits, files)) && k in kits
    requires forall name :: AtHome(name, EntryFor(r.manifest, name))
    ensures var name := k.hub.schema.name;
            var after := Does(c, r, CompiledAll(kits, files));
            var saved := CompileEach(c, kits, files, r.journals, Begun(r)).error.None?;
            var own := Compile(k, MonthsOf(files, name), saved);
            || WorldOf(after, name) == WorldOf(r, name)
            || (Allowed(WorldOf(r, name), own) && WorldOf(after, name) == Incremental.Advance(WorldOf(r, name), own))
  {
    var name := k.hub.schema.name;
    var journal := JournalOf(r.journals, name);
    EachProjects(c, kits, files, r.journals, Begun(r));
    if !Torn(c, files, name) {
      assert Held(c, files, name, journal);
      DiscoveredCovers(c, files, name, journal, MonthsOf(files, name));
    }
  }

  lemma CompileSpares(c: Journal.Codec, r: Root, kits: seq<Kit>, files: Files, name: string)
    requires May(c, r, CompiledAll(kits, files)) && forall k :: k in kits ==> k.hub.schema.name != name
    requires forall name :: AtHome(name, EntryFor(r.manifest, name))
    ensures WorldOf(Does(c, r, CompiledAll(kits, files)), name) == WorldOf(r, name)
  {
    EachSpares(c, kits, files, r.journals, Begun(r), name);
  }

  lemma CompileKeepsSound(c: Journal.Codec, acts: seq<Act>, r: Root, kits: seq<Kit>, files: Files)
    requires Sound(acts, r) && May(c, r, CompiledAll(kits, files)) && CompiledAll(kits, files) in acts
    requires forall name :: KitsApart(KitsOf(acts, name))
    ensures Sound(acts, Does(c, r, CompiledAll(kits, files)))
  {
    var after := Does(c, r, CompiledAll(kits, files));
    EachSpares(c, kits, files, r.journals, Begun(r), "");
    forall name ensures Inv(KitsOf(acts, name), WorldOf(after, name)) && AtHome(name, EntryFor(after.manifest, name)) {
      assert Inv(KitsOf(acts, name), WorldOf(r, name)) && AtHome(name, EntryFor(r.manifest, name));
      if k :| k in kits && k.hub.schema.name == name {
        CompileProjects(c, r, kits, files, k);
        assert k in KitsOf(acts, name);
        if WorldOf(after, name) != WorldOf(r, name) {
          CompileKeepsInv(KitsOf(acts, name), WorldOf(r, name), k, MonthsOf(files, name),
                          CompileEach(c, kits, files, r.journals, Begun(r)).error.None?);
        }
      } else {
        CompileSpares(c, r, kits, files, name);
      }
    }
  }

  lemma JournalledKeepsSound(c: Journal.Codec, acts: seq<Act>, r: Root, dataset: string, q: Record)
    requires Sound(acts, r) && May(c, r, Journalled(dataset, q))
    ensures Sound(acts, Does(c, r, Journalled(dataset, q)))
  {
    var after := Does(c, r, Journalled(dataset, q));
    forall name ensures Inv(KitsOf(acts, name), WorldOf(after, name)) && AtHome(name, EntryFor(after.manifest, name)) {
      assert Inv(KitsOf(acts, name), WorldOf(r, name)) && AtHome(name, EntryFor(r.manifest, name));
      if name == dataset { AppendKeepsInv(KitsOf(acts, name), WorldOf(r, name), q); }
    }
  }

  lemma LostKeepsSound(c: Journal.Codec, acts: seq<Act>, r: Root, p: SnapPath)
    requires Sound(acts, r)
    ensures Sound(acts, Does(c, r, Lost(p)))
  {
    var after := Does(c, r, Lost(p));
    forall name ensures Inv(KitsOf(acts, name), WorldOf(after, name)) && AtHome(name, EntryFor(after.manifest, name)) {
      assert Inv(KitsOf(acts, name), WorldOf(r, name)) && AtHome(name, EntryFor(r.manifest, name));
      LoseKeepsInv(KitsOf(acts, name), WorldOf(r, name), p);
      assert BelongsTo(name, r.snaps - {p}) == BelongsTo(name, r.snaps) - {p};
    }
  }

  lemma ActKeepsSound(c: Journal.Codec, acts: seq<Act>, r: Root, a: Act)
    requires Sound(acts, r) && May(c, r, a) && a in acts && forall name :: KitsApart(KitsOf(acts, name))
    ensures Sound(acts, Does(c, r, a))
  {
    match a
    case Journalled(d, q) => JournalledKeepsSound(c, acts, r, d, q);
    case CompiledAll(kits, files) => CompileKeepsSound(c, acts, r, kits, files);
    case Lost(p) => LostKeepsSound(c, acts, r, p);
  }

  lemma {:induction false} LifeKeepsSound(c: Journal.Codec, roots: seq<Root>, acts: seq<Act>, i: nat)
    requires IsLife(c, roots, acts) && i < |roots| && forall name :: KitsApart(KitsOf(acts, name))
    ensures Sound(acts, roots[i])
  {
    if i == 0 {
      assert BelongsTo("", map[]) == map[];
    } else {
      LifeKeepsSound(c, roots, acts, i - 1);
      assert May(c, roots[i - 1], acts[i - 1]) && roots[i - 1 + 1] == Does(c, roots[i - 1], acts[i - 1]);
      ActKeepsSound(c, acts, roots[i - 1], acts[i - 1]);
    }
  }

  // ---------------------------------------------------------------- every entry from scratch

  /** A dataset's own full compile of every month it has files for. */
  ghost predicate Compiles(c: Journal.Codec, k: Kit, files: Files, journals: map<string, seq<Record>>)
    requires KitOk(k)
  {
    !Torn(c, files, k.hub.schema.name) && CompileMany(k, JournalOf(journals, k.hub.schema.name), MonthsOf(files, k.hub.schema.name)).error.None?
  }

  function TotalRecords(es: seq<Entry>): nat {
    if es == [] then 0 else TotalRecords(es[..|es| - 1]) + es[|es| - 1].records
  }

  /** The manifest lists for each month what compiling that month alone gives, its file in place, and
      counts exactly the month's records; in all, each record of the journal once. */
  ghost predicate ListsEverything(k: Kit, journal: seq<Record>, months: seq<nat>, manifest: Option<Manifest>, snaps: Snapshots)
    requires KitOk(k)
  {
    && manifest.Some? && FromScratch(k, OwnCompile(k, journal), months, manifest.value.windows, snaps)
    && (forall i :: 0 <= i < |months| ==> manifest.value.windows[i].records == |Filter(journal, InMonth(months[i]))|)
    && TotalRecords(manifest.value.windows) == |journal|
  }

  function CountByMonth(journal: seq<Record>, months: seq<nat>): nat {
    if months == [] then 0
    else CountByMonth(journal, months[..|months| - 1]) + |Filter(journal, InMonth(months[|months| - 1]))|
  }

  lemma {:induction false} CountSnoc(journal: seq<Record>, r: Record, months: seq<nat>)
    requires StrictlyAscending(months) && TimestampOk(r.knownAt)
    ensures CountByMonth(journal + [r], months) == CountByMonth(journal, months) + if MonthOf(r.knownAt) in months then 1 else 0
  {
    if months == [] {
    } else {
      var init, m := months[..|months| - 1], months[|months| - 1];
      CountSnoc(journal, r, init);
      FilterSnoc(journal, r, InMonth(m));
      MonthBounds(r.knownAt, m);
      assert months == init + [m] && m !in init;
    }
  }

  /** Months that cover a journal hold each of its records in exactly one. */
  lemma {:induction false} EachRecordOnce(journal: seq<Record>, months: seq<nat>)
    requires Covers(months, journal) && TimesOk(journal)
    ensures CountByMonth(journal, months) == |journal|
  {
    if journal == [] {
      NothingCounted(months);
    } else {
      var init, r := journal[..|journal| - 1], journal[|journal| - 1];
      assert journal == init + [r];
      EachRecordOnce(init, months);
      CountSnoc(init, r, months);
    }
  }

  lemma {:induction false} NothingCounted(months: seq<nat>)
    ensures CountByMonth([], months) == 0
  {
    if months == [] {
    } else {
      NothingCounted(months[..|months| - 1]);
    }
  }

  lemma {:induction false} TotalIsCount(journal: seq<Record>, months: seq<nat>, es: seq<Entry>)
    requires |es| == |months| && forall i :: 0 <= i < |months| ==> es[i].records == |Filter(journal, InMonth(months[i]))|
    ensures TotalRecords(es) == CountByMonth(journal, months)
  {
    if months == [] {
    } else {
      TotalIsCount(journal, months[..|months| - 1], es[..|es| - 1]);
    }
  }

  lemma SharesAreStored(k: Kit, one: nat -> Result<Window, CompileError>, months: seq<nat>, windows: seq<Entry>, snaps: Snapshots, dataset: string)
    requires FromScratch(k, one, months, windows, BelongsTo(dataset, snaps))
    ensures FromScratch(k, one, months, windows, snaps)
  {}

  lemma ScratchCounts(k: Kit, journal: seq<Record>, months: seq<nat>, windows: seq<Entry>, snaps: Snapshots, i: nat)
    requires KitOk(k) && TimesOk(journal) && FromScratch(k, OwnCompile(k, journal), months, windows, snaps) && i < |months|
    ensures windows[i].records == |Filter(journal, InMonth(months[i]))|
  {
    assert IsEntry(k, OwnCompile(k, journal), windows[i]) && windows[i].month == months[i];
    WindowCounts(k, journal, months[i]);
  }

  lemma OwnStepIsScratch(c: Journal.Codec, kits: iset<Kit>, k: Kit, files: Files, r: Root)
    requires KitOk(k) && k in kits && KitsApart(kits) && Inv(kits, WorldOf(r, k.hub.schema.name))
    requires Held(c, files, k.hub.schema.name, JournalOf(r.journals, k.hub.schema.name))
    ensures var (site, error) := OwnStep(c, k, files, r.journals, Begun(r));
            && (error.None? <==> Compiles(c, k, files, r.journals))
            && (error.None? && MonthsOf(files, k.hub.schema.name) != [] ==>
                  ListsEverything(k, JournalOf(r.journals, k.hub.schema.name), MonthsOf(files, k.hub.schema.name), site.manifest, site.snaps))
  {
    var name := k.hub.schema.name;
    var journal, months, w := JournalOf(r.journals, name), MonthsOf(files, name), WorldOf(r, name);
    if !Torn(c, files, name) {
      DiscoveredCovers(c, files, name, journal, months);
      CompileIsScratch(kits, k, w, months);
      OnePassEqualsMany(k, journal, months);
      var (site, error) := CompileStep(k, journal, months, w.site);
      if error.None? && months != [] {
        forall i | 0 <= i < |months| ensures site.manifest.value.windows[i].records == |Filter(journal, InMonth(months[i]))| {
          ScratchCounts(k, journal, months, site.manifest.value.windows, site.snaps, i);
        }
        TotalIsCount(journal, months, site.manifest.value.windows);
        EachRecordOnce(journal, months);
      }
    }
  }

  /** After any life of a store - appends to any month of any dataset, compiles of any registries that
      failed or succeeded, lost files, changed schemas - a compile of a registry succeeds if and only if
      every dataset's journal can be read and compiled in full; and then the saved manifest lists, for
      every dataset and month, the hash, count and lineage of a compile from scratch, its file holding
      those bytes. */
  lemma EveryEntryFromScratch(c: Journal.Codec, roots: seq<Root>, acts: seq<Act>, i: nat)
    requires IsLife(c, roots, acts) && i < |acts| && acts[i].CompiledAll? && forall name :: KitsApart(KitsOf(acts, name))
    ensures May(c, roots[i], acts[i])
    ensures var r, kits, files := roots[i], acts[i].kits, acts[i].files;
            var p := CompileEach(c, kits, files, r.journals, Begun(r));
            && (p.error.None? <==> forall k :: k in kits ==> Compiles(c, k, files, r.journals))
            && (p.error.None? ==> roots[i + 1].manifest == p.manifest && forall k :: k in kits && MonthsOf(files, k.hub.schema.name) != [] ==>
                  ListsEverything(k, JournalOf(r.journals, k.hub.schema.name), MonthsOf(files, k.hub.schema.name),
                                  EntryFor(p.manifest, k.hub.schema.name), p.snaps))
  {
    var r, kits, files := roots[i], acts[i].kits, acts[i].files;
    assert May(c, roots[i], acts[i]) && acts[i] in acts;
    LifeKeepsSound(c, roots, acts, i);
    var p := CompileEach(c, kits, files, r.journals, Begun(r));
    EachProjects(c, kits, files, r.journals, Begun(r));
    forall k | k in kits
      ensures OwnStep(c, k, files, r.journals, Begun(r)).1.None? <==> Compiles(c, k, files, r.journals)
      ensures p.error.None? && MonthsOf(files, k.hub.schema.name) != [] ==>
        ListsEverything(k, JournalOf(r.journals, k.hub.schema.name), MonthsOf(files, k.hub.schema.name),
                        EntryFor(p.manifest, k.hub.schema.name), p.snaps)
    {
      EntryOfKit(c, acts, r, kits, files, k);
    }
  }

  lemma EntryOfKit(c: Journal.Codec, acts: seq<Act>, r: Root, kits: seq<Kit>, files: Files, k: Kit)
    requires Sound(acts, r) && May(c, r, CompiledAll(kits, files)) && CompiledAll(kits, files) in acts && k in kits
    requires forall name :: KitsApart(KitsOf(acts, name))
    ensures var p := CompileEach(c, kits, files, r.journals, Begun(r));
            && (OwnStep(c, k, files, r.journals, Begun(r)).1.None? <==> Compiles(c, k, files, r.journals))
            && (p.error.None? && MonthsOf(files, k.hub.schema.name) != [] ==>
                  ListsEverything(k, JournalOf(r.journals, k.hub.schema.name), MonthsOf(files, k.hub.schema.name),
                                  EntryFor(p.manifest, k.hub.schema.name), p.snaps))
  {
    var name := k.hub.schema.name;
    assert k in KitsOf(acts, name) && Inv(KitsOf(acts, name), WorldOf(r, name));
    OwnStepIsScratch(c, KitsOf(acts, name), k, files, r);
    EachProjects(c, kits, files, r.journals, Begun(r));
    var p := CompileEach(c, kits, files, r.journals, Begun(r));
    var journal, months := JournalOf(r.journals, name), MonthsOf(files, name);
    if p.error.None? && months != [] {
      SharesAreStored(k, OwnCompile(k, journal), months, EntryFor(p.manifest, name).value.windows, p.snaps, name);
    }
  }
}
