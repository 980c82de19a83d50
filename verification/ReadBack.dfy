/** Reading back what was compiled (hub/compiler.py against hubread/reader.py).

    The two ends of the store meet here: the windows one package writes are the windows the other
    stitches from. */
module ReadBack {
  import opened Wrappers
  import opened Ordering
  import opened Records
  import opened Schemas
  import opened Snapshot
  import opened RoundTrip
  import opened Calendar
  import opened Ranges
  import opened Compiler
  import opened Incremental
  import opened Reader
  import opened Visibility
  import opened Journal
  import opened Protocol

  /** A manifest entry as a reader sees it: the month's days as bounds in milliseconds. */
  function InfoOf(e: Entry): WindowInfo { WindowInfo(MonthStart(e.month), MonthEnd(e.month), e.file, e.sha) }

  function InfosOf(es: seq<Entry>): (ws: seq<WindowInfo>)
    ensures |ws| == |es| && forall i :: 0 <= i < |es| ==> ws[i] == InfoOf(es[i])
  {
    seq(|es|, i requires 0 <= i < |es| => InfoOf(es[i]))
  }

  ghost predicate AllValidated(s: Schema, journal: seq<Record>) { forall r :: r in journal ==> Validated(s, r) }

  /** The file of a freshly compiled month decodes to the month's records. */
  lemma EntryMatches(k: Kit, journal: seq<Record>, snaps: Snapshots, e: Entry)
    requires KitOk(k) && TimesOk(journal) && AllValidated(k.hub.schema, journal)
    requires IsEntry(k, OwnCompile(k, journal), e) && Stored(OwnCompile(k, journal), snaps, e)
    ensures Matches(DecodeWindow(k.fmt, snaps), k.hub.schema, journal, InfoOf(e))
  {
    var m := e.month;
    var month := Span(journal, MonthStart(m), MonthEnd(m));
    CompileOneBy(k, journal, m);
    MonthOfHistory(journal, MIN_TIMESTAMP_MS, MonthEnd(m), m);
    forall r | r in month ensures Validated(k.hub.schema, r) { SpanMember(journal, MonthStart(m), MonthEnd(m), r); }
    SortTwice(journal, MonthStart(m), MonthEnd(m));
    SortedComesBack(k.fmt, k.hub.schema, month);
  }

  lemma SortTwice(journal: seq<Record>, from: int, to: int)
    ensures SortRecords(Span(journal, from, to)) == Span(journal, from, to)
  {
    KeyOrder();
    SortSorted(Filter(journal, KnownIn(from, to)), KeyLe);
    SortOfSorted(Span(journal, from, to), KeyLe);
  }

  lemma MonthsAreDisjoint(es: seq<Entry>, months: seq<nat>)
    requires StrictlyAscending(months) && |es| == |months| && forall i :: 0 <= i < |es| ==> es[i].month == months[i]
    ensures Disjoint(InfosOf(es))
  {
    var ws := InfosOf(es);
    forall w | w in ws ensures w.fromMs <= w.toMs {
      var i :| 0 <= i < |ws| && ws[i] == w;
      MonthsAscend(months[i], months[i] + 1);
    }
    forall i, j | 0 <= i < j < |ws| ensures ws[i].toMs < ws[j].fromMs {
      MonthsNest(months[i] + 1, months[j]);
    }
  }

  /** Compile, then read: a range over freshly compiled windows is the journal's own span, through
      the snapshot format where a window covers it. */
  lemma CompiledRangeReads(k: Kit, journal: seq<Record>, months: seq<nat>, es: seq<Entry>, snaps: Snapshots,
                           read: JournalReader, from: int, to: int)
    requires KitOk(k) && TimesOk(journal) && DistinctKeys(journal) && AllValidated(k.hub.schema, journal)
    requires StrictlyAscending(months) && FromScratch(k, OwnCompile(k, journal), months, es, snaps)
    requires forall lo, hi :: read(lo, hi) == Ok(Span(journal, lo, hi))
    ensures var pieces := Stitched(read, DecodeWindow(k.fmt, snaps), InfosOf(es), from, to);
            pieces.Ok? && SortRecords(pieces.value) == Project(Span(journal, from, to), Shown(k.hub.schema, InfosOf(es)))
  {
    var ws := InfosOf(es);
    var load := DecodeWindow(k.fmt, snaps);
    MonthsAreDisjoint(es, months);
    forall w | w in ws ensures Matches(load, k.hub.schema, journal, w) {
      var i :| 0 <= i < |ws| && ws[i] == w;
      EntryMatches(k, journal, snaps, es[i]);
    }
    StitchedRange(read, load, k.hub.schema, ws, journal, from, to);
  }

  /** When no field is text and no timestamp is the reserved integer, nothing is lost at all but the
      difference between an absent field and a null one. */
  lemma ShownIsKept(s: Schema, ws: seq<WindowInfo>, r: Record)
    requires Validated(s, r) && NoCollision(s, r)
    ensures Shown(s, ws)(r) == r || Shown(s, ws)(r) == KeptRecord(s, r)
    ensures (forall n :: n in s.fields ==> IsStorable(s.fields[n].fieldType)) ==>
              forall n :: Get(Shown(s, ws)(r).fields, n) == Get(r.fields, n)
  {
    ExactIffNoCollision(s, r);
  }

  // ---------------------------------------------------------------- from a writer's run to an answer

  /** While a writer is open, its files read as what it committed. */
  lemma CommittedFilesRead(c: Journal.Codec, states: seq<Store>, acts: seq<Act>, dataset: string)
    requires Faithful(c) && Protocol.IsRun(c, states, acts) && states[|acts|].open.Some?
    ensures var s := states[|acts|];
            var journal := OfDataset(s.log, dataset);
            DistinctKeys(journal) && forall lo, hi :: FromFiles(c, s.files, dataset)(lo, hi) == Ok(Span(journal, lo, hi))
  {
    var s := states[|acts|];
    CommittedRecordsRead(c, states, acts, dataset);
    forall lo, hi ensures FromFiles(c, s.files, dataset)(lo, hi) == Ok(Span(OfDataset(s.log, dataset), lo, hi)) {
      HeldReads(c, s.files, dataset, OfDataset(s.log, dataset), lo, hi);
    }
  }

  /** From a writer's run to a range: after any opens, appends, crashes and repairs, a range over the
      files as they stand and windows freshly compiled from them is the span of what was committed. */
  lemma CommittedRange(c: Journal.Codec, states: seq<Store>, acts: seq<Act>, k: Kit, months: seq<nat>, es: seq<Entry>, snaps: Snapshots, from: int, to: int)
    requires Faithful(c) && Protocol.IsRun(c, states, acts) && states[|acts|].open.Some? && KitOk(k)
    requires var journal := OfDataset(states[|acts|].log, k.hub.schema.name);
             && AllValidated(k.hub.schema, journal) && StrictlyAscending(months)
             && FromScratch(k, OwnCompile(k, journal), months, es, snaps)
    ensures var s := states[|acts|];
            var journal := OfDataset(s.log, k.hub.schema.name);
            var pieces := Stitched(FromFiles(c, s.files, k.hub.schema.name), DecodeWindow(k.fmt, snaps), InfosOf(es), from, to);
            pieces.Ok? && SortRecords(pieces.value) == Project(Span(journal, from, to), Shown(k.hub.schema, InfosOf(es)))
  {
    var s := states[|acts|];
    CommittedFilesRead(c, states, acts, k.hub.schema.name);
    CompiledRangeReads(k, OfDataset(s.log, k.hub.schema.name), months, es, snaps,
                       FromFiles(c, s.files, k.hub.schema.name), from, to);
  }

  /** And to an answer: the journal read an `as_of` makes gives, for each key, the newest committed record
      visible then, and no other key. */
  lemma CommittedAnswer(c: Journal.Codec, states: seq<Store>, acts: seq<Act>, dataset: string, p: Policy, scope: string, t: int)
    requires Faithful(c) && Protocol.IsRun(c, states, acts) && states[|acts|].open.Some?
    requires TimesOk(OfDataset(states[|acts|].log, dataset))
    ensures var s := states[|acts|];
            var journal := OfDataset(s.log, dataset);
            var seen := FromFiles(c, s.files, dataset)(MIN_TIMESTAMP_MS, t);
            && seen.Ok? && NewestOf(Filter(seen.value, Visible(p, scope, t))) == AsOf(p, journal, scope, t)
            && IsAnswer(journal, Visible(p, scope, t), AsOf(p, journal, scope, t))
  {
    CommittedFilesRead(c, states, acts, dataset);
    AsOfIsAnswer(p, OfDataset(states[|acts|].log, dataset), scope, t);
  }
}
