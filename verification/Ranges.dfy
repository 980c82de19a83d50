/** Reading back a span of time (hubread/journal.py, `read_range`).

    A historical read opens only the day files its bounds touch, and answers in `sort_key` order
    whatever order the lines stand in. */
module Ranges {
  import opened Wrappers
  import opened Ordering
  import opened Records
  import opened Journal
  import opened Protocol

  function KnownIn(from: int, to: int): Record -> bool { (r: Record) => from <= r.knownAt <= to }

  /** The records known in `[from, to]`, in `sort_key` order. */
  function Span(journal: seq<Record>, from: int, to: int): seq<Record> {
    SortRecords(Filter(journal, KnownIn(from, to)))
  }

  /** A span is in order of `known_at`, then scope, key, revision and `seq`. */
  lemma SpanInOrder(journal: seq<Record>, from: int, to: int, i: nat, j: nat)
    requires i < j < |Span(journal, from, to)|
    ensures var a, b := Span(journal, from, to)[i], Span(journal, from, to)[j];
            || a.knownAt < b.knownAt
            || (a.knownAt == b.knownAt && StrLess(a.scope, b.scope))
            || (a.knownAt == b.knownAt && a.scope == b.scope && StrLess(a.key, b.key))
            || (a.knownAt == b.knownAt && a.scope == b.scope && a.key == b.key && a.revision < b.revision)
            || (a.knownAt == b.knownAt && a.scope == b.scope && a.key == b.key && a.revision == b.revision && a.seqNo <= b.seqNo)
  {
    KeyOrder();
    SortSorted(Filter(journal, KnownIn(from, to)), KeyLe);
    var a, b := Span(journal, from, to)[i], Span(journal, from, to)[j];
    assert KeyLe(a, b);
    StrTotal(a.scope, b.scope);
    StrTotal(a.key, b.key);
  }

  /** The dataset's day files hold exactly these records, each in the file of its own day. */
  ghost predicate Holds(c: Codec, files: Files, dataset: string, journal: seq<Record>) {
    && (forall p :: p in files && p.dataset == dataset ==> ReadDayFile(c, files[p]) == Ok(OfPath(journal, p)))
    && (forall r :: r in journal ==> r.dataset == dataset && PathOf(r) in files)
  }

  predicate DayIn(d: int, from: int, to: int) { DayOf(from) <= d <= DayOf(to) }

  /** What has been gathered once the files of `days` are read. */
  ghost predicate Gathered(journal: seq<Record>, days: seq<int>, from: int, to: int, out: seq<Record>) {
    forall r :: multiset(out)[r] ==
      if KnownIn(from, to)(r) && DayOf(r.knownAt) in days then multiset(journal)[r] else 0
  }

  lemma GatherDay(journal: seq<Record>, dataset: string, days: seq<int>, d: int, from: int, to: int, out: seq<Record>)
    requires Gathered(journal, days, from, to, out) && d !in days
    requires forall r :: r in journal ==> r.dataset == dataset
    ensures Gathered(journal, days + [d], from, to,
                     out + Filter(OfPath(journal, Path(dataset, d)), KnownIn(from, to)))
  {
    var own := OfPath(journal, Path(dataset, d));
    forall r
      ensures multiset(out + Filter(own, KnownIn(from, to)))[r] ==
              if KnownIn(from, to)(r) && DayOf(r.knownAt) in days + [d] then multiset(journal)[r] else 0
    {
      FilterCount(own, KnownIn(from, to), r);
      FilterCount(journal, AtPath(Path(dataset, d)), r);
      assert r !in journal ==> multiset(journal)[r] == 0;
    }
  }

  lemma SkipDay(journal: seq<Record>, days: seq<int>, d: int, from: int, to: int, out: seq<Record>)
    requires Gathered(journal, days, from, to, out) && !DayIn(d, from, to)
    ensures Gathered(journal, days + [d], from, to, out)
  {
    forall r | KnownIn(from, to)(r) ensures DayIn(DayOf(r.knownAt), from, to) {
      DaysFollowTime(from, r.knownAt);
      DaysFollowTime(r.knownAt, to);
    }
  }

  lemma DaysFollowTime(t: int, u: int)
    requires t <= u
    ensures DayOf(t) <= DayOf(u)
  {}

  lemma EverythingGathered(journal: seq<Record>, days: seq<int>, from: int, to: int, out: seq<Record>)
    requires Gathered(journal, days, from, to, out) && DistinctKeys(journal)
    requires forall r :: r in journal ==> DayOf(r.knownAt) in days
    ensures SortRecords(out) == Span(journal, from, to)
  {
    var wanted := Filter(journal, KnownIn(from, to));
    forall r ensures multiset(out)[r] == multiset(wanted)[r] {
      FilterCount(journal, KnownIn(from, to), r);
      assert r !in journal ==> multiset(journal)[r] == 0;
    }
    assert multiset(out) == multiset(wanted);
    forall r | r in wanted ensures r in journal { FilterMember(journal, KnownIn(from, to), r); }
    DistinctAmong(wanted, journal);
    SortRecordsOrderIndependent(wanted, out);
  }

  lemma DistinctAmong(some: seq<Record>, all: seq<Record>)
    requires DistinctKeys(all) && forall r :: r in some ==> r in all
    ensures DistinctKeys(some)
  {
    forall i, j | 0 <= i < |some| && 0 <= j < |some| && SameKey(some[i], some[j])
      ensures some[i] == some[j]
    {
      assert some[i] in all && some[j] in all;
      var a :| 0 <= a < |all| && all[a] == some[i];
      var b :| 0 <= b < |all| && all[b] == some[j];
    }
  }

  // ---------------------------------------------------------------- the read itself

  /** A dataset's days, oldest first. */
  ghost function DaysOf(files: Files, dataset: string): (days: seq<int>)
    ensures ListsDays(files, dataset, days)
  {
    var found := set p | p in files && p.dataset == dataset :: p.day;
    AscendingListExists(found);
    var days :| Ascends(days) && forall d :: d in days <==> d in found;
    assert forall d :: Path(dataset, d) in files ==> Path(dataset, d).day in found;
    days
  }

  lemma SameDays(files: Files, dataset: string, a: seq<int>, b: seq<int>)
    requires ListsDays(files, dataset, a) && ListsDays(files, dataset, b)
    ensures a == b
  {
    AscendingPrefix(a, b);
    AscendingPrefix(b, a);
  }

  /** Opening day after day, keeping what lies in the interval; the first malformed line ends it. */
  function GatherDays(c: Codec, files: Files, dataset: string, days: seq<int>, from: int, to: int): Result<seq<Record>, ReadError> {
    if days == [] then Ok([])
    else
      var n := |days| - 1;
      var init :- GatherDays(c, files, dataset, days[..n], from, to);
      if !DayIn(days[n], from, to) then Ok(init)
      else
        var rs :- ReadDayFile(c, Content(files, Path(dataset, days[n])));
        Ok(init + Filter(rs, KnownIn(from, to)))
  }

  /** What `read_range` answers from these files. */
  ghost function ReadSpan(c: Codec, files: Files, dataset: string, from: int, to: int): Result<seq<Record>, ReadError> {
    var out :- GatherDays(c, files, dataset, DaysOf(files, dataset), from, to);
    Ok(SortRecords(out))
  }

  lemma {:induction false} GatherFails(c: Codec, files: Files, dataset: string, days: seq<int>, from: int, to: int, n: nat)
    requires n <= |days| && GatherDays(c, files, dataset, days[..n], from, to).Err?
    ensures GatherDays(c, files, dataset, days, from, to) == GatherDays(c, files, dataset, days[..n], from, to)
    decreases |days|
  {
    if n == |days| {
      assert days[..n] == days;
    } else {
      assert days[..|days| - 1][..n] == days[..n];
      GatherFails(c, files, dataset, days[..|days| - 1], from, to, n);
    }
  }

  lemma {:induction false} HeldGathers(c: Codec, files: Files, dataset: string, journal: seq<Record>, days: seq<int>, from: int, to: int)
    requires Holds(c, files, dataset, journal) && Ascends(days) && forall d :: d in days ==> Path(dataset, d) in files
    ensures var out := GatherDays(c, files, dataset, days, from, to); out.Ok? && Gathered(journal, days, from, to, out.value)
  {
    if days == [] {
    } else {
      var init, d := days[..|days| - 1], days[|days| - 1];
      assert days == init + [d];
      HeldGathers(c, files, dataset, journal, init, from, to);
      var out := GatherDays(c, files, dataset, init, from, to).value;
      if DayIn(d, from, to) {
        GatherDay(journal, dataset, init, d, from, to, out);
      } else {
        SkipDay(journal, init, d, from, to, out);
      }
    }
  }

  /** Files that hold a journal are read as its span. */
  lemma HeldReads(c: Codec, files: Files, dataset: string, journal: seq<Record>, from: int, to: int)
    requires Holds(c, files, dataset, journal) && DistinctKeys(journal)
    ensures ReadSpan(c, files, dataset, from, to) == Ok(Span(journal, from, to))
  {
    var days := DaysOf(files, dataset);
    HeldGathers(c, files, dataset, journal, days, from, to);
    forall q | q in journal ensures DayOf(q.knownAt) in days { assert PathOf(q) == Path(dataset, DayOf(q.knownAt)); }
    EverythingGathered(journal, days, from, to, GatherDays(c, files, dataset, days, from, to).value);
  }

  /** `read_range`: refused if and only if a day file it must open holds a malformed line. */
  method ReadRange(c: Codec, files: Files, dataset: string, from: int, to: int, ghost journal: seq<Record>)
    returns (r: Result<seq<Record>, ReadError>)
    ensures r == ReadSpan(c, files, dataset, from, to)
    ensures r.Ok? <==> forall p :: p in files && p.dataset == dataset && DayIn(p.day, from, to) ==>
                         ReadDayFile(c, files[p]).Ok?
    ensures Holds(c, files, dataset, journal) && DistinctKeys(journal) ==> r == Ok(Span(journal, from, to))
  {
    var days := ListDayFiles(files, dataset);
    SameDays(files, dataset, days, DaysOf(files, dataset));
    if Holds(c, files, dataset, journal) && DistinctKeys(journal) { HeldReads(c, files, dataset, journal, from, to); }
    var out: seq<Record> := [];
    for i := 0 to |days|
      invariant GatherDays(c, files, dataset, days[..i], from, to) == Ok(out)
      invariant forall j :: 0 <= j < i && DayIn(days[j], from, to) ==> ReadDayFile(c, files[Path(dataset, days[j])]).Ok?
    {
      assert days[..i + 1][..i] == days[..i] && days[i] in days;
      if !DayIn(days[i], from, to) { continue; }
      var read := ReadDayFile(c, files[Path(dataset, days[i])]);
      if read.Err? {
        GatherFails(c, files, dataset, days, from, to, i + 1);
        return Err(read.error);
      }
      out := out + Filter(read.value, KnownIn(from, to));
    }
    forall p | p in files && p.dataset == dataset && DayIn(p.day, from, to)
      ensures ReadDayFile(c, files[p]).Ok?
    {
      assert p == Path(dataset, p.day) && p.day in days;
    }
    assert days[..|days|] == days;
    return Ok(SortRecords(out));
  }

  // ---------------------------------------------------------------- what a span does not depend on

  /** Permuting lines changes no answer. */
  lemma SpanOrderIndependent(a: seq<Record>, b: seq<Record>, from: int, to: int)
    requires multiset(a) == multiset(b) && DistinctKeys(a)
    ensures Span(a, from, to) == Span(b, from, to)
  {
    var p := KnownIn(from, to);
    forall r ensures multiset(Filter(a, p))[r] == multiset(Filter(b, p))[r] {
      FilterCount(a, p, r);
      FilterCount(b, p, r);
    }
    assert multiset(Filter(a, p)) == multiset(Filter(b, p));
    forall r | r in Filter(a, p) ensures r in a { FilterMember(a, p, r); }
    DistinctAmong(Filter(a, p), a);
    SortRecordsOrderIndependent(Filter(a, p), Filter(b, p));
  }

  lemma SpanMember(journal: seq<Record>, from: int, to: int, r: Record)
    ensures r in Span(journal, from, to) <==> r in journal && from <= r.knownAt <= to
  {
    SortMember(Filter(journal, KnownIn(from, to)), KeyLe, r);
    FilterMember(journal, KnownIn(from, to), r);
  }

  /** A selection of a span by time is the narrower span. */
  lemma SpanWithin(journal: seq<Record>, from: int, to: int, lo: int, hi: int)
    requires from <= lo && hi <= to
    ensures Filter(Span(journal, from, to), KnownIn(lo, hi)) == Span(journal, lo, hi)
  {
    KeyOrder();
    FilterSort(Filter(journal, KnownIn(from, to)), KeyLe, KnownIn(lo, hi));
    FilterTwice(journal, KnownIn(from, to), KnownIn(lo, hi), KnownIn(lo, hi));
  }

  // ---------------------------------------------------------------- what a writer leaves

  lemma NumberedIsDistinct(rs: seq<Record>)
    requires Numbered(rs)
    ensures DistinctKeys(rs)
  {}

  /** While a writer is open, after any run, the files hold the dataset's committed records and
      their sort keys are distinct: every historical read answers with exactly what was committed. */
  lemma CommittedRecordsRead(c: Codec, states: seq<Store>, acts: seq<Act>, dataset: string)
    requires Faithful(c) && IsRun(c, states, acts) && states[|acts|].open.Some?
    ensures var s := states[|acts|];
            Holds(c, s.files, dataset, OfDataset(s.log, dataset)) && DistinctKeys(OfDataset(s.log, dataset))
  {
    var s := states[|acts|];
    var journal := OfDataset(s.log, dataset);
    RunKeepsInv(c, states, acts, |acts|);
    NumberedIsDistinct(journal);
    forall p | p in s.files && p.dataset == dataset
      ensures ReadDayFile(c, s.files[p]) == Ok(OfPath(journal, p))
    {
      DiskIsLog(c, s, p);
      FilterTwice(s.log, InDataset(dataset), AtPath(p), AtPath(p));
    }
    forall r | r in journal ensures r.dataset == dataset && PathOf(r) in s.files {
      FilterMember(s.log, InDataset(dataset), r);
    }
  }
}
