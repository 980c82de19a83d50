/** Queries that stop early (hub/ui.py, `_day_stats`, `records`, `series`).

    Each opens day files in the order that lets it stop first, and answers as if it had opened them
    all. */
module Views {
  import opened Wrappers
  import opened Ordering
  import opened Records
  import opened Derive
  import opened Journal
  import opened Ranges
  import opened Incremental

  datatype Stamp = Stamp(size: nat, mtime: int)

  datatype DayFile = DayFile(day: int, stamp: Stamp, records: seq<Record>)

  datatype Stats = Stats(records: nat, lastSeq: nat)

  function StatsOf(rs: seq<Record>): Stats { Stats(|rs|, TopSeq(rs)) }

  /** A file that holds records, by its highest `seq`. */
  datatype Listed = Listed(lastSeq: nat, file: DayFile)

  predicate ListedFirst(a: Listed, b: Listed) {
    a.lastSeq > b.lastSeq || (a.lastSeq == b.lastSeq && a.file.day >= b.file.day)
  }

  predicate SeqDown(a: Record, b: Record) { a.seqNo >= b.seqNo }

  function Take<T>(s: seq<T>, n: nat): seq<T> { if |s| <= n then s else s[..n] }

  function Flat(files: seq<DayFile>): seq<Record> {
    if files == [] then [] else files[0].records + Flat(files[1..])
  }

  function FlatListed(ls: seq<Listed>): seq<Record> {
    if ls == [] then [] else ls[0].file.records + FlatListed(ls[1..])
  }

  function ListingOf(files: seq<DayFile>): seq<Listed> {
    if files == [] then []
    else
      var n := |files| - 1;
      ListingOf(files[..n]) + if files[n].records == [] then [] else [Listed(TopSeq(files[n].records), files[n])]
  }

  // ---------------------------------------------------------------- the first of a sort

  /** Adding what comes after the first `n` leaves the first `n` as they are. */
  lemma {:induction false} TopStays<T>(a: seq<T>, b: seq<T>, le: (T, T) -> bool, n: nat)
    requires Sorted(a, le) && n <= |a|
    requires forall i, x :: 0 <= i < n && x in b ==> le(a[i], x)
    ensures Take(Sort(a + b, le), n) == a[..n]
  {
    SortContents(a + b, le);
    if n == 0 {
    } else {
      var rest := Sort(a[1..] + b, le);
      assert (a + b)[1..] == a[1..] + b;
      TopStays(a[1..], b, le, n - 1);
      forall y | y in rest ensures le(a[0], y) {
        SortMember(a[1..] + b, le, y);
        if y in a[1..] { assert y in a; }
      }
      if rest != [] { assert rest[0] in rest; }
      assert Sort(a + b, le) == [a[0]] + rest;
    }
  }

  /** The first of the sort are the highest: in descending order of `seq`, and nothing left out is above the
      lowest of them. */
  lemma TopIsHighest(rs: seq<Record>, n: nat) returns (rest: seq<Record>)
    ensures var top := Take(Sort(rs, SeqDown), n);
            && |top| == (if |rs| < n then |rs| else n)
            && (forall i, j :: 0 <= i < j < |top| ==> top[i].seqNo >= top[j].seqNo)
            && multiset(top + rest) == multiset(rs)
            && forall i, j :: 0 <= i < |top| && 0 <= j < |rest| ==> rest[j].seqNo <= top[i].seqNo
  {
    var all := Sort(rs, SeqDown);
    var top := Take(all, n);
    SortContents(rs, SeqDown);
    SortSorted(rs, SeqDown);
    rest := all[|top|..];
    assert all == top + rest;
    forall i, j | 0 <= i < |top| && 0 <= j < |rest| ensures rest[j].seqNo <= top[i].seqNo {
      assert SeqDown(all[i], all[|top| + j]);
    }
  }

  // ---------------------------------------------------------------- the highest seqs

  lemma {:induction false} ListingContents(files: seq<DayFile>)
    ensures FlatListed(ListingOf(files)) == Flat(files)
    ensures forall l :: l in ListingOf(files) ==> l.lastSeq == TopSeq(l.file.records)
  {
    if files == [] {
    } else {
      var init, f := files[..|files| - 1], files[|files| - 1];
      ListingContents(init);
      assert files == init + [f];
      FlatSnoc(init, f);
      FlatListedSnoc(ListingOf(init), Listed(TopSeq(f.records), f));
      if f.records == [] { assert ListingOf(init) + [] == ListingOf(init) && Flat(init) + [] == Flat(init); }
    }
  }

  lemma {:induction false} FlatListedSnoc(ls: seq<Listed>, l: Listed)
    ensures FlatListed(ls + [l]) == FlatListed(ls) + l.file.records
  {
    if ls == [] {
      assert [l][1..] == [] && l.file.records + [] == l.file.records;
    } else {
      assert (ls + [l])[1..] == ls[1..] + [l];
      FlatListedSnoc(ls[1..], l);
    }
  }

  lemma {:induction false} FlatSnoc(files: seq<DayFile>, f: DayFile)
    ensures Flat(files + [f]) == Flat(files) + f.records
  {
    if files == [] {
      assert [f][1..] == [] && f.records + [] == f.records;
    } else {
      assert (files + [f])[1..] == files[1..] + [f];
      FlatSnoc(files[1..], f);
    }
  }

  lemma {:induction false} InsertListed(x: Listed, ls: seq<Listed>)
    ensures multiset(FlatListed(Insert(x, ls, ListedFirst))) == multiset(x.file.records) + multiset(FlatListed(ls))
  {
    if ls == [] || ListedFirst(x, ls[0]) {
      assert ([x] + ls)[1..] == ls;
    } else {
      InsertListed(x, ls[1..]);
      var t := Insert(x, ls[1..], ListedFirst);
      assert ([ls[0]] + t)[1..] == t;
    }
  }

  lemma {:induction false} SortListed(ls: seq<Listed>)
    ensures multiset(FlatListed(Sort(ls, ListedFirst))) == multiset(FlatListed(ls))
  {
    if ls == [] {
    } else {
      SortListed(ls[1..]);
      InsertListed(ls[0], Sort(ls[1..], ListedFirst));
    }
  }

  lemma {:induction false} FlatMember(ls: seq<Listed>, r: Record) returns (i: nat)
    requires r in FlatListed(ls)
    ensures i < |ls| && r in ls[i].file.records
  {
    if r in ls[0].file.records {
      i := 0;
    } else {
      i := FlatMember(ls[1..], r);
      i := i + 1;
    }
  }

  /** Files taken by their highest `seq`: nothing further on can beat the one at hand. */
  lemma UnreadIsLower(ls: seq<Listed>, i: nat, r: Record)
    requires Sorted(ls, ListedFirst) && i < |ls| && r in FlatListed(ls[i..])
    requires forall l :: l in ls ==> l.lastSeq == TopSeq(l.file.records)
    ensures r.seqNo <= ls[i].lastSeq
  {
    var k := FlatMember(ls[i..], r);
    assert ls[i..][k] == ls[i + k] && ls[i + k] in ls;
    TopSeqIs(ls[i + k].file.records);
    if k > 0 { assert ListedFirst(ls[i], ls[i + k]); }
  }

  ghost predicate DistinctSeqs(rs: seq<Record>) {
    forall i, j :: 0 <= i < |rs| && 0 <= j < |rs| && rs[i].seqNo == rs[j].seqNo ==> rs[i] == rs[j]
  }

  /** What was read so far decides the first `limit` when nothing unread can reach them. */
  lemma EnoughRead(all: seq<Record>, read: seq<Record>, unread: seq<Record>, n: nat)
    requires multiset(read + unread) == multiset(all) && DistinctSeqs(all)
    requires Sorted(read, SeqDown)
    requires unread == [] || (n <= |read| && forall i, x :: 0 <= i < n && x in unread ==> SeqDown(read[i], x))
    ensures Take(Sort(all, SeqDown), n) == Take(read, n)
  {
    SortOrderIndependent(all, read + unread, SeqDown);
    if unread == [] {
      assert read + unread == read;
      SortOfSorted(read, SeqDown);
    } else {
      TopStays(read, unread, SeqDown, n);
    }
  }

  /** Before file `i`: `rows` holds what was read, in order, and the rest is still in the files. */
  ghost predicate ReadTo(all: seq<Record>, ls: seq<Listed>, i: nat, rows: seq<Record>)
    requires i <= |ls|
  {
    Sorted(rows, SeqDown) && multiset(rows + FlatListed(ls[i..])) == multiset(all)
  }

  lemma ReadOne(all: seq<Record>, ls: seq<Listed>, i: nat, rows: seq<Record>)
    requires i < |ls| && ReadTo(all, ls, i, rows)
    ensures ReadTo(all, ls, i + 1, Sort(rows + ls[i].file.records, SeqDown))
  {
    ListedOrder();
    SortContents(rows + ls[i].file.records, SeqDown);
    SortSorted(rows + ls[i].file.records, SeqDown);
    assert ls[i..][1..] == ls[i + 1..];
  }

  lemma ListedOrder()
    ensures Preorder(ListedFirst) && Preorder(SeqDown)
  {}

  /** The files in the order they will be taken. */
  lemma ListingReady(files: seq<DayFile>)
    ensures var ls := Sort(ListingOf(files), ListedFirst);
            && ReadTo(Flat(files), ls, 0, []) && (ls == [] <==> Flat(files) == [])
            && Sorted(ls, ListedFirst) && forall l :: l in ls ==> l.lastSeq == TopSeq(l.file.records)
  {
    var ls := Sort(ListingOf(files), ListedFirst);
    ListingContents(files);
    SortListed(ListingOf(files));
    ListedOrder();
    SortSorted(ListingOf(files), ListedFirst);
    SortContents(ListingOf(files), ListedFirst);
    forall l | l in ls ensures l.lastSeq == TopSeq(l.file.records) { SortMember(ListingOf(files), ListedFirst, l); }
    ListingIsFilled(files);
    assert ls[0..] == ls && [] + FlatListed(ls) == FlatListed(ls);
  }

  lemma {:induction false} ListingIsFilled(files: seq<DayFile>)
    ensures ListingOf(files) == [] <==> Flat(files) == []
  {
    if files == [] {
    } else {
      var init, f := files[..|files| - 1], files[|files| - 1];
      ListingIsFilled(init);
      assert files == init + [f];
      FlatSnoc(init, f);
    }
  }

  /** Stopping at file `i`, whose highest seq the `limit`-th row already beats. */
  lemma StopHere(all: seq<Record>, ls: seq<Listed>, i: nat, rows: seq<Record>, limit: nat)
    requires i <= |ls| && ReadTo(all, ls, i, rows) && DistinctSeqs(all) && 1 <= limit
    requires Sorted(ls, ListedFirst) && forall l :: l in ls ==> l.lastSeq == TopSeq(l.file.records)
    requires i < |ls| ==> |rows| >= limit && ls[i].lastSeq < rows[limit - 1].seqNo
    ensures Take(Sort(all, SeqDown), limit) == Take(rows, limit)
  {
    var unread := FlatListed(ls[i..]);
    if i < |ls| {
      forall j, x | 0 <= j < limit && x in unread ensures SeqDown(rows[j], x) {
        UnreadIsLower(ls, i, x);
        if j < limit - 1 { assert SeqDown(rows[j], rows[limit - 1]); }
      }
    }
    EnoughRead(all, rows, unread, limit);
  }

  // ---------------------------------------------------------------- the newest values

  predicate KnownFirst(a: Record, b: Record) {
    a.knownAt < b.knownAt || (a.knownAt == b.knownAt && a.seqNo <= b.seqNo)
  }

  function Holding(scope: string, field: string): Record -> bool {
    (r: Record) => r.scope == scope && field in r.fields
  }

  /** Day files oldest first, each record in the file of its own day. */
  ghost predicate Dated(files: seq<DayFile>) {
    && (forall i, j :: 0 <= i < j < |files| ==> files[i].day < files[j].day)
    && (forall f, r :: f in files && r in f.records ==> DayOf(r.knownAt) == f.day)
  }

  /** All of one field in one scope, in order of being known. */
  function Timeline(files: seq<DayFile>, scope: string, field: string): seq<Record> {
    Sort(Filter(Flat(files), Holding(scope, field)), KnownFirst)
  }

  /** A timeline holds exactly the scope's records that carry the field, each as often as the files do, in
      order of `known_at` and then `seq`. */
  lemma TimelineHolds(files: seq<DayFile>, scope: string, field: string, r: Record)
    ensures multiset(Timeline(files, scope, field))[r] ==
            if r.scope == scope && field in r.fields then multiset(Flat(files))[r] else 0
    ensures forall i, j :: 0 <= i < j < |Timeline(files, scope, field)| ==>
              var x, y := Timeline(files, scope, field)[i], Timeline(files, scope, field)[j];
              x.knownAt < y.knownAt || (x.knownAt == y.knownAt && x.seqNo <= y.seqNo)
  {
    var own := Filter(Flat(files), Holding(scope, field));
    SortContents(own, KnownFirst);
    SortSorted(own, KnownFirst);
    FilterCount(Flat(files), Holding(scope, field), r);
  }

  lemma {:induction false} FlatDay(files: seq<DayFile>, r: Record) returns (i: nat)
    requires r in Flat(files)
    ensures i < |files| && r in files[i].records
  {
    if r in files[0].records {
      i := 0;
    } else {
      i := FlatDay(files[1..], r);
      i := i + 1;
    }
  }

  lemma {:induction false} FlatConcat(a: seq<DayFile>, b: seq<DayFile>)
    ensures Flat(a + b) == Flat(a) + Flat(b)
  {
    if a == [] {
      assert a + b == b;
    } else {
      assert (a + b)[1..] == a[1..] + b;
      FlatConcat(a[1..], b);
    }
  }

  /** Older files are known earlier. */
  lemma OlderIsEarlier(files: seq<DayFile>, i: nat, x: Record, y: Record)
    requires Dated(files) && i <= |files| && x in Flat(files[..i]) && y in Flat(files[i..])
    ensures KnownFirst(x, y) && !KnownFirst(y, x)
  {
    var a := FlatDay(files[..i], x);
    var b := FlatDay(files[i..], y);
    assert files[..i][a] == files[a] && files[i..][b] == files[i + b];
    assert files[a] in files && files[i + b] in files;
    assert DayOf(x.knownAt) < DayOf(y.knownAt);
    if y.knownAt <= x.knownAt { DaysFollowTime(y.knownAt, x.knownAt); }
  }

  /** The timeline falls into the part from older files and the part from newer ones. */
  lemma TimelineSplits(files: seq<DayFile>, i: nat, scope: string, field: string)
    requires Dated(files) && i <= |files|
    ensures Timeline(files, scope, field) == Timeline(files[..i], scope, field) + Timeline(files[i..], scope, field)
  {
    var p := Holding(scope, field);
    var older, newer := Filter(Flat(files[..i]), p), Filter(Flat(files[i..]), p);
    assert files == files[..i] + files[i..];
    FlatConcat(files[..i], files[i..]);
    FilterConcat(Flat(files[..i]), Flat(files[i..]), p);
    forall x, y | x in older && y in newer ensures KnownFirst(x, y) {
      FilterMember(Flat(files[..i]), p, x);
      FilterMember(Flat(files[i..]), p, y);
      OlderIsEarlier(files, i, x, y);
    }
    SortLowHigh(older, newer, KnownFirst);
  }

  /** One file further back: its values go in front. */
  lemma OneFileBack(files: seq<DayFile>, i: nat, scope: string, field: string, rows: seq<Record>)
    requires Dated(files) && 0 < i <= |files|
    requires Sort(rows, KnownFirst) == Timeline(files[i..], scope, field)
    ensures Sort(rows + Filter(files[i - 1].records, Holding(scope, field)), KnownFirst) == Timeline(files[i - 1..], scope, field)
  {
    var p, f := Holding(scope, field), files[i - 1];
    var own, newer := Filter(f.records, p), Filter(Flat(files[i..]), p);
    assert files[i - 1..] == [f] + files[i..] && files[i - 1..][1..] == files[i..];
    FilterConcat(f.records, Flat(files[i..]), p);
    assert files[..i] == files[..i - 1] + [f];
    FlatSnoc(files[..i - 1], f);
    forall x, y | x in own && y in rows ensures KnownFirst(x, y) && !KnownFirst(y, x) {
      SortMember(rows, KnownFirst, y);
      SortMember(newer, KnownFirst, y);
      FilterMember(Flat(files[i..]), p, y);
      FilterMember(f.records, p, x);
      OlderIsEarlier(files, i, x, y);
    }
    forall x, y | x in own && y in newer ensures KnownFirst(x, y) {
      FilterMember(Flat(files[i..]), p, y);
      FilterMember(f.records, p, x);
      OlderIsEarlier(files, i, x, y);
    }
    SortHighLow(rows, own, KnownFirst);
    SortLowHigh(own, newer, KnownFirst);
  }

  lemma LastOfLonger<T>(a: seq<T>, b: seq<T>, n: nat)
    requires n <= |b|
    ensures Last(a + b, n) == Last(b, n)
  {}

  // ---------------------------------------------------------------- the view

  datatype QueryError = BadLimit

  class View {
    var cache: map<int, (Stamp, Stats)>
    /** What each version of each day file held: a file whose size and time of change have not moved
        has not changed. */
    ghost const versions: (int, Stamp) -> seq<Record>

    ghost predicate Valid()
      reads this
    {
      forall d :: d in cache ==> cache[d].1 == StatsOf(versions(d, cache[d].0))
    }

    ghost predicate Unforged(files: seq<DayFile>) { forall f :: f in files ==> f.records == versions(f.day, f.stamp) }

    constructor (ghost versions: (int, Stamp) -> seq<Record>)
      ensures Valid() && this.versions == versions && cache == map[]
    {
      this.versions := versions;
      cache := map[];
    }

    /** `_day_stats`: counted once per version of a file. */
    method DayStats(f: DayFile) returns (stats: Stats)
      requires Valid() && f.records == versions(f.day, f.stamp)
      modifies this`cache
      ensures Valid() && stats == StatsOf(f.records)
      ensures cache == old(cache)[f.day := (f.stamp, stats)]
    {
      if f.day in cache && cache[f.day].0 == f.stamp {
        assert cache == cache[f.day := (f.stamp, cache[f.day].1)];
        return cache[f.day].1;
      }
      stats := StatsOf(f.records);
      cache := cache[f.day := (f.stamp, stats)];
    }

    method Listing(files: seq<DayFile>) returns (out: seq<Listed>)
      requires Valid() && Unforged(files)
      modifies this`cache
      ensures Valid() && out == Sort(ListingOf(files), ListedFirst)
    {
      var listed: seq<Listed> := [];
      for i := 0 to |files|
        invariant Valid() && listed == ListingOf(files[..i])
      {
        assert files[i] in files;
        var stats := DayStats(files[i]);
        assert files[..i + 1][..i] == files[..i];
        if stats.records != 0 { listed := listed + [Listed(stats.lastSeq, files[i])]; }
      }
      assert files[..|files|] == files;
      return Sort(listed, ListedFirst);
    }

    /** `records`: the `limit` highest seqs of all the files, reading only those that can hold them;
        a limit below one fails unless every file is empty. */
    method Records(files: seq<DayFile>, limit: int) returns (r: Result<seq<Record>, QueryError>)
      requires Valid() && Unforged(files) && DistinctSeqs(Flat(files))
      modifies this`cache
      ensures Valid()
      ensures r.Err? <==> limit < 1 && Flat(files) != []
      ensures r.Ok? ==> r.value == Take(Sort(Flat(files), SeqDown), if limit < 1 then 0 else limit)
    {
      var ls := Listing(files);
      ListingReady(files);
      var rows: seq<Record> := [];
      var i := 0;
      while i < |ls|
        invariant 0 <= i <= |ls| && (i > 0 ==> limit >= 1) && Valid()
        invariant ReadTo(Flat(files), ls, i, rows)
      {
        if |rows| >= limit {
          if limit < 1 { return Err(BadLimit); }
          if ls[i].lastSeq < rows[limit - 1].seqNo { break; }
        }
        ReadOne(Flat(files), ls, i, rows);
        rows := Sort(rows + ls[i].file.records, SeqDown);
        i := i + 1;
      }
      if limit < 1 { return Ok([]); }
      StopHere(Flat(files), ls, i, rows, limit);
      return Ok(Take(rows, limit));
    }
  }

  /** `series`: the last `limit` values of the whole timeline, reading newest files first. */
  method Series(files: seq<DayFile>, scope: string, field: string, limit: nat) returns (rows: seq<Record>)
    requires Dated(files)
    ensures rows == Last(Timeline(files, scope, field), limit)
  {
    rows := [];
    var i := |files|;
    while i > 0
      invariant 0 <= i <= |files|
      invariant Sort(rows, KnownFirst) == Timeline(files[i..], scope, field)
    {
      if |rows| >= limit { break; }
      OneFileBack(files, i, scope, field, rows);
      i := i - 1;
      rows := rows + Filter(files[i].records, Holding(scope, field));
    }
    SortContents(rows, KnownFirst);
    TimelineSplits(files, i, scope, field);
    if i > 0 {
      LastOfLonger(Timeline(files[..i], scope, field), Timeline(files[i..], scope, field), limit);
    } else {
      assert files[0..] == files;
    }
    rows := Last(Sort(rows, KnownFirst), limit);
  }
}
