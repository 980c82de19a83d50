/** Compiling a journal into monthly snapshots (hub/compiler.py).

    `CompileOne` is the plain definition: one month, from its own read and its own verification.
    `CompileMany` is the fast path, one read and one verification for any number of months, and is
    proved to give each month exactly what `CompileOne` gives it. */
module Compiler {
  import opened Wrappers
  import opened Ordering
  import opened Records
  import opened Pipeline
  import opened Ingestion
  import opened Agreement
  import opened Bytes
  import opened Snapshot
  import opened Calendar
  import opened Ranges

  /** A dataset's schema and arithmetic, and what the snapshot format takes from outside. */
  datatype Kit = Kit(hub: Hub, fmt: Layout)

  ghost predicate KitOk(k: Kit) { Usable(k.hub) && LayoutOk(k.fmt) }

  datatype CompileError = Unreadable | Mismatch | Unencodable

  datatype Window = Window(month: nat, data: Buffer, sha: Buffer, records: nat, rawDeps: seq<string>)

  function MonthEnd(m: nat): int { MonthStart(m + 1) - 1 }

  function InMonth(m: nat): Record -> bool { KnownIn(MonthStart(m), MonthEnd(m)) }

  predicate TimesOk(journal: seq<Record>) { forall r :: r in journal ==> TimestampOk(r.knownAt) }

  // ---------------------------------------------------------------- one window

  /** `_write_window`: encode the records of one month out of a history. */
  function WriteWindow(k: Kit, history: seq<Record>, m: nat): Result<Window, CompileError>
    requires forall n :: n in k.hub.schema.declared ==> n in k.hub.schema.fields
  {
    var rs := SortRecords(Filter(history, InMonth(m)));
    match Encode(k.fmt, k.hub.schema, rs)
    case None => Err(Unencodable)
    case Some(data) => Ok(Window(m, data, k.fmt.sha(data), |rs|, Dictionary(RawRefs(rs))))
  }

  /** `compile_dataset`: verify everything known by the month's end, then write the month. */
  ghost function CompileOne(k: Kit, journal: seq<Record>, m: nat): Result<Window, CompileError>
    requires KitOk(k)
  {
    var history := Span(journal, MIN_TIMESTAMP_MS, MonthEnd(m));
    if !Verified(k.hub, history) then Err(Mismatch) else WriteWindow(k, history, m)
  }

  // ---------------------------------------------------------------- many windows

  function Least(ms: seq<nat>): (m: nat)
    requires ms != []
    ensures m in ms && forall x :: x in ms ==> m <= x
  {
    assert ms == [ms[0]] + ms[1..];
    if |ms| == 1 then ms[0] else var rest := Least(ms[1..]); if ms[0] < rest then ms[0] else rest
  }

  function Greatest(ms: seq<nat>): (m: nat)
    requires ms != []
    ensures m in ms && forall x :: x in ms ==> x <= m
  {
    assert ms == [ms[0]] + ms[1..];
    if |ms| == 1 then ms[0] else var rest := Greatest(ms[1..]); if ms[0] > rest then ms[0] else rest
  }

  /** The windows written before the first refusal, and that refusal. */
  datatype Batch = Batch(windows: seq<Window>, error: Option<CompileError>)

  /** Write windows one after another until one is refused. */
  function WriteEach(write: nat -> Result<Window, CompileError>, ms: seq<nat>): Batch {
    if ms == [] then Batch([], None)
    else
      var init := WriteEach(write, ms[..|ms| - 1]);
      if init.error.Some? then init
      else match write(ms[|ms| - 1])
        case Ok(w) => Batch(init.windows + [w], None)
        case Err(e) => Batch(init.windows, Some(e))
  }

  function Writer(k: Kit, history: seq<Record>): nat -> Result<Window, CompileError>
    requires forall n :: n in k.hub.schema.declared ==> n in k.hub.schema.fields
  {
    (m: nat) => WriteWindow(k, history, m)
  }

  /** Where the shared read begins: without derived fields only the windows being written matter. */
  function ReadFrom(k: Kit, ms: seq<nat>): int
    requires ms != []
  {
    if k.hub.schema.derivedOrder == [] then MonthStart(Least(ms)) else MIN_TIMESTAMP_MS
  }

  /** `compile_windows`. */
  ghost function CompileMany(k: Kit, journal: seq<Record>, ms: seq<nat>): Batch
    requires KitOk(k)
  {
    if ms == [] then Batch([], None)
    else
      var history := Span(journal, ReadFrom(k, ms), MonthEnd(Greatest(ms)));
      if !Verified(k.hub, history) then Batch([], Some(Mismatch)) else WriteEach(Writer(k, history), ms)
  }

  // ---------------------------------------------------------------- verifying less

  /** In `sort_key` order, what was known by a moment stands first. */
  lemma {:induction false} KnownByIsPrefix(rs: seq<Record>, from: int, t: int) returns (n: nat)
    requires forall i, j :: 0 <= i < j < |rs| ==> rs[i].knownAt <= rs[j].knownAt
    requires forall r :: r in rs ==> from <= r.knownAt
    ensures n <= |rs| && Filter(rs, KnownIn(from, t)) == rs[..n]
  {
    if rs == [] || rs[|rs| - 1].knownAt <= t {
      n := |rs|;
      FilterAll(rs, KnownIn(from, t));
    } else {
      var init := rs[..|rs| - 1];
      n := KnownByIsPrefix(init, from, t);
      assert rs == init + [rs[|rs| - 1]];
      FilterConcat(init, [rs[|rs| - 1]], KnownIn(from, t));
      assert Filter(init, KnownIn(from, t)) + [] == Filter(init, KnownIn(from, t));
    }
  }

  /** A verified history is verified up to every earlier moment. */
  lemma VerifiedPrefix(hub: Hub, rs: seq<Record>, n: nat)
    requires Usable(hub) && Verified(hub, rs) && n <= |rs|
    ensures Verified(hub, rs[..n])
  {
    forall scope ensures WalkOk(hub, OfScope(rs[..n], scope)) {
      assert rs == rs[..n] + rs[n..];
      FilterConcat(rs[..n], rs[n..], InScope(scope));
      var whole, part := OfScope(rs, scope), OfScope(rs[..n], scope);
      assert whole[..|part|] == part;
      WalkPrefix(hub, whole, |part|);
    }
  }

  lemma VerifiedEarlier(hub: Hub, journal: seq<Record>, to: int, earlier: int)
    requires Usable(hub) && earlier <= to && Verified(hub, Span(journal, MIN_TIMESTAMP_MS, to))
    ensures Verified(hub, Span(journal, MIN_TIMESTAMP_MS, earlier))
  {
    var history := Span(journal, MIN_TIMESTAMP_MS, to);
    SpanWithin(journal, MIN_TIMESTAMP_MS, to, MIN_TIMESTAMP_MS, earlier);
    KeyOrder();
    SortSorted(Filter(journal, KnownIn(MIN_TIMESTAMP_MS, to)), KeyLe);
    forall r | r in history ensures MIN_TIMESTAMP_MS <= r.knownAt { SpanMember(journal, MIN_TIMESTAMP_MS, to, r); }
    forall i, j | 0 <= i < j < |history| ensures history[i].knownAt <= history[j].knownAt {
      assert KeyLe(history[i], history[j]);
    }
    var n := KnownByIsPrefix(history, MIN_TIMESTAMP_MS, earlier);
    VerifiedPrefix(hub, history, n);
  }

  // ---------------------------------------------------------------- writing from a longer history

  /** Any history that reaches over a month yields that month's records. */
  lemma MonthOfHistory(journal: seq<Record>, from: int, to: int, m: nat)
    requires forall r :: r in journal && InMonth(m)(r) ==> from <= r.knownAt <= to
    ensures Filter(Span(journal, from, to), InMonth(m)) == Span(journal, MonthStart(m), MonthEnd(m))
  {
    KeyOrder();
    FilterSort(Filter(journal, KnownIn(from, to)), KeyLe, InMonth(m));
    FilterTwice(journal, KnownIn(from, to), InMonth(m), InMonth(m));
  }

  lemma MonthsNest(m: nat, n: nat)
    requires m <= n
    ensures MonthStart(m) <= MonthStart(n) && MonthEnd(m) <= MonthEnd(n)
  {
    MonthsAscend(m, n);
    MonthsAscend(m + 1, n + 1);
  }

  /** The shared history gives each month the window its own history gives it. */
  lemma SameWindow(k: Kit, journal: seq<Record>, ms: seq<nat>, m: nat)
    requires KitOk(k) && TimesOk(journal) && m in ms
    ensures WriteWindow(k, Span(journal, ReadFrom(k, ms), MonthEnd(Greatest(ms))), m) ==
            WriteWindow(k, Span(journal, MIN_TIMESTAMP_MS, MonthEnd(m)), m)
  {
    MonthsNest(Least(ms), m);
    MonthsNest(m, Greatest(ms));
    MonthOfHistory(journal, ReadFrom(k, ms), MonthEnd(Greatest(ms)), m);
    MonthOfHistory(journal, MIN_TIMESTAMP_MS, MonthEnd(m), m);
  }

  /** The shared verification accepts exactly when every window's own verification does. */
  lemma SameVerdict(k: Kit, journal: seq<Record>, ms: seq<nat>)
    requires KitOk(k) && ms != []
    ensures Verified(k.hub, Span(journal, ReadFrom(k, ms), MonthEnd(Greatest(ms)))) <==>
            forall m :: m in ms ==> Verified(k.hub, Span(journal, MIN_TIMESTAMP_MS, MonthEnd(m)))
  {
    var top := MonthEnd(Greatest(ms));
    if k.hub.schema.derivedOrder == [] {
      forall rs: seq<Record>, scope ensures WalkOk(k.hub, OfScope(rs, scope)) {
        NothingDerivedNothingToCheck(k.hub, OfScope(rs, scope));
      }
    } else if Verified(k.hub, Span(journal, MIN_TIMESTAMP_MS, top)) {
      forall m | m in ms ensures Verified(k.hub, Span(journal, MIN_TIMESTAMP_MS, MonthEnd(m))) {
        MonthsNest(m, Greatest(ms));
        VerifiedEarlier(k.hub, journal, top, MonthEnd(m));
      }
    }
  }

  /** What a list of windows was written from. */
  lemma {:induction false} BatchWrites(write: nat -> Result<Window, CompileError>, ms: seq<nat>)
    ensures var all := WriteEach(write, ms);
            && |all.windows| <= |ms|
            && (forall i :: 0 <= i < |all.windows| ==> write(ms[i]) == Ok(all.windows[i]))
            && (all.error.None? ==> |all.windows| == |ms|)
            && (all.error.Some? ==> |all.windows| < |ms| && write(ms[|all.windows|]).Err?)
  {
    if ms != [] { BatchWrites(write, ms[..|ms| - 1]); }
  }

  /** `pass` holds what `one` gives each month of `ms`, up to the first refusal. */
  ghost predicate Pointwise(one: nat -> Result<Window, CompileError>, ms: seq<nat>, pass: Batch) {
    && |pass.windows| <= |ms|
    && (forall i :: 0 <= i < |pass.windows| ==> one(ms[i]) == Ok(pass.windows[i]))
    && (pass.error.None? ==> |pass.windows| == |ms|)
    && (pass.error.None? <==> forall m :: m in ms ==> one(m).Ok?)
  }

  lemma SharedPass(one: nat -> Result<Window, CompileError>, write: nat -> Result<Window, CompileError>, ms: seq<nat>, verified: bool)
    requires verified ==> forall m :: m in ms ==> one(m) == write(m)
    requires !verified ==> exists m :: m in ms && one(m).Err?
    ensures Pointwise(one, ms, if verified then WriteEach(write, ms) else Batch([], Some(Mismatch)))
  {
    BatchWrites(write, ms);
    var pass := WriteEach(write, ms);
    if verified && pass.error.None? {
      forall m | m in ms ensures one(m).Ok? {
        var i :| 0 <= i < |ms| && ms[i] == m;
        assert write(ms[i]) == Ok(pass.windows[i]);
      }
    }
  }

  ghost function OwnCompile(k: Kit, journal: seq<Record>): nat -> Result<Window, CompileError>
    requires KitOk(k)
  {
    (m: nat) => CompileOne(k, journal, m)
  }

  lemma CompileOneBy(k: Kit, journal: seq<Record>, m: nat)
    requires KitOk(k)
    ensures OwnCompile(k, journal)(m) ==
            if Verified(k.hub, Span(journal, MIN_TIMESTAMP_MS, MonthEnd(m)))
            then Writer(k, Span(journal, MIN_TIMESTAMP_MS, MonthEnd(m)))(m) else Err(Mismatch)
  {}

  /** One pass equals many: every window the shared pass writes is, to the byte, the window
      `compile_dataset` writes, and the shared pass fails only if some window's own compile fails. */
  lemma OnePassEqualsMany(k: Kit, journal: seq<Record>, ms: seq<nat>)
    requires KitOk(k) && TimesOk(journal)
    ensures Pointwise(OwnCompile(k, journal), ms, CompileMany(k, journal, ms))
  {
    if ms != [] {
      var history := Span(journal, ReadFrom(k, ms), MonthEnd(Greatest(ms)));
      SameVerdict(k, journal, ms);
      forall m | m in ms
        ensures Writer(k, history)(m) == Writer(k, Span(journal, MIN_TIMESTAMP_MS, MonthEnd(m)))(m)
      {
        SameWindow(k, journal, ms, m);
      }
      forall m | m in ms
        ensures Verified(k.hub, history) ==> OwnCompile(k, journal)(m) == Writer(k, history)(m)
        ensures !Verified(k.hub, Span(journal, MIN_TIMESTAMP_MS, MonthEnd(m))) ==> OwnCompile(k, journal)(m).Err?
      {
        CompileOneBy(k, journal, m);
      }
      SharedPass(OwnCompile(k, journal), Writer(k, history), ms, Verified(k.hub, history));
    }
  }

  // ---------------------------------------------------------------- determinism

  /** Permuting the journal's lines changes no byte. */
  lemma CompileOrderIndependent(k: Kit, a: seq<Record>, b: seq<Record>, m: nat)
    requires KitOk(k) && multiset(a) == multiset(b) && DistinctKeys(a)
    ensures CompileOne(k, a, m) == CompileOne(k, b, m)
  {
    SpanOrderIndependent(a, b, MIN_TIMESTAMP_MS, MonthEnd(m));
  }

  /** A month does not see what is appended after its end. */
  lemma LaterAppendsUnseen(k: Kit, journal: seq<Record>, added: seq<Record>, m: nat)
    requires KitOk(k) && forall r :: r in added ==> MonthEnd(m) < r.knownAt
    ensures CompileOne(k, journal + added, m) == CompileOne(k, journal, m)
  {
    var p := KnownIn(MIN_TIMESTAMP_MS, MonthEnd(m));
    FilterConcat(journal, added, p);
    FilterNone(added, p);
    assert Filter(journal, p) + [] == Filter(journal, p);
  }

  /** A written window holds exactly the month's records. */
  lemma WindowCounts(k: Kit, journal: seq<Record>, m: nat)
    requires KitOk(k) && TimesOk(journal) && CompileOne(k, journal, m).Ok?
    ensures CompileOne(k, journal, m).value.month == m
    ensures CompileOne(k, journal, m).value.records == |Filter(journal, InMonth(m))|
    ensures CompileOne(k, journal, m).value.sha == k.fmt.sha(CompileOne(k, journal, m).value.data)
  {
    MonthOfHistory(journal, MIN_TIMESTAMP_MS, MonthEnd(m), m);
    SortContents(Span(journal, MonthStart(m), MonthEnd(m)), KeyLe);
    SortContents(Filter(journal, InMonth(m)), KeyLe);
  }

  /** A window's lineage is the raw files its month's records came from, ascending and each once. */
  lemma WindowLineage(k: Kit, journal: seq<Record>, m: nat)
    requires KitOk(k) && TimesOk(journal) && CompileOne(k, journal, m).Ok?
    ensures var deps := CompileOne(k, journal, m).value.rawDeps;
            && (forall d :: d in deps <==> exists r :: r in journal && InMonth(m)(r) && r.rawRef == Some(d))
            && forall i, j :: 0 <= i < j < |deps| ==> StrLess(deps[i], deps[j])
  {
    var own, rs := Filter(journal, InMonth(m)), SortRecords(Filter(Span(journal, MIN_TIMESTAMP_MS, MonthEnd(m)), InMonth(m)));
    MonthOfHistory(journal, MIN_TIMESTAMP_MS, MonthEnd(m), m);
    forall r ensures r in rs <==> r in journal && InMonth(m)(r) {
      SortMember(Span(journal, MonthStart(m), MonthEnd(m)), KeyLe, r);
      SortMember(own, KeyLe, r);
      FilterMember(journal, InMonth(m), r);
    }
    forall d ensures d in Dictionary(RawRefs(rs)) <==> exists r :: r in journal && InMonth(m)(r) && r.rawRef == Some(d) {
      DictionaryMembers(RawRefs(rs), d);
      RawRefMembers(rs, d);
    }
    DictionaryAscends(RawRefs(rs));
  }
}
