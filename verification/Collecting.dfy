/** A collector with a cache (hub/__main__.py, `_history_for`, `_fingerprint`, `collect_once`).

    A process keeps its index and histories between polls and throws them away when the dataset's
    files have changed since.  Only its own live passes are folded into what it keeps: a backfill
    builds its own state and shows here as files that changed. */
module Collecting {
  import opened Wrappers
  import opened Ordering
  import opened Records
  import opened Dedupe
  import opened Pipeline
  import opened Ingestion
  import opened Restart

  // ---------------------------------------------------------------- what is kept

  /** What one process keeps between polls, with the fingerprint of the files it was built from.
      A fingerprint (names, sizes, times) stands for the files' contents. */
  datatype Kept = Kept(fingerprint: seq<Record>, index: RevisionIndex, history: HistoryTable)

  /** The order a state built from `base` and kept since has folded the journal in. */
  function KeptOrder(base: seq<Record>, journal: seq<Record>): seq<Record>
    requires |base| <= |journal|
  {
    SortRecords(base) + journal[|base|..]
  }

  /** `st` was rebuilt when the journal was `base` and has folded everything appended since. */
  ghost predicate KeptFrom(hub: Hub, base: seq<Record>, journal: seq<Record>, st: State)
    requires Usable(hub)
  {
    |base| <= |journal| && base == journal[..|base|] && FoldsTo(hub, KeptOrder(base, journal), st)
  }

  lemma KeptOrderHolds(base: seq<Record>, journal: seq<Record>)
    requires |base| <= |journal| && base == journal[..|base|]
    ensures multiset(KeptOrder(base, journal)) == multiset(journal)
  {
    SortContents(base, KeyLe);
    assert journal == base + journal[|base|..];
  }

  lemma RebuiltIsKept(hub: Hub, journal: seq<Record>, st: State)
    requires Usable(hub) && Equivalent(st, Rebuilt(hub, journal))
    ensures KeptFrom(hub, journal, journal, st)
  {
    RebuiltIsFold(hub, journal, st);
    assert journal[..|journal|] == journal && KeptOrder(journal, journal) == SortRecords(journal);
  }

  /** Exactly when what is kept is what a restart would rebuild: nothing looks back, or every key ends
      alike in the order kept and in `sort_key` order. */
  lemma KeptIsRebuiltIff(hub: Hub, base: seq<Record>, journal: seq<Record>, st: State)
    requires Usable(hub) && Lawful(hub, journal) && KeptFrom(hub, base, journal, st)
    ensures Equivalent(st, Rebuilt(hub, journal)) <==>
            Reach(hub.schema) == 0 || LastAlike(KeptOrder(base, journal), SortRecords(journal))
  {
    KeptOrderHolds(base, journal);
    FoldIsRebuiltIff(hub, journal, KeptOrder(base, journal), st);
  }

  lemma OrderlyEndsAlike(base: seq<Record>, added: seq<Record>, scope: string, key: string)
    requires RevisedInOrder(base + added) && KnownInOrder(base + added)
    ensures OwnOf(SortRecords(base) + added, scope, key) == OwnOf(SortRecords(base + added), scope, key)
  {
    LaterPart(base, added);
    assert KnownInOrder(base) by {
      assert forall i :: 0 <= i < |base| ==> base[i] == (base + added)[i];
    }
    SortKeepsKeyOrder(base + added, scope, key);
    SortKeepsKeyOrder(base, scope, key);
    OwnConcat(base, added, scope, key);
    OwnConcat(SortRecords(base), added, scope, key);
  }

  /** So it is when each key's revisions have non-decreasing `known_at`. */
  lemma OrderlyIsRebuilt(hub: Hub, base: seq<Record>, journal: seq<Record>, st: State)
    requires Usable(hub) && Lawful(hub, journal) && KeptFrom(hub, base, journal, st) && KnownInOrder(journal)
    ensures Equivalent(st, Rebuilt(hub, journal))
  {
    var added := journal[|base|..];
    assert journal == base + added;
    forall scope, key ensures LastFact(KeptOrder(base, journal), scope, key) == LastFact(SortRecords(journal), scope, key) {
      OrderlyEndsAlike(base, added, scope, key);
    }
    KeptIsRebuiltIff(hub, base, journal, st);
  }

  /** A pass keeps a kept state kept, over the grown journal. */
  lemma PassStaysKept(hub: Hub, pass: Pass, base: seq<Record>, journal: seq<Record>, st: State, cs: seq<Candidate>)
    requires Usable(hub) && Lawful(hub, journal) && KeptFrom(hub, base, journal, st)
    ensures var grown := journal + AddedBy(hub, pass, st, cs, |journal|);
            Lawful(hub, grown) && KeptFrom(hub, base, grown, IngestAll(hub, pass, st, cs).0)
  {
    var added := AddedBy(hub, pass, st, cs, |journal|);
    KeptOrderHolds(base, journal);
    IngestFolds(hub, pass, st, cs, KeptOrder(base, journal), |journal|);
    IngestIsLawful(hub, pass, st, cs, journal, KeptOrder(base, journal), |journal|);
    assert (journal + added)[|base|..] == journal[|base|..] + added;
    assert KeptOrder(base, journal + added) == KeptOrder(base, journal) + added;
  }

  /** The journal a collect leaves, as if its state had been rebuilt from disk first. */
  ghost function Collected(hub: Hub, pass: Pass, journal: seq<Record>, cs: seq<Candidate>): seq<Record>
    requires Usable(hub)
  {
    AddedBy(hub, pass, Rebuilt(hub, journal), cs, |journal|)
  }

  lemma PrefixIsLawful(hub: Hub, a: seq<Record>, b: seq<Record>, n: nat)
    requires Lawful(hub, a + b) && n <= |b|
    ensures Lawful(hub, a + b[..n])
  {
    assert a + b == (a + b[..n]) + b[n..];
    LaterPart(a + b[..n], b[n..]);
    forall r | r in a + b[..n] ensures r in a + b {}
  }

  /** What one collect did: from `was` and `st` to `now` and `after`, cut short unless `ok`. */
  ghost predicate Gathered(hub: Hub, pass: Pass, cs: seq<Candidate>, failAt: Option<nat>,
                           was: seq<Record>, st: State, now: seq<Record>, after: State, ok: bool)
    requires Usable(hub)
  {
    var added := AddedBy(hub, pass, st, cs, |was|);
    && (ok <==> failAt.None? || failAt.value >= |added|)
    && now == was + (if ok then added else added[..failAt.value])
    && after == IngestAll(hub, pass, st, cs).0
  }

  lemma GatheredBy(hub: Hub, pass: Pass, cs: seq<Candidate>, failAt: Option<nat>,
                   was: seq<Record>, st: State, now: seq<Record>, ok: bool, base: seq<Record>, rs: seq<Record>)
    requires Usable(hub) && Lawful(hub, was) && KeptFrom(hub, base, was, st)
    requires rs == WrittenOf(IngestAll(hub, pass, st, cs).1) && |Stamped(|was|, rs)| == |rs|
    requires ok <==> failAt.None? || failAt.value >= |rs|
    requires now == was + if ok then Stamped(|was|, rs) else Stamped(|was|, rs)[..failAt.value]
    ensures Gathered(hub, pass, cs, failAt, was, st, now, IngestAll(hub, pass, st, cs).0, ok)
    ensures Lawful(hub, now) && |AddedBy(hub, pass, st, cs, |was|)| == |rs|
    ensures ok ==> KeptFrom(hub, base, now, IngestAll(hub, pass, st, cs).0)
  {
    PassStaysKept(hub, pass, base, was, st, cs);
    if !ok { PrefixIsLawful(hub, was, Stamped(|was|, rs), failAt.value); }
  }

  /** The journal grew by what a rebuilt state would write, up to the append that raised. */
  ghost predicate Grows(hub: Hub, pass: Pass, cs: seq<Candidate>, failAt: Option<nat>,
                        was: seq<Record>, now: seq<Record>, written: Option<nat>)
    requires Usable(hub)
  {
    var added := Collected(hub, pass, was, cs);
    if failAt.Some? && failAt.value < |added| then now == was + added[..failAt.value] && written.None?
    else now == was + added && written == Some(|added|)
  }

  /** The clock is at or past everything journalled. */
  predicate AtFront(pass: Pass, journal: seq<Record>) { pass.live && forall q :: q in journal ==> q.knownAt <= pass.now }

  /** From the rebuilt state, a collect adds what the rebuilt state would, and at the front of time it
      leaves the rebuilt state; over an orderly journal it always does. */
  lemma GatheredMeans(hub: Hub, pass: Pass, cs: seq<Candidate>, failAt: Option<nat>,
                      was: seq<Record>, st: State, now: seq<Record>, after: State, ok: bool, base: seq<Record>)
    requires Usable(hub) && Lawful(hub, was) && Lawful(hub, now) && Gathered(hub, pass, cs, failAt, was, st, now, after, ok)
    requires ok ==> KeptFrom(hub, base, now, after)
    ensures Equivalent(st, Rebuilt(hub, was)) ==>
              Grows(hub, pass, cs, failAt, was, now, if ok then Some(|AddedBy(hub, pass, st, cs, |was|)|) else None)
    ensures ok && Equivalent(st, Rebuilt(hub, was)) && AtFront(pass, was) ==> Equivalent(after, Rebuilt(hub, now))
    ensures ok && KnownInOrder(now) ==> Equivalent(after, Rebuilt(hub, now))
  {
    if Equivalent(st, Rebuilt(hub, was)) {
      IngestRespects(hub, pass, st, Rebuilt(hub, was), cs);
      if ok && AtFront(pass, was) { LatePassKeepsCache(hub, pass, st, cs, was); }
    }
    if ok && KnownInOrder(now) { OrderlyIsRebuilt(hub, base, now, after); }
  }

  ghost predicate Apart(index: RevisionIndex, history: HistoryTable)
    reads history
  {
    && index as object != history
    && index as object !in history.Members() && history as object !in history.Members()
  }

  /** What is kept still matches the files. */
  predicate Fresh(cached: Option<Kept>, journal: seq<Record>) {
    cached.Some? && cached.value.fingerprint == journal
  }

  /** The kept objects hold `state`; while the files have not moved, that was kept up to date. */
  ghost predicate Holding(hub: Hub, cached: Kept, state: State, base: seq<Record>, journal: seq<Record>)
    requires Usable(hub)
    reads cached.index, cached.history, cached.history.Members()
  {
    && cached.history.Valid() && Apart(cached.index, cached.history)
    && StateOf(cached.index, cached.history) == state
    && (cached.fingerprint == journal ==> KeptFrom(hub, base, journal, state))
  }

  /** The kept state if the files are still the ones it was built from, else a rebuild. */
  method Recall(hub: Hub, journal: seq<Record>, cached: Option<Kept>, ghost state: State, ghost base: seq<Record>)
    returns (index: RevisionIndex, history: HistoryTable, ghost st: State, ghost from: seq<Record>)
    requires Usable(hub) && (cached.Some? ==> Holding(hub, cached.value, state, base, journal))
    ensures history.Valid() && Apart(index, history)
    ensures StateOf(index, history) == st && KeptFrom(hub, from, journal, st)
    ensures if Fresh(cached, journal)
            then index == cached.value.index && history == cached.value.history && st == state
            else fresh(index) && fresh(history) && fresh(history.Members()) && Equivalent(st, Rebuilt(hub, journal))
  {
    if Fresh(cached, journal) {
      return cached.value.index, cached.value.history, state, base;
    }
    index, history := HistoryFor(hub, Some(journal));
    st, from := StateOf(index, history), journal;
    RebuiltIsKept(hub, journal, st);
  }

  // ---------------------------------------------------------------- the process

  class Collector {
    const hub: Hub
    var journal: seq<Record>      // the dataset's files, in the order the lines were appended
    var kept: Option<Kept>
    ghost var state: State        // what the kept objects hold
    ghost var base: seq<Record>   // the journal as it was when that state was rebuilt
    ghost var Repr: set<object>   // the kept objects

    constructor (hub: Hub, journal: seq<Record>)
      requires Usable(hub) && Lawful(hub, journal)
      ensures this.hub == hub && this.journal == journal && kept.None? && Valid() && Current()
    {
      this.hub := hub;
      this.journal := journal;
      kept, state, base, Repr := None, State(map[], map[]), [], {};
    }

    /** Whatever is kept, unless the files have changed since, was rebuilt once and kept up to date. */
    ghost predicate Valid()
      reads this, Repr
    {
      && Usable(hub) && Lawful(hub, journal) && this !in Repr
      && (kept.Some? ==>
            var k := kept.value;
            && {k.index, k.history} <= Repr && k.history.Members() <= Repr
            && Holding(hub, k, state, base, journal) && |k.fingerprint| <= |journal|)
    }

    /** The state the next collect will use is what a restart would rebuild. */
    ghost predicate Current()
      reads this
      requires Usable(hub)
    {
      Fresh(kept, journal) ==> Equivalent(state, Rebuilt(hub, journal))
    }

    /** Objects taken out of the cache, or rebuilt, that hold `st`, kept up to date. */
    ghost predicate Taken(index: RevisionIndex, history: HistoryTable, st: State)
      reads this, index, history, history.Members()
    {
      && Usable(hub) && Lawful(hub, journal) && kept.None? && this !in Repr
      && history.Valid() && Apart(index, history)
      && this as object != index && this as object != history && this !in history.Members()
      && StateOf(index, history) == st && KeptFrom(hub, base, journal, st)
    }

    /** A backfill or another process appends to the same dataset. */
    method OtherWriter(rs: seq<Record>)
      requires Valid() && Lawful(hub, journal + rs)
      modifies this`journal
      ensures journal == old(journal) + rs && kept == old(kept) && Valid()
      ensures rs != [] || old(Current()) ==> Current()
    {
      assert rs == [] ==> journal + rs == journal;
      journal := journal + rs;
    }

    /** Take the state out of the cache if the files are still the ones it was built from, else rebuild
        it. */
    method Take() returns (index: RevisionIndex, history: HistoryTable, ghost st: State)
      requires Valid()
      modifies this`kept, this`base
      ensures Taken(index, history, st)
      ensures old(Current()) ==> Equivalent(st, Rebuilt(hub, journal))
      ensures fresh({index, history} + history.Members() - Repr)
    {
      var cached := kept;
      kept := None;
      ghost var from;
      index, history, st, from := Recall(hub, journal, cached, state, base);
      base := from;
    }

    /** Append each record under the next sequence number, until an append raises. */
    method AppendAll(rs: seq<Record>, failAt: Option<nat>) returns (ok: bool)
      modifies this`journal
      ensures ok <==> failAt.None? || failAt.value >= |rs|
      ensures |Stamped(|old(journal)|, rs)| == |rs|
      ensures journal == old(journal) + if ok then Stamped(|old(journal)|, rs) else Stamped(|old(journal)|, rs)[..failAt.value]
    {
      ghost var n := |journal|;
      StampedLength(n, rs);
      for i := 0 to |rs|
        invariant journal == old(journal) + Stamped(n, rs[..i])
        invariant failAt.Some? ==> i <= failAt.value
      {
        if failAt == Some(i) {
          StampedPrefix(n, rs, i);
          return false;
        }
        StampedSnoc(n, rs[..i], rs[i]);
        assert rs[..i + 1] == rs[..i] + [rs[i]];
        journal := journal + [rs[i].(seqNo := |journal| + 1)];
      }
      assert rs[..|rs|] == rs;
      return true;
    }

    /** Ingest into the given state and append what it wrote. */
    method Gather(pass: Pass, cs: seq<Candidate>, failAt: Option<nat>, index: RevisionIndex, history: HistoryTable, ghost st: State)
      returns (ok: bool, count: nat, ghost after: State)
      requires Usable(hub) && Lawful(hub, journal) && history.Valid() && Apart(index, history)
      requires this as object != index && this as object != history && this !in history.Members()
      requires StateOf(index, history) == st && KeptFrom(hub, base, journal, st)
      modifies this`journal, index, history, history.Members()
      ensures history.Valid() && Apart(index, history) && this !in history.Members()
      ensures fresh(history.Members() - old(history.Members()))
      ensures StateOf(index, history) == after && Gathered(hub, pass, cs, failAt, old(journal), st, journal, after, ok)
      ensures Lawful(hub, journal) && |AddedBy(hub, pass, st, cs, |old(journal)|)| == count
      ensures ok ==> KeptFrom(hub, base, journal, after)
    {
      ghost var was := journal;
      var result, _ := Ingest(hub, pass, cs, index, history);
      after := StateOf(index, history);
      count := |result.records|;
      ok := AppendAll(result.records, failAt);
      GatheredBy(hub, pass, cs, failAt, was, st, journal, ok, base, result.records);
    }

    /** Remember a state with the fingerprint of the files as they now are. */
    method Keep(index: RevisionIndex, history: HistoryTable, ghost st: State)
      requires Usable(hub) && Lawful(hub, journal) && history.Valid() && Apart(index, history)
      requires this as object != index && this as object != history && this !in history.Members()
      requires StateOf(index, history) == st && KeptFrom(hub, base, journal, st)
      modifies this`kept, this`state, this`Repr
      ensures Valid() && kept == Some(Kept(journal, index, history)) && state == st
      ensures Repr == {index, history} + history.Members()
    {
      kept, state := Some(Kept(journal, index, history)), st;
      Repr := {index, history} + history.Members();
    }

    /** Ingest, append and, when every append went through, remember. */
    method Absorb(pass: Pass, cs: seq<Candidate>, failAt: Option<nat>, index: RevisionIndex, history: HistoryTable, ghost st: State)
      returns (written: Option<nat>)
      requires Taken(index, history, st)
      modifies this, index, history, history.Members()
      ensures Valid() && (kept.Some? <==> written.Some?)
      ensures fresh(Repr - old(Repr) - old({index, history} + history.Members()))
      ensures Equivalent(st, Rebuilt(hub, old(journal))) ==> Grows(hub, pass, cs, failAt, old(journal), journal, written)
      ensures (Equivalent(st, Rebuilt(hub, old(journal))) && AtFront(pass, old(journal))) || KnownInOrder(journal) ==> Current()
    {
      ghost var was := journal;
      var ok, count, after := Gather(pass, cs, failAt, index, history, st);
      GatheredMeans(hub, pass, cs, failAt, was, st, journal, after, ok, base);
      if !ok { return None; }
      Keep(index, history, after);
      written := Some(count);
    }

    /** Fetch once and journal what survives; `failAt` is the append that raises, if one does.  From a
        current cache the journal grows by what a freshly rebuilt state would write, and a live clock
        at or past every journalled `known_at` leaves the cache current, whatever backfills the journal
        holds. */
    method CollectOnce(pass: Pass, cs: seq<Candidate>, failAt: Option<nat>) returns (written: Option<nat>)
      requires Valid()
      modifies this, Repr
      ensures Valid() && fresh(Repr - old(Repr))
      ensures old(Current()) ==> Grows(hub, pass, cs, failAt, old(journal), journal, written)
      ensures (old(Current()) && AtFront(pass, old(journal))) || KnownInOrder(journal) ==> Current()
      ensures kept.Some? <==> written.Some?
    {
      var index, history, st := Take();      // dropped until this collect finishes cleanly
      written := Absorb(pass, cs, failAt, index, history, st);
    }
  }
}
