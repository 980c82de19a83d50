/** What was visible at an instant (hubread/reader.py, `_visible_records`, `as_of`).

    An answer names, for each key, the highest revision that could have been known by then; what is
    ingested later cannot change it. */
module Visibility {
  import opened Ordering
  import opened Records
  import opened Pipeline
  import opened Ingestion
  import opened Agreement
  import opened Ranges
  import opened Compiler

  datatype Policy = Policy(minLag: nat, refuseDerived: bool)

  /** The visibility rule: this scope's records, at least `minLag` old at `t`. */
  function Visible(p: Policy, scope: string, t: int): Record -> bool {
    (r: Record) => r.scope == scope && !(p.refuseDerived && r.availability.Derived?) && r.knownAt + p.minLag <= t
  }

  function VisibleRecords(p: Policy, journal: seq<Record>, scope: string, t: int): seq<Record> {
    Filter(Span(journal, MIN_TIMESTAMP_MS, t), Visible(p, scope, t))
  }

  predicate Newer(a: Record, b: Record) {
    if a.revision != b.revision then a.revision > b.revision
    else if a.knownAt != b.knownAt then a.knownAt > b.knownAt
    else a.seqNo > b.seqNo
  }

  type Answer = map<string, Record>

  function Prefer(latest: Answer, r: Record): Answer {
    if r.key !in latest || Newer(r, latest[r.key]) then latest[r.key := r] else latest
  }

  function NewestOf(rs: seq<Record>): Answer {
    if rs == [] then map[] else Prefer(NewestOf(rs[..|rs| - 1]), rs[|rs| - 1])
  }

  /** `as_of`. */
  function AsOf(p: Policy, journal: seq<Record>, scope: string, t: int): Answer {
    NewestOf(VisibleRecords(p, journal, scope, t))
  }

  // ---------------------------------------------------------------- what an answer is

  /** No record seen of its key has a higher revision; none of that revision was known later, and none
      of those known then was written later. */
  ghost predicate IsNewest(rs: seq<Record>, sees: Record -> bool, r: Record) {
    r in rs && sees(r) && forall q :: q in rs && sees(q) && q.key == r.key ==>
      && q.revision <= r.revision
      && (q.revision == r.revision ==> q.knownAt <= r.knownAt)
      && (q.revision == r.revision && q.knownAt == r.knownAt ==> q.seqNo <= r.seqNo)
  }

  /** The answer has exactly the keys of what is seen, and for each its newest record. */
  ghost predicate IsAnswer(rs: seq<Record>, sees: Record -> bool, answer: Answer) {
    && (forall r :: r in rs && sees(r) ==> r.key in answer)
    && (forall key :: key in answer ==> answer[key].key == key && IsNewest(rs, sees, answer[key]))
  }

  lemma PreferIsAnswer(rs: seq<Record>, sees: Record -> bool, was: Answer, r: Record)
    requires IsAnswer(rs, sees, was)
    ensures IsAnswer(rs + [r], sees, if sees(r) then Prefer(was, r) else was)
  {
    var all, now := rs + [r], if sees(r) then Prefer(was, r) else was;
    assert forall q :: q in all <==> q in rs || q == r;
    forall key | key in now ensures now[key].key == key && IsNewest(all, sees, now[key]) {
      if key in was { assert IsNewest(rs, sees, was[key]); }
    }
  }

  lemma {:induction false} NewestIsAnswer(rs: seq<Record>)
    ensures IsAnswer(rs, _ => true, NewestOf(rs))
  {
    if rs == [] {
    } else {
      var n := |rs| - 1;
      NewestIsAnswer(rs[..n]);
      PreferIsAnswer(rs[..n], _ => true, NewestOf(rs[..n]), rs[n]);
      assert rs == rs[..n] + [rs[n]];
    }
  }

  lemma VisibleMember(p: Policy, journal: seq<Record>, scope: string, t: int, r: Record)
    ensures r in VisibleRecords(p, journal, scope, t) <==> r in journal && r.knownAt >= MIN_TIMESTAMP_MS && Visible(p, scope, t)(r)
  {
    FilterMember(Span(journal, MIN_TIMESTAMP_MS, t), Visible(p, scope, t), r);
    SpanMember(journal, MIN_TIMESTAMP_MS, t, r);
  }

  /** Bounding the journal read by `t` loses nothing: the answer is the newest visible record of
      every key over the whole journal, and of no other key. */
  lemma AsOfIsAnswer(p: Policy, journal: seq<Record>, scope: string, t: int)
    requires TimesOk(journal)
    ensures IsAnswer(journal, Visible(p, scope, t), AsOf(p, journal, scope, t))
  {
    var seen := VisibleRecords(p, journal, scope, t);
    NewestIsAnswer(seen);
    forall r ensures r in seen <==> r in journal && Visible(p, scope, t)(r) {
      VisibleMember(p, journal, scope, t, r);
      assert r in journal ==> TimestampOk(r.knownAt);
    }
    var answer := AsOf(p, journal, scope, t);
    forall key | key in answer ensures answer[key].key == key && IsNewest(journal, Visible(p, scope, t), answer[key]) {
      assert IsNewest(seen, _ => true, answer[key]);
    }
  }

  /** No look-ahead: nothing in an answer was known later than `minLag` before `t`. */
  lemma NoLookAhead(p: Policy, journal: seq<Record>, scope: string, t: int, key: string)
    requires TimesOk(journal) && key in AsOf(p, journal, scope, t)
    ensures var r := AsOf(p, journal, scope, t)[key];
            && r.key == key && r.scope == scope && r in journal
            && r.knownAt + p.minLag <= t && !(p.refuseDerived && r.availability.Derived?)
  {
    AsOfIsAnswer(p, journal, scope, t);
    assert IsNewest(journal, Visible(p, scope, t), AsOf(p, journal, scope, t)[key]);
  }

  /** The journalled records of one key that may be shown at `t`. */
  ghost function Showable(p: Policy, journal: seq<Record>, scope: string, t: int, key: string): set<Record> {
    set q | q in journal && q.key == key && q.scope == scope && q.knownAt + p.minLag <= t
            && (p.refuseDerived ==> q.availability != Derived)
  }

  /** What an answer is, in so many words: a key is answered if and only if some journalled record of it in
      the scope was known at least `minLag` before `t` and may be shown, and the record answered is, of
      those, the one of the highest revision, then known last, then written last. */
  lemma AnswersExactly(p: Policy, journal: seq<Record>, scope: string, t: int, key: string)
    requires TimesOk(journal)
    ensures var answer := AsOf(p, journal, scope, t);
            && (key in answer <==> Showable(p, journal, scope, t, key) != {})
            && (key in answer ==> answer[key] in Showable(p, journal, scope, t, key))
            && (key in answer ==> forall q :: q in Showable(p, journal, scope, t, key) ==>
                  && q.revision <= answer[key].revision
                  && (q.revision == answer[key].revision ==> q.knownAt <= answer[key].knownAt)
                  && (q.revision == answer[key].revision && q.knownAt == answer[key].knownAt ==> q.seqNo <= answer[key].seqNo))
  {
    AsOfIsAnswer(p, journal, scope, t);
    var answer, sees := AsOf(p, journal, scope, t), Visible(p, scope, t);
    if key in answer {
      assert IsNewest(journal, sees, answer[key]);
      assert answer[key] in Showable(p, journal, scope, t, key);
    }
    if q :| q in Showable(p, journal, scope, t, key) { assert q in journal && sees(q); }
  }

  /** One scope's answer is unique when sort keys are distinct. */
  lemma AnswerIsUnique(rs: seq<Record>, sees: Record -> bool, a: Answer, b: Answer, scope: string)
    requires DistinctKeys(rs) && forall r :: sees(r) ==> r.scope == scope
    requires IsAnswer(rs, sees, a) && IsAnswer(rs, sees, b)
    ensures a == b
  {
    forall key ensures key in a <==> key in b {
      if key in a { assert IsNewest(rs, sees, a[key]); }
      if key in b { assert IsNewest(rs, sees, b[key]); }
    }
    forall key | key in a ensures a[key] == b[key] {
      assert IsNewest(rs, sees, a[key]) && IsNewest(rs, sees, b[key]);
      assert SameKey(a[key], b[key]);
    }
  }

  // ---------------------------------------------------------------- one more record

  lemma PreferIfNewest(rs: seq<Record>, sees: Record -> bool, was: Answer, r: Record, scope: string)
    requires IsAnswer(rs, sees, was) && sees(r) && r.key in was
    requires DistinctKeys(rs + [r]) && forall q :: sees(q) ==> q.scope == scope
    ensures Prefer(was, r) == if IsNewest(rs + [r], sees, r) then was[r.key := r] else was
  {
    var q := was[r.key];
    assert IsNewest(rs, sees, q);
    assert q in rs + [r] && r in rs + [r];
    if Newer(r, q) {
      forall x | x in rs + [r] && sees(x) && x.key == r.key
        ensures !Newer(x, r)
      {
        if x != r { assert x in rs; }
      }
    } else if IsNewest(rs + [r], sees, r) {
      assert SameKey(q, r);
    }
  }

  /** Exactly what an appended record does to an answer: nothing, unless it is visible and its key showed
      nothing or nothing as new. */
  lemma AsOfAfterAppend(p: Policy, journal: seq<Record>, r: Record, scope: string, t: int)
    requires TimesOk(journal + [r]) && DistinctKeys(journal + [r])
    ensures var was := AsOf(p, journal, scope, t);
            AsOf(p, journal + [r], scope, t) ==
            if Visible(p, scope, t)(r) && (r.key !in was || IsNewest(journal + [r], Visible(p, scope, t), r))
            then was[r.key := r] else was
  {
    AsOfPrefers(p, journal, r, scope, t);
    AsOfAnswers(p, journal, r, scope, t);
    if Visible(p, scope, t)(r) && r.key in AsOf(p, journal, scope, t) {
      PreferIfNewest(journal, Visible(p, scope, t), AsOf(p, journal, scope, t), r, scope);
    }
  }

  lemma AsOfAnswers(p: Policy, journal: seq<Record>, r: Record, scope: string, t: int)
    requires TimesOk(journal + [r])
    ensures IsAnswer(journal, Visible(p, scope, t), AsOf(p, journal, scope, t))
  {
    assert forall q :: q in journal ==> q in journal + [r];
    AsOfIsAnswer(p, journal, scope, t);
  }

  lemma AsOfPrefers(p: Policy, journal: seq<Record>, r: Record, scope: string, t: int)
    requires TimesOk(journal + [r]) && DistinctKeys(journal + [r])
    ensures AsOf(p, journal + [r], scope, t) ==
            if Visible(p, scope, t)(r) then Prefer(AsOf(p, journal, scope, t), r) else AsOf(p, journal, scope, t)
  {
    var was, sees := AsOf(p, journal, scope, t), Visible(p, scope, t);
    AsOfIsAnswer(p, journal + [r], scope, t);
    AsOfAnswers(p, journal, r, scope, t);
    PreferIsAnswer(journal, sees, was, r);
    AnswerIsUnique(journal + [r], sees, AsOf(p, journal + [r], scope, t), if sees(r) then Prefer(was, r) else was, scope);
  }

  // ---------------------------------------------------------------- the past stays put

  lemma VisibleBy(p: Policy, journal: seq<Record>, scope: string, t: int, sees: Record -> bool)
    requires forall r :: sees(r) == (KnownIn(MIN_TIMESTAMP_MS, t)(r) && Visible(p, scope, t)(r))
    ensures VisibleRecords(p, journal, scope, t) == SortRecords(Filter(journal, sees))
  {
    KeyOrder();
    FilterSort(Filter(journal, KnownIn(MIN_TIMESTAMP_MS, t)), KeyLe, Visible(p, scope, t));
    FilterTwice(journal, KnownIn(MIN_TIMESTAMP_MS, t), Visible(p, scope, t), sees);
  }

  /** Records nobody may see yet leave every answer as it was. */
  lemma UnseenChangesNothing(p: Policy, journal: seq<Record>, added: seq<Record>, scope: string, t: int)
    requires forall r :: r in added ==> !Visible(p, scope, t)(r)
    ensures AsOf(p, journal + added, scope, t) == AsOf(p, journal, scope, t)
  {
    var sees := (r: Record) => KnownIn(MIN_TIMESTAMP_MS, t)(r) && Visible(p, scope, t)(r);
    VisibleBy(p, journal, scope, t, sees);
    VisibleBy(p, journal + added, scope, t, sees);
    FilterConcat(journal, added, sees);
    FilterNone(added, sees);
    assert Filter(journal, sees) + [] == Filter(journal, sees);
  }

  /** Later than `t`: a live pass whose clock is past it, or a backfill of derived facts. */
  predicate LaterThan(t: int, e: Event) {
    if e.pass.live then t < e.pass.now else e.candidate.availability.Derived?
  }

  /** What one later event journals is invisible at `t`. */
  lemma LaterIsUnseen(hub: Hub, p: Policy, w: World, e: Event, scope: string, t: int)
    requires Usable(hub) && p.refuseDerived && LaterThan(t, e)
    ensures AsOf(p, Advance(hub, w, e).journal, scope, t) == AsOf(p, w.journal, scope, t)
  {
    var out := Step(hub, e.pass, w.state, e.candidate).1;
    if out.Written? {
      WrittenShape(hub, e.pass, w.state, e.candidate);
      UnseenChangesNothing(p, w.journal, [out.record.(seqNo := |w.journal| + 1)], scope, t);
    } else {
      assert w.journal + [] == w.journal;
    }
  }

  /** Immutable past: over any run of live passes and backfills, once every later live pass has its
      clock beyond `t` and every later backfill is of derived facts, the answer at `t` under a policy
      that refuses derived facts never changes again. */
  lemma {:induction false} ImmutablePast(hub: Hub, p: Policy, past: seq<Event>, later: seq<Event>, scope: string, t: int)
    requires Usable(hub) && p.refuseDerived
    requires forall e :: e in later ==> LaterThan(t, e)
    ensures AsOf(p, RunAll(hub, past + later).journal, scope, t) == AsOf(p, RunAll(hub, past).journal, scope, t)
  {
    if later == [] {
      assert past + later == past;
    } else {
      var init, e := later[..|later| - 1], later[|later| - 1];
      ImmutablePast(hub, p, past, init, scope, t);
      LaterIsUnseen(hub, p, RunAll(hub, past + init), e, scope, t);
      RunSnoc(hub, past + init, e);
      assert past + later == past + init + [e];
    }
  }

  /** A clock that never goes back is past `t` for good once it has passed it. */
  lemma ClockStaysPast(events: seq<Event>, n: nat, t: int)
    requires n < |events| && events[n].pass.live && t < events[n].pass.now
    requires forall i, j :: 0 <= i < j < |events| && events[i].pass.live && events[j].pass.live ==> events[i].pass.now <= events[j].pass.now
    requires forall e :: e in events && !e.pass.live ==> e.candidate.availability.Derived?
    ensures forall e :: e in events[n..] ==> LaterThan(t, e)
  {
    forall e | e in events[n..] ensures LaterThan(t, e) {
      var i :| 0 <= i < |events[n..]| && events[n..][i] == e;
      assert events[n + i] == e && e in events;
    }
  }
}
