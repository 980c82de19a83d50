/** Kept state equals rebuilt state (hub/__main__.py, `_history_for`, `_HISTORY`).

    A collector keeps its index and histories between polls instead of rebuilding them from the
    journal.  A state is the fold of some records in some order; the theorems here say exactly when
    the order it was kept in and the order it would be rebuilt in come to the same. */
module Restart {
  import opened Wrappers
  import opened Ordering
  import opened Records
  import opened Histories
  import opened Dedupe
  import opened Pipeline
  import opened Ingestion
  import opened Agreement

  function WithKey(key: string): Record -> bool { (r: Record) => r.key == key }

  function OfKey(rs: seq<Record>, key: string): seq<Record> { Filter(rs, WithKey(key)) }

  // ---------------------------------------------------------------- folding

  /** `st` is what folding these records, in this order, leaves. */
  ghost predicate FoldsTo(hub: Hub, order: seq<Record>, st: State)
    requires Usable(hub)
  {
    && st.index == ObserveAll(map[], order)
    && forall scope :: FactsOf(st.history, scope) == if Reach(hub.schema) > 0 then FoldFacts(OfScope(order, scope)) else map[]
  }

  // ---------------------------------------------------------------- rebuilding

  /** What `_history_for` computes from the journal's records in `sort_key` order. */
  function Rebuilt(hub: Hub, journal: seq<Record>): State
    requires AllDerived(hub.schema, hub.schema.derivedOrder)
  {
    var rs := SortRecords(journal);
    State(ObserveAll(map[], rs),
          if Reach(hub.schema) > 0
          then map scope | scope in (set r | r in rs :: r.scope) :: FoldFacts(OfScope(rs, scope))
          else map[])
  }

  /** The same index, and the same facts in every scope; an empty scope is no scope. */
  ghost predicate Equivalent(a: State, b: State) {
    a.index == b.index && forall scope :: FactsOf(a.history, scope) == FactsOf(b.history, scope)
  }

  lemma RebuiltFacts(hub: Hub, journal: seq<Record>, scope: string)
    requires Usable(hub)
    ensures FactsOf(Rebuilt(hub, journal).history, scope) ==
            if Reach(hub.schema) > 0 then FoldFacts(OfScope(SortRecords(journal), scope)) else map[]
  {
    var rs := SortRecords(journal);
    if forall r :: r in rs ==> r.scope != scope {
      FilterNone(rs, InScope(scope));
    }
  }

  lemma RebuiltFolds(hub: Hub, journal: seq<Record>)
    requires Usable(hub)
    ensures FoldsTo(hub, SortRecords(journal), Rebuilt(hub, journal))
  {
    forall scope
      ensures FactsOf(Rebuilt(hub, journal).history, scope) ==
              if Reach(hub.schema) > 0 then FoldFacts(OfScope(SortRecords(journal), scope)) else map[]
    {
      RebuiltFacts(hub, journal, scope);
    }
  }

  ghost function StateOf(index: RevisionIndex, history: HistoryTable): State
    requires history.Valid()
    reads index, history, history.Members()
  {
    State(index.state, history.Model())
  }

  /** `_history_for` as the source folds it; a journal that cannot be read (`None`) starts empty. */
  method HistoryFor(hub: Hub, found: Option<seq<Record>>) returns (index: RevisionIndex, history: HistoryTable)
    requires Usable(hub)
    ensures fresh(index) && fresh(history) && fresh(history.Members()) && history.Valid()
    ensures index as object !in history.Members() && history as object !in history.Members() && index as object != history
    ensures Equivalent(StateOf(index, history), if found.Some? then Rebuilt(hub, found.value) else State(map[], map[]))
  {
    index := new RevisionIndex();
    history := new HistoryTable();
    if found.None? { return; }
    var journal := found.value;
    var rs := SortRecords(journal);
    index.RebuildFrom(rs);
    if Reach(hub.schema) > 0 {
      FoldTable(rs, history);
    }
    forall scope
      ensures FactsOf(history.Model(), scope) == FactsOf(Rebuilt(hub, journal).history, scope)
    {
      RebuiltFacts(hub, journal, scope);
    }
  }

  method FoldTable(rs: seq<Record>, history: HistoryTable)
    requires history.Valid() && history.Model() == map[] && history.byScope == map[]
    modifies history
    ensures history.Valid() && fresh(history.Members())
    ensures forall scope :: FactsOf(history.Model(), scope) == FoldFacts(OfScope(rs, scope))
  {
    for i := 0 to |rs|
      invariant history.Valid() && fresh(history.Members())
      invariant forall scope :: FactsOf(history.Model(), scope) == FoldFacts(OfScope(rs[..i], scope))
    {
      var r := rs[i];
      ghost var was := history.Model();
      var h := history.SetDefault(r.scope);
      history.UpsertIn(r.scope, r.effectiveAt, r.key, r.fields);
      assert rs[..i + 1] == rs[..i] + [r];
      TableStep(was, history.Model(), rs[..i], r);
    }
    assert rs[..|rs|] == rs;
  }

  lemma TableStep(was: map<string, Facts>, now: map<string, Facts>, rs: seq<Record>, r: Record)
    requires forall scope :: FactsOf(was, scope) == FoldFacts(OfScope(rs, scope))
    requires FactsOf(now, r.scope) == FactsOf(was, r.scope)[r.key := Fact(r.effectiveAt, r.fields)]
    requires forall scope :: scope != r.scope ==> FactsOf(now, scope) == FactsOf(was, scope)
    ensures forall scope :: FactsOf(now, scope) == FoldFacts(OfScope(rs + [r], scope))
  {
    forall scope ensures FactsOf(now, scope) == FoldFacts(OfScope(rs + [r], scope)) { ScopeSnoc(rs, r, scope); }
  }

  lemma ScopeSnoc(rs: seq<Record>, r: Record, scope: string)
    ensures OfScope(rs + [r], scope) == if r.scope == scope then OfScope(rs, scope) + [r] else OfScope(rs, scope)
    ensures FoldFacts(OfScope(rs + [r], scope)) ==
            if r.scope == scope then FoldFacts(OfScope(rs, scope))[r.key := Fact(r.effectiveAt, r.fields)]
            else FoldFacts(OfScope(rs, scope))
  {
    FilterConcat(rs, [r], InScope(scope));
    assert OfScope(rs, scope) + [] == OfScope(rs, scope);
    if r.scope == scope { FoldSnoc(OfScope(rs, scope), r); }
  }

  // ---------------------------------------------------------------- ingest folds on

  /** What one outcome adds to the journal under a sequence number. */
  function Emitted(out: Outcome, seqNo: nat): seq<Record> {
    match out
    case Written(r) => [r.(seqNo := seqNo)]
    case _ => []
  }

  lemma SkipFolds(hub: Hub, pass: Pass, st: State, c: Candidate, order: seq<Record>)
    requires Usable(hub) && FoldsTo(hub, order, st) && !Step(hub, pass, st, c).1.Written?
    ensures FoldsTo(hub, order, Step(hub, pass, st, c).0)
  {
    var after := Step(hub, pass, st, c).0;
    forall scope ensures FactsOf(after.history, scope) == FactsOf(st.history, scope) { StepFacts(hub, pass, st, c, scope); }
  }

  lemma WriteFolds(hub: Hub, pass: Pass, st: State, c: Candidate, order: seq<Record>, seqNo: nat)
    requires Usable(hub) && FoldsTo(hub, order, st) && Step(hub, pass, st, c).1.Written?
    ensures FoldsTo(hub, order + [Step(hub, pass, st, c).1.record.(seqNo := seqNo)], Step(hub, pass, st, c).0)
  {
    var (after, out) := Step(hub, pass, st, c);
    WrittenShape(hub, pass, st, c);
    var r := out.record.(seqNo := seqNo);
    assert (order + [r])[..|order|] == order;
    assert after.index == Observe(st.index, r);
    forall scope
      ensures FactsOf(after.history, scope) == if Reach(hub.schema) > 0 then FoldFacts(OfScope(order + [r], scope)) else map[]
    {
      StepFacts(hub, pass, st, c, scope);
      ScopeSnoc(order, r, scope);
    }
  }

  /** One step folds what it writes behind what was folded before. */
  lemma StepFolds(hub: Hub, pass: Pass, st: State, c: Candidate, order: seq<Record>, seqNo: nat)
    requires Usable(hub) && FoldsTo(hub, order, st)
    ensures FoldsTo(hub, order + Emitted(Step(hub, pass, st, c).1, seqNo), Step(hub, pass, st, c).0)
  {
    if Step(hub, pass, st, c).1.Written? {
      WriteFolds(hub, pass, st, c, order, seqNo);
    } else {
      SkipFolds(hub, pass, st, c, order);
      assert order + [] == order;
    }
  }

  lemma {:induction false} RunFolds(hub: Hub, events: seq<Event>)
    requires Usable(hub)
    ensures FoldsTo(hub, RunAll(hub, events).journal, RunAll(hub, events).state)
  {
    if events == [] {
      assert forall scope :: OfScope([], scope) == [];
    } else {
      var w, e := RunAll(hub, events[..|events| - 1]), events[|events| - 1];
      RunFolds(hub, events[..|events| - 1]);
      StepFolds(hub, e.pass, w.state, e.candidate, w.journal, |w.journal| + 1);
    }
  }

  /** The records of one pass as the writer stamps them, `n` being the last sequence number. */
  function Stamped(n: nat, rs: seq<Record>): seq<Record> {
    if rs == [] then [] else Stamped(n, rs[..|rs| - 1]) + [rs[|rs| - 1].(seqNo := n + |rs|)]
  }

  lemma {:induction false} StampedLength(n: nat, rs: seq<Record>)
    ensures |Stamped(n, rs)| == |rs|
  {
    if rs != [] { StampedLength(n, rs[..|rs| - 1]); }
  }

  lemma StampedSnoc(n: nat, rs: seq<Record>, r: Record)
    ensures Stamped(n, rs + [r]) == Stamped(n, rs) + [r.(seqNo := n + |rs| + 1)]
    ensures |Stamped(n, rs)| == |rs|
  {
    assert (rs + [r])[..|rs|] == rs;
    StampedLength(n, rs);
  }

  lemma StampedOutcome(n: nat, outs: seq<Outcome>, out: Outcome)
    ensures var added := Stamped(n, WrittenOf(outs));
            Stamped(n, WrittenOf(outs + [out])) == added + Emitted(out, n + |added| + 1)
  {
    var rs := WrittenOf(outs);
    StampedLength(n, rs);
    assert (outs + [out])[..|outs|] == outs;
    match out
    case Written(r) => StampedSnoc(n, rs, r);
    case _ => assert rs + [] == rs && Stamped(n, rs) + [] == Stamped(n, rs);
  }

  /** The records a pass adds to a journal of `n`. */
  ghost function AddedBy(hub: Hub, pass: Pass, st: State, cs: seq<Candidate>, n: nat): seq<Record>
    requires Usable(hub)
  {
    Stamped(n, WrittenOf(IngestAll(hub, pass, st, cs).1))
  }

  /** What a candidate does to a state, as a function of both. */
  type Stepper = (State, Candidate) -> (State, Outcome)

  ghost function StepOf(hub: Hub, pass: Pass): Stepper
    requires Usable(hub)
  {
    (st: State, c: Candidate) => Step(hub, pass, st, c)
  }

  ghost function RunSteps(step: Stepper, st: State, cs: seq<Candidate>): (State, seq<Outcome>) {
    if cs == [] then (st, [])
    else
      var (before, outs) := RunSteps(step, st, cs[..|cs| - 1]);
      var (after, out) := step(before, cs[|cs| - 1]);
      (after, outs + [out])
  }

  lemma {:induction false} IngestRunsSteps(hub: Hub, pass: Pass, st: State, cs: seq<Candidate>)
    requires Usable(hub)
    ensures IngestAll(hub, pass, st, cs) == RunSteps(StepOf(hub, pass), st, cs)
  {
    if cs == [] {
    } else {
      IngestRunsSteps(hub, pass, st, cs[..|cs| - 1]);
    }
  }

  /** What every candidate keeps of a state and the records that led to it, a pass keeps. */
  lemma {:induction false} RunKeeps(step: Stepper, st: State, cs: seq<Candidate>, n: nat, keeps: (State, seq<Record>) -> bool)
    requires keeps(st, [])
    requires forall was, c, added :: keeps(was, added) ==>
      keeps(step(was, c).0, added + Emitted(step(was, c).1, n + |added| + 1))
    ensures keeps(RunSteps(step, st, cs).0, Stamped(n, WrittenOf(RunSteps(step, st, cs).1)))
  {
    if cs == [] {
    } else {
      var init, c := cs[..|cs| - 1], cs[|cs| - 1];
      RunKeeps(step, st, init, n, keeps);
      var (before, outs) := RunSteps(step, st, init);
      var added := Stamped(n, WrittenOf(outs));
      StampedOutcome(n, outs, step(before, c).1);
      assert keeps(before, added);
      assert keeps(step(before, c).0, added + Emitted(step(before, c).1, n + |added| + 1));
    }
  }

  ghost function FoldsBehind(hub: Hub, order: seq<Record>): (State, seq<Record>) -> bool
    requires Usable(hub)
  {
    (st: State, added: seq<Record>) => FoldsTo(hub, order + added, st)
  }

  /** Each candidate's step folds what it emits. */
  ghost predicate Folding(hub: Hub, step: Stepper)
    requires Usable(hub)
  {
    forall st, c, order, seqNo: nat :: FoldsTo(hub, order, st) ==> FoldsTo(hub, order + Emitted(step(st, c).1, seqNo), step(st, c).0)
  }

  lemma StepIsFolding(hub: Hub, pass: Pass)
    requires Usable(hub)
    ensures Folding(hub, StepOf(hub, pass))
  {
    var step := StepOf(hub, pass);
    forall st, c, order, seqNo: nat | FoldsTo(hub, order, st)
      ensures FoldsTo(hub, order + Emitted(step(st, c).1, seqNo), step(st, c).0)
    {
      StepFolds(hub, pass, st, c, order, seqNo);
    }
  }

  lemma FoldsGrouped(hub: Hub, a: seq<Record>, b: seq<Record>, c: seq<Record>, st: State)
    requires Usable(hub) && FoldsTo(hub, a + b + c, st)
    ensures FoldsBehind(hub, a)(st, b + c)
  {
    Regrouped(a, b, c);
  }

  lemma StepsFold(hub: Hub, step: Stepper, st: State, cs: seq<Candidate>, order: seq<Record>, n: nat)
    requires Usable(hub) && FoldsTo(hub, order, st) && Folding(hub, step)
    ensures FoldsTo(hub, order + Stamped(n, WrittenOf(RunSteps(step, st, cs).1)), RunSteps(step, st, cs).0)
  {
    var keeps := FoldsBehind(hub, order);
    assert order + [] == order;
    forall was, c, added | keeps(was, added) ensures keeps(step(was, c).0, added + Emitted(step(was, c).1, n + |added| + 1)) {
      assert FoldsTo(hub, order + added, was);
      FoldsGrouped(hub, order, added, Emitted(step(was, c).1, n + |added| + 1), step(was, c).0);
    }
    RunKeeps(step, st, cs, n, keeps);
    assert keeps(RunSteps(step, st, cs).0, Stamped(n, WrittenOf(RunSteps(step, st, cs).1)));
  }

  /** A pass folds what it writes, in the order it writes it, behind what was folded before. */
  lemma IngestFolds(hub: Hub, pass: Pass, st: State, cs: seq<Candidate>, order: seq<Record>, n: nat)
    requires Usable(hub) && FoldsTo(hub, order, st)
    ensures FoldsTo(hub, order + AddedBy(hub, pass, st, cs, n), IngestAll(hub, pass, st, cs).0)
  {
    IngestRunsSteps(hub, pass, st, cs);
    StepIsFolding(hub, pass);
    StepsFold(hub, StepOf(hub, pass), st, cs, order, n);
  }

  lemma Regrouped(a: seq<Record>, b: seq<Record>, c: seq<Record>)
    ensures a + b + c == a + (b + c)
  {}

  lemma StepSame(hub: Hub, pass: Pass, a: State, b: State, c: Candidate)
    requires Usable(hub) && a.index == b.index
    requires FactsOf(a.history, c.scope) == FactsOf(b.history, c.scope)
    ensures Step(hub, pass, a, c).1 == Step(hub, pass, b, c).1
    ensures Step(hub, pass, a, c).0.index == Step(hub, pass, b, c).0.index
  {}

  /** Ingest answers alike from equivalent states. */
  lemma StepRespects(hub: Hub, pass: Pass, a: State, b: State, c: Candidate)
    requires Usable(hub) && Equivalent(a, b)
    ensures Step(hub, pass, a, c).1 == Step(hub, pass, b, c).1
    ensures Equivalent(Step(hub, pass, a, c).0, Step(hub, pass, b, c).0)
  {
    StepSame(hub, pass, a, b, c);
    forall scope
      ensures FactsOf(Step(hub, pass, a, c).0.history, scope) == FactsOf(Step(hub, pass, b, c).0.history, scope)
    {
      assert FactsOf(a.history, scope) == FactsOf(b.history, scope);
      StepFacts(hub, pass, a, c, scope);
      StepFacts(hub, pass, b, c, scope);
    }
  }

  lemma {:induction false} IngestRespects(hub: Hub, pass: Pass, a: State, b: State, cs: seq<Candidate>)
    requires Usable(hub) && Equivalent(a, b)
    ensures IngestAll(hub, pass, a, cs).1 == IngestAll(hub, pass, b, cs).1
    ensures Equivalent(IngestAll(hub, pass, a, cs).0, IngestAll(hub, pass, b, cs).0)
  {
    if cs == [] {
    } else {
      var init := cs[..|cs| - 1];
      IngestRespects(hub, pass, a, b, init);
      StepRespects(hub, pass, IngestAll(hub, pass, a, init).0, IngestAll(hub, pass, b, init).0, cs[|cs| - 1]);
    }
  }

  lemma {:induction false} StampedPrefix(n: nat, rs: seq<Record>, i: nat)
    requires i <= |rs|
    ensures |Stamped(n, rs)| == |rs| && Stamped(n, rs[..i]) == Stamped(n, rs)[..i]
    decreases |rs|
  {
    StampedLength(n, rs);
    if i == |rs| {
      assert rs[..i] == rs;
    } else {
      StampedPrefix(n, rs[..|rs| - 1], i);
      assert rs[..|rs| - 1][..i] == rs[..i];
    }
  }

  // ---------------------------------------------------------------- revisions are a chain

  /** Revisions 1, 2, 3, ... and no two neighbours with one payload. */
  ghost predicate IsChain(rs: seq<Record>) {
    forall i :: 0 <= i < |rs| ==> rs[i].revision == i + 1 && (i > 0 ==> rs[i].fields != rs[i - 1].fields)
  }

  /** The index remembers the end of every key's chain, and no other dataset. */
  ghost predicate Chained(hub: Hub, w: World) {
    && (forall r :: r in w.journal ==> r.dataset == hub.schema.name)
    && forall key :: KeyChained(hub, w, key)
  }

  ghost predicate KeyChained(hub: Hub, w: World, key: string) {
    var own := OfKey(w.journal, key);
    && IsChain(own)
    && Lookup(w.state.index, hub.schema.name, key) ==
       if own == [] then None else Some(Seen(|own|, own[|own| - 1].fields))
  }

  lemma ChainGrows(own: seq<Record>, r: Record)
    requires IsChain(own) && r.revision == |own| + 1
    requires own != [] ==> own[|own| - 1].fields != r.fields
    ensures IsChain(own + [r])
  {}

  /** A written record is the next link of its own key's chain and touches no other. */
  lemma WrittenKeyChained(hub: Hub, w: World, w': World, r: Record, key: string)
    requires Chained(hub, w) && w'.journal == w.journal + [r] && r.dataset == hub.schema.name
    requires r.revision >= 1 && w'.state.index == w.state.index[(r.dataset, r.key) := Seen(r.revision, r.fields)]
    requires var prior := Lookup(w.state.index, r.dataset, r.key);
             r.revision == (if prior.None? then 1 else prior.value.revision + 1) && (prior.Some? ==> prior.value.payload != r.fields)
    ensures KeyChained(hub, w', key)
  {
    assert KeyChained(hub, w, key);
    FilterSnoc(w.journal, r, WithKey(key));
    var own := OfKey(w.journal, key);
    if key == r.key {
      ChainGrows(own, r);
      assert OfKey(w'.journal, key) == own + [r];
    } else {
      assert OfKey(w'.journal, key) == own;
    }
  }

  lemma AdvanceChained(hub: Hub, w: World, e: Event)
    requires Usable(hub) && Chained(hub, w)
    ensures Chained(hub, Advance(hub, w, e))
  {
    var w' := Advance(hub, w, e);
    var out := Step(hub, e.pass, w.state, e.candidate).1;
    if out.Written? {
      WrittenShape(hub, e.pass, w.state, e.candidate);
      var r := out.record.(seqNo := |w.journal| + 1);
      forall key ensures KeyChained(hub, w', key) { WrittenKeyChained(hub, w, w', r, key); }
    } else {
      assert w.journal + [] == w.journal;
      forall key ensures KeyChained(hub, w', key) { assert KeyChained(hub, w, key); }
    }
  }

  /** Over any run each key's revisions are exactly 1..n, consecutive payloads differing. */
  lemma {:induction false} RevisionsAreAChain(hub: Hub, events: seq<Event>)
    requires Usable(hub)
    ensures Chained(hub, RunAll(hub, events))
  {
    if events == [] {
      forall key ensures KeyChained(hub, EMPTY_WORLD, key) { assert OfKey([], key) == []; }
    } else {
      RevisionsAreAChain(hub, events[..|events| - 1]);
      AdvanceChained(hub, RunAll(hub, events[..|events| - 1]), events[|events| - 1]);
    }
  }

  // ---------------------------------------------------------------- order and revisions

  /** No key's later revision claims to have been known earlier. */
  ghost predicate KnownInOrder(rs: seq<Record>) {
    forall i, j :: 0 <= i < j < |rs| && rs[i].key == rs[j].key ==> rs[i].knownAt <= rs[j].knownAt
  }

  ghost predicate RevisedInOrder(rs: seq<Record>) {
    forall i, j :: 0 <= i < j < |rs| && rs[i].key == rs[j].key ==> rs[i].revision < rs[j].revision
  }

  lemma {:induction false} PositionInFilter<T>(s: seq<T>, p: T -> bool, i: nat, j: nat) returns (a: nat, b: nat)
    requires i < j < |s| && p(s[i]) && p(s[j])
    ensures a < b < |Filter(s, p)| && Filter(s, p)[a] == s[i] && Filter(s, p)[b] == s[j]
  {
    assert s == s[..j] + s[j..];
    FilterConcat(s[..j], s[j..], p);
    assert Filter(s[j..], p)[0] == s[j];
    b := |Filter(s[..j], p)|;
    FilterMember(s[..j], p, s[i]);
    assert s[..j][i] == s[i];
    a :| 0 <= a < |Filter(s[..j], p)| && Filter(s[..j], p)[a] == s[i];
  }

  lemma ChainsAreRevisedInOrder(hub: Hub, w: World)
    requires Chained(hub, w)
    ensures RevisedInOrder(w.journal)
  {
    forall i, j | 0 <= i < j < |w.journal| && w.journal[i].key == w.journal[j].key
      ensures w.journal[i].revision < w.journal[j].revision
    {
      var key := w.journal[i].key;
      var a, b := PositionInFilter(w.journal, WithKey(key), i, j);
      assert KeyChained(hub, w, key);
    }
  }

  /** A folded history holds, per key, the last record of that key. */
  lemma {:induction false} FoldIsLast(rs: seq<Record>, key: string)
    ensures key in FoldFacts(rs) <==> OfKey(rs, key) != []
    ensures key in FoldFacts(rs) ==>
      var own := OfKey(rs, key);
      FoldFacts(rs)[key] == Fact(own[|own| - 1].effectiveAt, own[|own| - 1].fields)
  {
    if rs == [] {
    } else {
      var init, r := rs[..|rs| - 1], rs[|rs| - 1];
      FoldIsLast(init, key);
      assert rs == init + [r];
      FilterConcat(init, [r], WithKey(key));
      assert OfKey(init, key) + [] == OfKey(init, key);
    }
  }

  lemma SortKeepsKeyOrder(rs: seq<Record>, scope: string, key: string)
    requires KnownInOrder(rs) && RevisedInOrder(rs)
    ensures OfKey(OfScope(SortRecords(rs), scope), key) == OfKey(OfScope(rs, scope), key)
  {
    KeyOrder();
    FilterSort(rs, KeyLe, InScope(scope));
    FilterSort(OfScope(rs, scope), KeyLe, WithKey(key));
    var both := (r: Record) => r.scope == scope && r.key == key;
    FilterTwice(rs, InScope(scope), WithKey(key), both);
    forall i, j | 0 <= i < j < |rs| && both(rs[i]) && both(rs[j])
      ensures KeyLe(rs[i], rs[j])
    {
      assert rs[i].revision < rs[j].revision;
    }
    FilterSorted(rs, both, KeyLe);
    SortOfSorted(OfKey(OfScope(rs, scope), key), KeyLe);
  }

  lemma RevisedInOrderIsConsistent(rs: seq<Record>)
    requires RevisedInOrder(rs)
    ensures Consistent(rs)
  {
  }

  // ---------------------------------------------------------------- two orders, one state

  /** The records of one key in one scope. */
  function OwnOf(rs: seq<Record>, scope: string, key: string): seq<Record> { OfKey(OfScope(rs, scope), key) }

  function FactOf(r: Record): Fact { Fact(r.effectiveAt, r.fields) }

  /** What a fold ends with for one key: its last record's fact. */
  function LastFact(rs: seq<Record>, scope: string, key: string): Option<Fact> {
    var own := OwnOf(rs, scope, key);
    if own == [] then None else Some(FactOf(own[|own| - 1]))
  }

  ghost predicate LastAlike(x: seq<Record>, y: seq<Record>) {
    forall scope, key :: LastFact(x, scope, key) == LastFact(y, scope, key)
  }

  lemma FoldIsLastFact(rs: seq<Record>, scope: string, key: string)
    ensures LastFact(rs, scope, key) ==
            if key in FoldFacts(OfScope(rs, scope)) then Some(FoldFacts(OfScope(rs, scope))[key]) else None
  {
    FoldIsLast(OfScope(rs, scope), key);
  }

  lemma FoldsAlike(x: seq<Record>, y: seq<Record>)
    ensures LastAlike(x, y) <==> forall scope :: FoldFacts(OfScope(x, scope)) == FoldFacts(OfScope(y, scope))
  {
    forall scope, key
      ensures LastFact(x, scope, key) == (if key in FoldFacts(OfScope(x, scope)) then Some(FoldFacts(OfScope(x, scope))[key]) else None)
      ensures LastFact(y, scope, key) == (if key in FoldFacts(OfScope(y, scope)) then Some(FoldFacts(OfScope(y, scope))[key]) else None)
    {
      FoldIsLastFact(x, scope, key);
      FoldIsLastFact(y, scope, key);
    }
    if LastAlike(x, y) {
      forall scope ensures FoldFacts(OfScope(x, scope)) == FoldFacts(OfScope(y, scope)) {
        SameFacts(FoldFacts(OfScope(x, scope)), FoldFacts(OfScope(y, scope)), x, y, scope);
      }
    }
  }

  lemma SameFacts(f: Facts, g: Facts, x: seq<Record>, y: seq<Record>, scope: string)
    requires LastAlike(x, y)
    requires forall key :: LastFact(x, scope, key) == if key in f then Some(f[key]) else None
    requires forall key :: LastFact(y, scope, key) == if key in g then Some(g[key]) else None
    ensures f == g
  {
    forall key
      ensures key in f <==> key in g
      ensures key in f ==> f[key] == g[key]
    {
      assert LastFact(x, scope, key) == LastFact(y, scope, key);
    }
  }

  /** Two folds of the same records are the same state exactly when every key ends alike. */
  lemma EquivalentIffLastAlike(hub: Hub, x: seq<Record>, a: State, y: seq<Record>, b: State)
    requires Usable(hub) && FoldsTo(hub, x, a) && FoldsTo(hub, y, b)
    requires multiset(x) == multiset(y) && Consistent(x)
    ensures Equivalent(a, b) <==> Reach(hub.schema) == 0 || LastAlike(x, y)
  {
    ReplayOrderIndependent(x, y);
    FoldsAlike(x, y);
    if Equivalent(a, b) && Reach(hub.schema) > 0 {
      forall scope ensures FoldFacts(OfScope(x, scope)) == FoldFacts(OfScope(y, scope)) {
        assert FactsOf(a.history, scope) == FactsOf(b.history, scope);
      }
    }
  }

  // ---------------------------------------------------------------- exactly when kept is rebuilt

  ghost predicate SameStory(a: Record, b: Record) { a.scope == b.scope && a.key == b.key }

  /** The highest revision of its key in its scope. */
  ghost predicate Newest(rs: seq<Record>, r: Record) {
    r in rs && forall q :: q in rs && SameStory(q, r) ==> q.revision <= r.revision
  }

  /** The last of its key in its scope in `sort_key` order. */
  ghost predicate LatestKnown(rs: seq<Record>, r: Record) {
    r in rs && forall q :: q in rs && SameStory(q, r) ==> KeyLe(q, r)
  }

  /** Wherever a key's newest revision is not also the latest known, it says the same. */
  ghost predicate NewestIsLatest(rs: seq<Record>) {
    forall q, r :: LatestKnown(rs, q) && Newest(rs, r) && SameStory(q, r) ==> FactOf(q) == FactOf(r)
  }

  lemma OwnMember(rs: seq<Record>, scope: string, key: string, r: Record)
    ensures r in OwnOf(rs, scope, key) <==> r in rs && r.scope == scope && r.key == key
  {
    FilterMember(OfScope(rs, scope), WithKey(key), r);
    FilterMember(rs, InScope(scope), r);
  }

  lemma OwnSorted(rs: seq<Record>, scope: string, key: string)
    ensures OwnOf(SortRecords(rs), scope, key) == SortRecords(OwnOf(rs, scope, key))
  {
    KeyOrder();
    FilterSort(rs, KeyLe, InScope(scope));
    FilterSort(OfScope(rs, scope), KeyLe, WithKey(key));
  }

  lemma OwnConcat(a: seq<Record>, b: seq<Record>, scope: string, key: string)
    ensures OwnOf(a + b, scope, key) == OwnOf(a, scope, key) + OwnOf(b, scope, key)
  {
    FilterConcat(a, b, InScope(scope));
    FilterConcat(OfScope(a, scope), OfScope(b, scope), WithKey(key));
  }

  lemma OwnIsRevised(rs: seq<Record>, scope: string, key: string)
    requires RevisedInOrder(rs)
    ensures forall i, j :: 0 <= i < j < |OwnOf(rs, scope, key)| ==> OwnOf(rs, scope, key)[i].revision < OwnOf(rs, scope, key)[j].revision
  {
    var both := (r: Record) => r.scope == scope && r.key == key;
    FilterTwice(rs, InScope(scope), WithKey(key), both);
    FilterSorted(rs, both, (a: Record, b: Record) => a.revision < b.revision);
  }

  /** A key's last record in the order of writing is its newest revision, and no other record is. */
  lemma LastWrittenIsNewest(rs: seq<Record>, r: Record)
    requires RevisedInOrder(rs)
    ensures Newest(rs, r) <==> OwnOf(rs, r.scope, r.key) != [] && r == OwnOf(rs, r.scope, r.key)[|OwnOf(rs, r.scope, r.key)| - 1]
  {
    var own := OwnOf(rs, r.scope, r.key);
    OwnIsRevised(rs, r.scope, r.key);
    forall q ensures q in own <==> q in rs && SameStory(q, r) { OwnMember(rs, r.scope, r.key, q); }
    if Newest(rs, r) {
      assert r in own && own[|own| - 1] in own;
      var i :| 0 <= i < |own| && own[i] == r;
    }
    if own != [] && r == own[|own| - 1] {
      forall q | q in rs && SameStory(q, r) ensures q.revision <= r.revision {
        assert q in own;
        var i :| 0 <= i < |own| && own[i] == q;
      }
    }
  }

  lemma SameRevisionIsSame(rs: seq<Record>, a: Record, b: Record)
    requires RevisedInOrder(rs) && a in rs && b in rs && SameKey(a, b)
    ensures a == b
  {
    var i :| 0 <= i < |rs| && rs[i] == a;
    var j :| 0 <= j < |rs| && rs[j] == b;
  }

  /** A key's last record in `sort_key` order is its latest known, and no other record is. */
  lemma LastSortedIsLatest(rs: seq<Record>, r: Record)
    requires RevisedInOrder(rs)
    ensures var own := OwnOf(SortRecords(rs), r.scope, r.key);
            LatestKnown(rs, r) <==> own != [] && r == own[|own| - 1]
  {
    var own := OwnOf(SortRecords(rs), r.scope, r.key);
    OwnSorted(rs, r.scope, r.key);
    KeyOrder();
    SortSorted(OwnOf(rs, r.scope, r.key), KeyLe);
    forall q ensures q in own <==> q in rs && SameStory(q, r) {
      OwnMember(rs, r.scope, r.key, q);
      SortMember(OwnOf(rs, r.scope, r.key), KeyLe, q);
    }
    if LatestKnown(rs, r) {
      assert r in own;
      var i :| 0 <= i < |own| && own[i] == r;
      var last := own[|own| - 1];
      assert last in own && KeyLe(last, r) && (i < |own| - 1 ==> KeyLe(r, last));
      if i < |own| - 1 { SameRevisionIsSame(rs, r, last); }
    }
    if own != [] && r == own[|own| - 1] {
      assert r in own;
      forall q | q in rs && SameStory(q, r) ensures KeyLe(q, r) {
        assert q in own;
        var i :| 0 <= i < |own| && own[i] == q;
        KeyTrichotomy(r, r);
      }
    }
  }

  lemma NewestIsLatestIff(rs: seq<Record>)
    requires RevisedInOrder(rs)
    ensures NewestIsLatest(rs) <==> LastAlike(SortRecords(rs), rs)
  {
    if NewestIsLatest(rs) {
      forall scope, key ensures LastFact(SortRecords(rs), scope, key) == LastFact(rs, scope, key) {
        EndsAlike(rs, scope, key);
      }
    }
    if LastAlike(SortRecords(rs), rs) {
      forall q, r | LatestKnown(rs, q) && Newest(rs, r) && SameStory(q, r) ensures FactOf(q) == FactOf(r) {
        LastSortedIsLatest(rs, q);
        LastWrittenIsNewest(rs, r);
        assert LastFact(SortRecords(rs), r.scope, r.key) == LastFact(rs, r.scope, r.key);
      }
    }
  }

  lemma EndsAlike(rs: seq<Record>, scope: string, key: string)
    requires RevisedInOrder(rs) && NewestIsLatest(rs)
    ensures LastFact(SortRecords(rs), scope, key) == LastFact(rs, scope, key)
  {
    var a, b := OwnOf(SortRecords(rs), scope, key), OwnOf(rs, scope, key);
    OwnSorted(rs, scope, key);
    SortContents(b, KeyLe);
    if b != [] { LastsAgree(rs, scope, key, a[|a| - 1], b[|b| - 1]); }
  }

  lemma LastsAgree(rs: seq<Record>, scope: string, key: string, q: Record, r: Record)
    requires RevisedInOrder(rs) && NewestIsLatest(rs)
    requires var a := OwnOf(SortRecords(rs), scope, key); a != [] && q == a[|a| - 1]
    requires var b := OwnOf(rs, scope, key); b != [] && r == b[|b| - 1]
    ensures FactOf(q) == FactOf(r)
  {
    OwnMember(SortRecords(rs), scope, key, q);
    OwnMember(rs, scope, key, r);
    LastSortedIsLatest(rs, q);
    LastWrittenIsNewest(rs, r);
  }

  /** Exactly when keeping shows: over any run of live passes and backfills the state kept across every
      pass equals the state a restart would rebuild from the journal if and only if nothing looks back
      or every key's latest known record says what its newest revision says. */
  lemma CacheEqualsRebuildIff(hub: Hub, events: seq<Event>)
    requires Usable(hub)
    ensures var w := RunAll(hub, events);
            Equivalent(w.state, Rebuilt(hub, w.journal)) <==> Reach(hub.schema) == 0 || NewestIsLatest(w.journal)
  {
    var w := RunAll(hub, events);
    RunFolds(hub, events);
    RevisionsAreAChain(hub, events);
    ChainsAreRevisedInOrder(hub, w);
    FoldIsRebuiltIff(hub, w.journal, w.journal, w.state);
    NewestIsLatestIff(w.journal);
  }

  /** In particular whenever each key's revisions have non-decreasing `known_at`. */
  lemma CacheEqualsRebuild(hub: Hub, events: seq<Event>)
    requires Usable(hub)
    requires KnownInOrder(RunAll(hub, events).journal)
    ensures Equivalent(RunAll(hub, events).state, Rebuilt(hub, RunAll(hub, events).journal))
  {
    var rs := RunAll(hub, events).journal;
    RevisionsAreAChain(hub, events);
    ChainsAreRevisedInOrder(hub, RunAll(hub, events));
    forall scope, key ensures LastFact(SortRecords(rs), scope, key) == LastFact(rs, scope, key) {
      SortKeepsKeyOrder(rs, scope, key);
    }
    NewestIsLatestIff(rs);
    CacheEqualsRebuildIff(hub, events);
  }

  // ---------------------------------------------------------------- a pass at the front of time

  /** A journal as ingest leaves it: one dataset, each key's revisions rising. */
  ghost predicate Lawful(hub: Hub, journal: seq<Record>) {
    (forall r :: r in journal ==> r.dataset == hub.schema.name) && RevisedInOrder(journal)
  }

  lemma RunsAreLawful(hub: Hub, events: seq<Event>)
    requires Usable(hub)
    ensures Lawful(hub, RunAll(hub, events).journal)
  {
    RevisionsAreAChain(hub, events);
    ChainsAreRevisedInOrder(hub, RunAll(hub, events));
  }

  /** Records known no earlier than anything in the journal end their keys in either order. */
  lemma LateStayLast(journal: seq<Record>, added: seq<Record>, scope: string, key: string)
    requires RevisedInOrder(journal + added) && KnownInOrder(added)
    requires forall q, r :: q in journal && r in added ==> q.knownAt <= r.knownAt
    ensures OwnOf(SortRecords(journal + added), scope, key) == OwnOf(SortRecords(journal) + added, scope, key)
  {
    var old_, new_ := OwnOf(journal, scope, key), OwnOf(added, scope, key);
    OwnSorted(journal + added, scope, key);
    OwnConcat(journal, added, scope, key);
    OwnSorted(journal, scope, key);
    OwnConcat(SortRecords(journal), added, scope, key);
    forall q, r | q in old_ && r in new_ ensures KeyLe(q, r) { EarlierIsLess(journal, added, scope, key, q, r); }
    SortLowHigh(old_, new_, KeyLe);
    LaterPart(journal, added);
    SortKeepsKeyOrder(added, scope, key);
    OwnSorted(added, scope, key);
  }

  lemma EarlierIsLess(journal: seq<Record>, added: seq<Record>, scope: string, key: string, q: Record, r: Record)
    requires RevisedInOrder(journal + added)
    requires forall q, r :: q in journal && r in added ==> q.knownAt <= r.knownAt
    requires q in OwnOf(journal, scope, key) && r in OwnOf(added, scope, key)
    ensures KeyLe(q, r)
  {
    OwnMember(journal, scope, key, q);
    OwnMember(added, scope, key, r);
    var i :| 0 <= i < |journal| && journal[i] == q;
    var j :| 0 <= j < |added| && added[j] == r;
    assert (journal + added)[i] == q && (journal + added)[|journal| + j] == r;
    StrIrreflexive(q.scope);
    StrIrreflexive(q.key);
  }

  lemma LaterPart(a: seq<Record>, b: seq<Record>)
    requires RevisedInOrder(a + b)
    ensures RevisedInOrder(b) && RevisedInOrder(a)
  {
    forall i, j | 0 <= i < j < |b| && b[i].key == b[j].key ensures b[i].revision < b[j].revision {
      assert (a + b)[|a| + i] == b[i] && (a + b)[|a| + j] == b[j];
    }
    forall i, j | 0 <= i < j < |a| && a[i].key == a[j].key ensures a[i].revision < a[j].revision {
      assert (a + b)[i] == a[i] && (a + b)[j] == a[j];
    }
  }

  /** One record known no earlier than the journal: what a rebuild folds from it is one update, whatever
      backfills the journal holds. */
  lemma LateRecordFolds(journal: seq<Record>, r: Record, scope: string)
    requires RevisedInOrder(journal + [r]) && forall q :: q in journal ==> q.knownAt <= r.knownAt
    ensures var was := FoldFacts(OfScope(SortRecords(journal), scope));
            FoldFacts(OfScope(SortRecords(journal + [r]), scope)) ==
            if r.scope == scope then was[r.key := FactOf(r)] else was
    ensures ObserveAll(map[], SortRecords(journal + [r])) == Observe(ObserveAll(map[], SortRecords(journal)), r)
  {
    var x, y := SortRecords(journal + [r]), SortRecords(journal) + [r];
    forall scope, key ensures LastFact(x, scope, key) == LastFact(y, scope, key) { LateStayLast(journal, [r], scope, key); }
    FoldsAlike(x, y);
    ScopeSnoc(SortRecords(journal), r, scope);
    RevisedInOrderIsConsistent(journal + [r]);
    SortContents(journal, KeyLe);
    SortContents(journal + [r], KeyLe);
    ReplayOrderIndependent(journal + [r], x);
    ReplayOrderIndependent(journal + [r], y);
    assert y[..|y| - 1] == SortRecords(journal);
  }

  lemma StepIsLawful(hub: Hub, pass: Pass, st: State, c: Candidate, journal: seq<Record>, order: seq<Record>, seqNo: nat)
    requires Usable(hub) && Lawful(hub, journal) && FoldsTo(hub, order, st) && multiset(order) == multiset(journal)
    requires Step(hub, pass, st, c).1.Written?
    ensures Lawful(hub, journal + [Step(hub, pass, st, c).1.record.(seqNo := seqNo)])
  {
    WrittenShape(hub, pass, st, c);
    var r := Step(hub, pass, st, c).1.record;
    ObserveAllKeepsHighest(order, r.dataset, r.key);
    SameMembers(order, journal);
    forall q | q in journal && q.key == r.key ensures q.revision < r.revision { assert q in order; }
  }

  ghost function LawfulBehind(hub: Hub, journal: seq<Record>, order: seq<Record>): (State, seq<Record>) -> bool
    requires Usable(hub)
  {
    (st: State, added: seq<Record>) => FoldsTo(hub, order + added, st) && Lawful(hub, journal + added)
  }

  /** Over a state that knows the journal, what a candidate emits is lawful behind it. */
  ghost predicate EmitsLawfully(hub: Hub, step: Stepper)
    requires Usable(hub)
  {
    forall st, c, journal, order, seqNo: nat ::
      Lawful(hub, journal) && FoldsTo(hub, order, st) && multiset(order) == multiset(journal) ==>
        Lawful(hub, journal + Emitted(step(st, c).1, seqNo))
  }

  lemma StepEmitsLawfully(hub: Hub, pass: Pass)
    requires Usable(hub)
    ensures EmitsLawfully(hub, StepOf(hub, pass))
  {
    var step := StepOf(hub, pass);
    forall st, c, journal, order, seqNo: nat | Lawful(hub, journal) && FoldsTo(hub, order, st) && multiset(order) == multiset(journal)
      ensures Lawful(hub, journal + Emitted(step(st, c).1, seqNo))
    {
      if step(st, c).1.Written? {
        StepIsLawful(hub, pass, st, c, journal, order, seqNo);
      } else {
        assert journal + [] == journal;
      }
    }
  }

  lemma StepsStayLawful(hub: Hub, step: Stepper, st: State, cs: seq<Candidate>, journal: seq<Record>, order: seq<Record>, n: nat)
    requires Usable(hub) && Lawful(hub, journal) && FoldsTo(hub, order, st) && multiset(order) == multiset(journal)
    requires Folding(hub, step) && EmitsLawfully(hub, step)
    ensures Lawful(hub, journal + Stamped(n, WrittenOf(RunSteps(step, st, cs).1)))
  {
    var keeps := LawfulBehind(hub, journal, order);
    assert order + [] == order && journal + [] == journal;
    forall was, c, added | keeps(was, added) ensures keeps(step(was, c).0, added + Emitted(step(was, c).1, n + |added| + 1)) {
      var more := Emitted(step(was, c).1, n + |added| + 1);
      assert FoldsTo(hub, order + added, was) && multiset(order + added) == multiset(journal + added);
      FoldsGrouped(hub, order, added, more, step(was, c).0);
      Regrouped(journal, added, more);
    }
    RunKeeps(step, st, cs, n, keeps);
    assert keeps(RunSteps(step, st, cs).0, Stamped(n, WrittenOf(RunSteps(step, st, cs).1)));
  }

  lemma IngestIsLawful(hub: Hub, pass: Pass, st: State, cs: seq<Candidate>, journal: seq<Record>, order: seq<Record>, n: nat)
    requires Usable(hub) && Lawful(hub, journal) && FoldsTo(hub, order, st) && multiset(order) == multiset(journal)
    ensures Lawful(hub, journal + AddedBy(hub, pass, st, cs, n))
  {
    IngestRunsSteps(hub, pass, st, cs);
    StepIsFolding(hub, pass);
    StepEmitsLawfully(hub, pass);
    StepsStayLawful(hub, StepOf(hub, pass), st, cs, journal, order, n);
  }

  ghost function StampedAt(t: int): (State, seq<Record>) -> bool {
    (st: State, added: seq<Record>) => forall r :: r in added ==> r.knownAt == t
  }

  /** A live pass stamps its clock on everything it writes. */
  lemma LivePassStamps(hub: Hub, pass: Pass, st: State, cs: seq<Candidate>, n: nat)
    requires Usable(hub) && pass.live
    ensures forall r :: r in AddedBy(hub, pass, st, cs, n) ==> r.knownAt == pass.now
  {
    var step, keeps := StepOf(hub, pass), StampedAt(pass.now);
    forall was, c, added | keeps(was, added) ensures keeps(step(was, c).0, added + Emitted(step(was, c).1, n + |added| + 1)) {
      if step(was, c).1.Written? { WrittenShape(hub, pass, was, c); }
    }
    IngestRunsSteps(hub, pass, st, cs);
    RunKeeps(step, st, cs, n, keeps);
    assert keeps(RunSteps(step, st, cs).0, Stamped(n, WrittenOf(RunSteps(step, st, cs).1)));
  }

  /** A live pass whose clock is at or past every journalled `known_at` leaves a state that equals the
      rebuilt one equal to it, whatever backdated revisions the journal holds. */
  lemma LatePassKeepsCache(hub: Hub, pass: Pass, st: State, cs: seq<Candidate>, journal: seq<Record>)
    requires Usable(hub) && pass.live && Lawful(hub, journal)
    requires forall q :: q in journal ==> q.knownAt <= pass.now
    requires Equivalent(st, Rebuilt(hub, journal))
    ensures var grown := journal + AddedBy(hub, pass, st, cs, |journal|);
            Lawful(hub, grown) && Equivalent(IngestAll(hub, pass, st, cs).0, Rebuilt(hub, grown))
  {
    var added := AddedBy(hub, pass, st, cs, |journal|);
    var order := SortRecords(journal);
    RebuiltIsFold(hub, journal, st);
    SortContents(journal, KeyLe);
    IngestIsLawful(hub, pass, st, cs, journal, order, |journal|);
    IngestFolds(hub, pass, st, cs, order, |journal|);
    LivePassStamps(hub, pass, st, cs, |journal|);
    LateFoldIsRebuilt(hub, journal, added, IngestAll(hub, pass, st, cs).0);
  }

  lemma RebuiltIsFold(hub: Hub, journal: seq<Record>, st: State)
    requires Usable(hub) && Equivalent(st, Rebuilt(hub, journal))
    ensures FoldsTo(hub, SortRecords(journal), st)
  {
    RebuiltFolds(hub, journal);
  }

  /** Late records folded behind a rebuilt journal are the journal rebuilt with them. */
  lemma LateFoldIsRebuilt(hub: Hub, journal: seq<Record>, added: seq<Record>, st: State)
    requires Usable(hub) && RevisedInOrder(journal + added) && KnownInOrder(added)
    requires forall q, r :: q in journal && r in added ==> q.knownAt <= r.knownAt
    requires FoldsTo(hub, SortRecords(journal) + added, st)
    ensures Equivalent(st, Rebuilt(hub, journal + added))
  {
    var x, y := SortRecords(journal) + added, SortRecords(journal + added);
    forall scope, key ensures LastFact(y, scope, key) == LastFact(x, scope, key) { LateStayLast(journal, added, scope, key); }
    SortContents(journal, KeyLe);
    assert multiset(x) == multiset(journal) + multiset(added);
    FoldIsRebuiltIff(hub, journal + added, x, st);
  }

  /** Exactly when a fold of the journal's records in some order is the journal rebuilt. */
  lemma FoldIsRebuiltIff(hub: Hub, journal: seq<Record>, order: seq<Record>, st: State)
    requires Usable(hub) && RevisedInOrder(journal) && multiset(order) == multiset(journal) && FoldsTo(hub, order, st)
    ensures Equivalent(st, Rebuilt(hub, journal)) <==> Reach(hub.schema) == 0 || LastAlike(order, SortRecords(journal))
  {
    RevisedInOrderIsConsistent(journal);
    SameRevisions(journal, order);
    RebuiltFolds(hub, journal);
    SortContents(journal, KeyLe);
    EquivalentIffLastAlike(hub, order, st, SortRecords(journal), Rebuilt(hub, journal));
  }

  lemma SameRevisions(x: seq<Record>, y: seq<Record>)
    requires Consistent(x) && multiset(x) == multiset(y)
    ensures Consistent(y)
  {
    SameMembers(x, y);
    forall i, j | 0 <= i < |y| && 0 <= j < |y| && SameRevision(y[i], y[j]) ensures y[i].fields == y[j].fields {
      assert y[i] in x && y[j] in x;
      var a :| 0 <= a < |x| && x[a] == y[i];
      var b :| 0 <= b < |x| && x[b] == y[j];
    }
  }
}
