/** One ingest pass (hub/pipeline.py, `ingest`).

    `Step` is what the pass does to one candidate, on values; the method `Ingest` runs a batch
    through the mutable index and histories and does exactly those steps. */
module Ingestion {
  import opened Wrappers
  import opened Records
  import opened Derive
  import opened Schemas
  import opened Histories
  import opened Dedupe
  import opened Pipeline

  // ---------------------------------------------------------------- one candidate

  function MaxLookback(s: Schema, names: seq<string>): nat
    requires AllDerived(s, names)
  {
    if names == [] then 0 else Max(Lookback(ExprOf(s, names[0])), MaxLookback(s, names[1..]))
  }

  /** How far back any derived field of the dataset reads; 0 when history is never kept. */
  function Reach(s: Schema): nat
    requires AllDerived(s, s.derivedOrder)
  {
    MaxLookback(s, s.derivedOrder)
  }

  lemma {:induction false} ReachCovers(s: Schema, names: seq<string>, n: string)
    requires AllDerived(s, names) && n in names
    ensures Lookback(ExprOf(s, n)) <= MaxLookback(s, names)
  {
    if n != names[0] { ReachCovers(s, names[1..], n); }
  }

  lemma {:induction false} PassReaches(ctx: Context, s: Schema, names: seq<string>, merged: Payload, h: History, k: nat)
    requires AllDerived(s, names) && MaxLookback(s, names) <= k
    ensures DerivePass(ctx, s, names, merged, Last(h, k)) == DerivePass(ctx, s, names, merged, h)
  {
    if names == [] {
    } else {
      var e := ExprOf(s, names[0]);
      LookbackTheorem(ctx, e, merged, h, k);
      PassReaches(ctx, s, names[1..], merged[names[0] := Run(ctx, e, merged, h)], h, k);
    }
  }

  /** The bounded past is past enough: a payload derived over it is the one derived over all of it. */
  lemma ReachSuffices(ctx: Context, s: Schema, payload: Payload, knownAt: int, effectiveAt: int, h: History)
    requires AllDerived(s, s.derivedOrder)
    ensures DeriveFields(ctx, s, payload, knownAt, effectiveAt, Last(h, Reach(s))) ==
            DeriveFields(ctx, s, payload, knownAt, effectiveAt, h)
  {
    PassReaches(ctx, s, s.derivedOrder, WithEnvelope(payload, knownAt, effectiveAt), h, Reach(s));
  }

  datatype State = State(index: Index, history: map<string, Facts>)

  datatype Outcome = Written(record: Record) | Duplicate | Quarantined

  function FactsOf(history: map<string, Facts>, scope: string): Facts {
    if scope in history then history[scope] else map[]
  }

  /** A live pass stamps its own clock, whatever the source suggested. */
  function KnownAt(pass: Pass, c: Candidate): int {
    if pass.live || c.knownAt.None? then pass.now else c.knownAt.value
  }

  /** A live candidate too old to have just been observed. */
  predicate Stale(pass: Pass, c: Candidate) {
    pass.live && pass.maxAge.Some? && pass.wall - c.effectiveAt > pass.maxAge.value
  }

  predicate Admitted(pass: Pass, c: Candidate) {
    !c.parseError && KnownAt(pass, c) <= pass.wall + pass.skew
  }

  ghost predicate Usable(hub: Hub) { WellFormed(hub.schema) && AllDerived(hub.schema, hub.schema.derivedOrder) }

  /** The record as drafted before revision assignment, derived over everything that precedes it in its
      scope; `None` where a guard refuses it. */
  ghost function Draft(hub: Hub, pass: Pass, f: Facts, c: Candidate): Option<Record>
    requires Usable(hub)
  {
    var key := BuildKey(hub, c);
    var derived := DeriveFields(hub.ctx, hub.schema, c.fields, KnownAt(pass, c), c.effectiveAt,
                                Before(f, c.effectiveAt, key));
    var payload :- ValidatePayload(hub.schema, derived);
    var r := NewRecord(hub, pass, c, payload);
    if EnvelopeOk(r) then Some(r) else None
  }

  /** A scope is 1 to 64 capitals, digits, underscores, colons and hyphens, with a capital among them. */
  ghost predicate GoodScope(s: string) {
    && 0 < |s| < 65
    && (forall i :: 0 <= i < |s| ==> s[i] in "_:-" || 'A' <= s[i] <= 'Z' || '0' <= s[i] <= '9')
    && exists i :: 0 <= i < |s| && 'A' <= s[i] <= 'Z'
  }

  ghost predicate GoodTime(t: int) { 946_684_800_000 <= t <= 4_102_444_800_000 }

  /** A draft is refused exactly when its finished payload does not validate or its envelope will not do. */
  lemma DraftsExactly(hub: Hub, pass: Pass, f: Facts, c: Candidate, out: Payload)
    requires Usable(hub)
    requires Finished(hub.ctx, hub.schema, c.fields, KnownAt(pass, c), c.effectiveAt, Before(f, c.effectiveAt, BuildKey(hub, c)), out)
    ensures Draft(hub, pass, f, c).Some? <==>
      && ValidatePayload(hub.schema, out).Some?
      && GoodScope(c.scope) && BuildKey(hub, c) != "" && pass.source != ""
      && GoodTime(KnownAt(pass, c)) && GoodTime(c.effectiveAt)
      && (c.periodStart.Some? ==> GoodTime(c.periodStart.value)) && (c.periodEnd.Some? ==> GoodTime(c.periodEnd.value))
      && (c.periodStart.Some? && c.periodEnd.Some? ==> c.periodStart.value <= c.periodEnd.value)
  {
    var h := Before(f, c.effectiveAt, BuildKey(hub, c));
    var found := DeriveFields(hub.ctx, hub.schema, c.fields, KnownAt(pass, c), c.effectiveAt, h);
    DeriveFieldsFinishes(hub.ctx, hub.schema, c.fields, KnownAt(pass, c), c.effectiveAt, h);
    FinishedIsUnique(hub.ctx, hub.schema, c.fields, KnownAt(pass, c), c.effectiveAt, h, found, out);
    ScopesAreGood(c.scope);
  }

  lemma ScopesAreGood(s: string)
    ensures ScopeOk(s) <==> GoodScope(s)
  {
    assert forall c: char :: c in "_:-" <==> c == '_' || c == ':' || c == '-';
  }

  /** A drafted record's payload is the finished one over its whole past, normalised. */
  lemma DraftIsFinished(hub: Hub, pass: Pass, f: Facts, c: Candidate, r: Record) returns (out: Payload)
    requires Usable(hub) && Draft(hub, pass, f, c) == Some(r)
    ensures Finished(hub.ctx, hub.schema, c.fields, r.knownAt, c.effectiveAt, Before(f, c.effectiveAt, BuildKey(hub, c)), out)
    ensures ValidatePayload(hub.schema, out) == Some(r.fields)
  {
    var h := Before(f, c.effectiveAt, BuildKey(hub, c));
    out := DeriveFields(hub.ctx, hub.schema, c.fields, r.knownAt, c.effectiveAt, h);
    DeriveFieldsFinishes(hub.ctx, hub.schema, c.fields, r.knownAt, c.effectiveAt, h);
  }

  function NewRecord(hub: Hub, pass: Pass, c: Candidate, payload: Payload): Record {
    Record(hub.schema.name, c.scope, BuildKey(hub, c), 1, KnownAt(pass, c), c.effectiveAt,
           c.periodStart, c.periodEnd, if pass.live then Observed else c.availability,
           pass.source, pass.sourceVersion, pass.parser, pass.rawRef, payload, 0)
  }

  ghost function Step(hub: Hub, pass: Pass, st: State, c: Candidate): (State, Outcome)
    requires Usable(hub)
  {
    if !Admitted(pass, c) then (st, Quarantined)
    else
      var f := FactsOf(st.history, c.scope);
      var touched := st.(history := st.history[c.scope := f]);
      var draft := Draft(hub, pass, f, c);
      if draft.None? then (touched, Quarantined)
      else Settle(hub, pass, touched, c, draft.value)
  }

  /** What becomes of a drafted record: refused as stale, dropped as a duplicate, or written. */
  ghost function Settle(hub: Hub, pass: Pass, st: State, c: Candidate, draft: Record): (State, Outcome)
    requires Usable(hub)
  {
    var decided := Assign(st.index, draft);
    if decided.None? then (st, Duplicate)
    else if Stale(pass, c) then (st, Quarantined)
    else
      var r := decided.value;
      var f := FactsOf(st.history, c.scope);
      var history := if Reach(hub.schema) > 0
                     then st.history[c.scope := f[r.key := Fact(c.effectiveAt, r.fields)]]
                     else st.history;
      (State(Observe(st.index, r), history), Written(r))
  }

  /** What a written outcome is: the draft with its revision, from the facts of its own scope. */
  lemma WrittenShape(hub: Hub, pass: Pass, st: State, c: Candidate)
    requires Usable(hub) && Step(hub, pass, st, c).1.Written?
    ensures var r := Step(hub, pass, st, c).1.record;
            var draft := Draft(hub, pass, FactsOf(st.history, c.scope), c);
            && draft.Some? && r == draft.value.(revision := r.revision) && r.scope == c.scope
            && r.effectiveAt == c.effectiveAt && r.seqNo == 0
            && r.key == BuildKey(hub, c) && r.dataset == hub.schema.name && r.knownAt == KnownAt(pass, c)
            && Assign(st.index, draft.value) == Some(r) && Step(hub, pass, st, c).0.index == Observe(st.index, r)
  {}

  /** The instant a pass stamps on a candidate, and whether it is too old for a live one. */
  ghost predicate Decides(hub: Hub, pass: Pass, index: Index, c: Candidate, draft: Option<Record>, out: Outcome) {
    var knownAt := if pass.live then pass.now else if c.knownAt.Some? then c.knownAt.value else pass.now;
    var readable := !c.parseError && knownAt <= pass.wall + pass.skew && draft.Some?;
    var held := draft.Some? && var prior := Lookup(index, hub.schema.name, BuildKey(hub, c));
                prior.Some? && prior.value.payload == draft.value.fields;
    var old_ := pass.live && pass.maxAge.Some? && c.effectiveAt < pass.wall - pass.maxAge.value;
    && (out.Duplicate? <==> readable && held)
    && (out.Quarantined? <==> !readable || (!held && old_))
    && (out.Written? <==> readable && !held && !old_)
    && (out.Written? ==>
          var r, prior := out.record, Lookup(index, hub.schema.name, BuildKey(hub, c));
          && r.revision == (if prior.Some? then prior.value.revision + 1 else 1)
          && r.knownAt == knownAt && r.effectiveAt == c.effectiveAt
          && r.periodStart == c.periodStart && r.periodEnd == c.periodEnd
          && r.availability == (if pass.live then Observed else c.availability)
          && r.dataset == hub.schema.name && r.scope == c.scope && r.key == BuildKey(hub, c)
          && r.source == pass.source && r.sourceVersion == pass.sourceVersion && r.parser == pass.parser && r.rawRef == pass.rawRef
          && r.fields == draft.value.fields)
  }

  /** What becomes of a candidate: refused when it could not be parsed, runs ahead of the clock, does not
      validate, or is news too old to have just been observed; dropped when its payload is held; written
      otherwise, under the next revision of its key and with what the candidate and the pass say. */
  lemma StepDecides(hub: Hub, pass: Pass, st: State, c: Candidate)
    requires Usable(hub)
    ensures Decides(hub, pass, st.index, c, Draft(hub, pass, FactsOf(st.history, c.scope), c), Step(hub, pass, st, c).1)
  {}

  /** A step moves only its own scope's facts, and only when it writes. */
  lemma StepFacts(hub: Hub, pass: Pass, st: State, c: Candidate, scope: string)
    requires Usable(hub)
    ensures var (after, out) := Step(hub, pass, st, c);
            FactsOf(after.history, scope) ==
            if out.Written? && Reach(hub.schema) > 0 && scope == c.scope
            then FactsOf(st.history, scope)[out.record.key := Fact(c.effectiveAt, out.record.fields)]
            else FactsOf(st.history, scope)
  {
    var f := FactsOf(st.history, c.scope);
    var touched := st.(history := st.history[c.scope := f]);
    assert FactsOf(touched.history, scope) == FactsOf(st.history, scope);
    if draft :| Step(hub, pass, st, c) == Settle(hub, pass, touched, c, draft) {
      SettleFacts(hub, pass, touched, c, draft, scope);
    } else {
      Refused(hub, pass, st, c, touched);
    }
  }

  /** A candidate that is refused leaves at most an empty history behind. */
  lemma Refused(hub: Hub, pass: Pass, st: State, c: Candidate, touched: State)
    requires Usable(hub) && touched == st.(history := st.history[c.scope := FactsOf(st.history, c.scope)])
    requires forall draft :: Step(hub, pass, st, c) != Settle(hub, pass, touched, c, draft)
    ensures Step(hub, pass, st, c) in {(st, Quarantined), (touched, Quarantined)}
  {}

  lemma SettleFacts(hub: Hub, pass: Pass, st: State, c: Candidate, draft: Record, scope: string)
    requires Usable(hub)
    ensures var (after, out) := Settle(hub, pass, st, c, draft);
            FactsOf(after.history, scope) ==
            if out.Written? && Reach(hub.schema) > 0 && scope == c.scope
            then FactsOf(st.history, scope)[out.record.key := Fact(c.effectiveAt, out.record.fields)]
            else FactsOf(st.history, scope)
  {}

  // ---------------------------------------------------------------- a batch

  ghost function IngestAll(hub: Hub, pass: Pass, st: State, cs: seq<Candidate>): (State, seq<Outcome>)
    requires Usable(hub)
  {
    if cs == [] then (st, [])
    else
      var (before, outs) := IngestAll(hub, pass, st, cs[..|cs| - 1]);
      var (after, out) := Step(hub, pass, before, cs[|cs| - 1]);
      (after, outs + [out])
  }

  function WrittenOf(outs: seq<Outcome>): seq<Record> {
    if outs == [] then []
    else WrittenOf(outs[..|outs| - 1]) +
         match outs[|outs| - 1] { case Written(r) => [r] case _ => [] }
  }

  function CountDuplicates(outs: seq<Outcome>): nat {
    if outs == [] then 0
    else CountDuplicates(outs[..|outs| - 1]) + if outs[|outs| - 1].Duplicate? then 1 else 0
  }

  function CountQuarantined(outs: seq<Outcome>): nat {
    if outs == [] then 0
    else CountQuarantined(outs[..|outs| - 1]) + if outs[|outs| - 1].Quarantined? then 1 else 0
  }

  function CountRevisions(rs: seq<Record>): nat {
    if rs == [] then 0
    else CountRevisions(rs[..|rs| - 1]) + if rs[|rs| - 1].revision > 1 then 1 else 0
  }

  datatype IngestResult = IngestResult(records: seq<Record>, quarantined: nat, duplicates: nat, revisions: nat)

  function Summary(outs: seq<Outcome>): IngestResult {
    IngestResult(WrittenOf(outs), CountQuarantined(outs), CountDuplicates(outs), CountRevisions(WrittenOf(outs)))
  }

  /** One line of the quarantine log: what was refused, when and of which raw input. */
  datatype Refusal = Refusal(dataset: string, payload: Payload, at: int, rawRef: Option<string>)

  function Refuse(hub: Hub, pass: Pass, c: Candidate): Refusal {
    Refusal(hub.schema.name, c.fields, pass.now, pass.rawRef)
  }

  /** What a batch with these outcomes leaves in the quarantine, in order. */
  function Refusals(hub: Hub, pass: Pass, cs: seq<Candidate>, outs: seq<Outcome>): seq<Refusal>
    requires |cs| == |outs|
  {
    if cs == [] then []
    else Refusals(hub, pass, cs[..|cs| - 1], outs[..|outs| - 1]) +
         if outs[|outs| - 1].Quarantined? then [Refuse(hub, pass, cs[|cs| - 1])] else []
  }

  lemma RefusalsSnoc(hub: Hub, pass: Pass, cs: seq<Candidate>, outs: seq<Outcome>, c: Candidate, out: Outcome)
    requires |cs| == |outs|
    ensures Refusals(hub, pass, cs + [c], outs + [out]) ==
            Refusals(hub, pass, cs, outs) + if out.Quarantined? then [Refuse(hub, pass, c)] else []
  {
    assert (cs + [c])[..|cs|] == cs && (outs + [out])[..|outs|] == outs;
  }

  lemma {:induction false} OneOutcomeEach(hub: Hub, pass: Pass, st: State, cs: seq<Candidate>)
    requires Usable(hub)
    ensures |IngestAll(hub, pass, st, cs).1| == |cs|
  {
    if cs == [] {
    } else {
      OneOutcomeEach(hub, pass, st, cs[..|cs| - 1]);
    }
  }

  /** The counts add up, and the refused are as many as the quarantine's lines. */
  lemma {:induction false} CountsAddUp(hub: Hub, pass: Pass, cs: seq<Candidate>, outs: seq<Outcome>)
    requires |cs| == |outs|
    ensures var s := Summary(outs);
            && |s.records| + s.duplicates + s.quarantined == |cs| && s.revisions <= |s.records|
            && |Refusals(hub, pass, cs, outs)| == s.quarantined
  {
    if outs == [] {
    } else {
      var init, out := outs[..|outs| - 1], outs[|outs| - 1];
      assert outs == init + [out];
      CountsAddUp(hub, pass, cs[..|cs| - 1], init);
      SummarySnoc(init, out);
    }
  }

  /** What becomes of one candidate. */
  predicate Accounted(hub: Hub, pass: Pass, c: Candidate, out: Outcome, records: seq<Record>, refusals: seq<Refusal>) {
    match out
    case Written(r) => r in records
    case Quarantined => Refuse(hub, pass, c) in refusals
    case Duplicate => true
  }

  lemma {:induction false} EachAccounted(hub: Hub, pass: Pass, cs: seq<Candidate>, outs: seq<Outcome>, i: nat)
    requires |cs| == |outs| && i < |cs|
    ensures Accounted(hub, pass, cs[i], outs[i], WrittenOf(outs), Refusals(hub, pass, cs, outs))
  {
    if i == |cs| - 1 {
    } else {
      EachAccounted(hub, pass, cs[..|cs| - 1], outs[..|outs| - 1], i);
    }
  }

  /** Every candidate of a batch is written, dropped as a duplicate or in the quarantine. */
  lemma NothingVanishes(hub: Hub, pass: Pass, st: State, cs: seq<Candidate>)
    requires Usable(hub)
    ensures var outs := IngestAll(hub, pass, st, cs).1;
            var s := Summary(outs);
            && |outs| == |cs| && |s.records| + s.duplicates + s.quarantined == |cs| && s.revisions <= |s.records|
            && |Refusals(hub, pass, cs, outs)| == s.quarantined
            && forall i :: 0 <= i < |cs| ==> Accounted(hub, pass, cs[i], outs[i], s.records, Refusals(hub, pass, cs, outs))
  {
    var outs := IngestAll(hub, pass, st, cs).1;
    OneOutcomeEach(hub, pass, st, cs);
    CountsAddUp(hub, pass, cs, outs);
    forall i | 0 <= i < |cs|
      ensures Accounted(hub, pass, cs[i], outs[i], WrittenOf(outs), Refusals(hub, pass, cs, outs))
    {
      EachAccounted(hub, pass, cs, outs, i);
    }
  }

  // ---------------------------------------------------------------- the mutable run

  /** The histories a caller owns across batches, by scope. */
  class HistoryTable {
    var byScope: map<string, ScopeHistory>

    constructor ()
      ensures Valid() && Model() == map[] && byScope == map[]
    {
      byScope := map[];
    }

    ghost function Members(): set<object>
      reads this
    {
      set s | s in byScope :: byScope[s]
    }

    ghost predicate Valid()
      reads this, Members()
    {
      && (forall s :: s in byScope ==> byScope[s].Valid())
      && (forall s, t :: s in byScope && t in byScope && s != t ==> byScope[s] != byScope[t])
    }

    ghost function Model(): map<string, Facts>
      reads this, Members()
      requires Valid()
    {
      map s | s in byScope :: byScope[s].Model()
    }

    /** `history.setdefault(scope, ScopeHistory())`. */
    method SetDefault(scope: string) returns (h: ScopeHistory)
      requires Valid()
      modifies this
      ensures Valid() && scope in byScope && byScope[scope] == h
      ensures Model() == old(Model())[scope := FactsOf(old(Model()), scope)]
      ensures fresh(Members() - old(Members()))
      ensures h.Valid() && h.Model() == FactsOf(old(Model()), scope)
    {
      if scope in byScope {
        h := byScope[scope];
      } else {
        h := AddScope(scope);
      }
    }

    method AddScope(scope: string) returns (h: ScopeHistory)
      requires Valid() && scope !in byScope
      modifies this
      ensures fresh(h) && h.Valid() && h.Model() == map[]
      ensures Valid() && byScope == old(byScope)[scope := h]
    {
      h := new ScopeHistory();
      byScope := byScope[scope := h];
    }

    /** Updating one scope's history leaves every other scope alone. */
    method UpsertIn(scope: string, at: int, key: string, payload: Payload)
      requires Valid() && scope in byScope
      modifies Members()
      ensures Valid() && byScope == old(byScope)
      ensures Model() == old(Model())[scope := FactsOf(old(Model()), scope)[key := Fact(at, payload)]]
    {
      var h := byScope[scope];
      h.Upsert(at, key, payload);
    }
  }

  /** The batch, candidate by candidate; `refusals` is what it writes to the quarantine. */
  method Ingest(hub: Hub, pass: Pass, cs: seq<Candidate>, index: RevisionIndex, history: HistoryTable)
    returns (result: IngestResult, refusals: seq<Refusal>)
    requires Usable(hub) && history.Valid()
    requires index as object != history && index as object !in history.Members() && history as object !in history.Members()
    modifies index, history, history.Members()
    ensures history.Valid() && fresh(history.Members() - old(history.Members()))
    ensures index as object !in history.Members() && history as object !in history.Members()
    ensures var run := IngestAll(hub, pass, State(old(index.state), old(history.Model())), cs);
            && State(index.state, history.Model()) == run.0 && result == Summary(run.1)
            && |run.1| == |cs| && refusals == Refusals(hub, pass, cs, run.1)
  {
    result, refusals := IngestResult([], 0, 0, 0), [];
    ghost var start := State(index.state, history.Model());
    ghost var outs: seq<Outcome> := [];
    for i := 0 to |cs|
      invariant history.Valid()
      invariant index as object !in history.Members() && history as object !in history.Members()
      invariant fresh(history.Members() - old(history.Members()))
      invariant IngestAll(hub, pass, start, cs[..i]) == (State(index.state, history.Model()), outs)
      invariant result == Summary(outs)
      invariant |outs| == i && refusals == Refusals(hub, pass, cs[..i], outs)
    {
      ghost var before := State(index.state, history.Model());
      var out := IngestOne(hub, pass, cs[i], index, history);
      OneMore(hub, pass, start, cs, i, before, outs, State(index.state, history.Model()), out);
      OneMoreRefusal(hub, pass, cs, i, outs, out);
      SummarySnoc(outs, out);
      result := Tally(result, out);
      if out.Quarantined? { refusals := refusals + [Refuse(hub, pass, cs[i])]; }
      outs := outs + [out];
    }
    assert cs[..|cs|] == cs;
  }

  lemma OneMore(hub: Hub, pass: Pass, start: State, cs: seq<Candidate>, i: nat, before: State, outs: seq<Outcome>, after: State, out: Outcome)
    requires Usable(hub) && i < |cs| && |outs| == i
    requires IngestAll(hub, pass, start, cs[..i]) == (before, outs) && Step(hub, pass, before, cs[i]) == (after, out)
    ensures IngestAll(hub, pass, start, cs[..i + 1]) == (after, outs + [out])
  {
    assert cs[..i + 1][..i] == cs[..i];
  }

  lemma OneMoreRefusal(hub: Hub, pass: Pass, cs: seq<Candidate>, i: nat, outs: seq<Outcome>, out: Outcome)
    requires i < |cs| && |outs| == i
    ensures Refusals(hub, pass, cs[..i + 1], outs + [out]) ==
            Refusals(hub, pass, cs[..i], outs) + if out.Quarantined? then [Refuse(hub, pass, cs[i])] else []
  {
    RefusalsSnoc(hub, pass, cs[..i], outs, cs[i], out);
    assert cs[..i + 1] == cs[..i] + [cs[i]];
  }

  /** The counters after one more outcome. */
  function Tally(s: IngestResult, out: Outcome): IngestResult {
    match out
    case Written(r) => s.(records := s.records + [r], revisions := s.revisions + if r.revision > 1 then 1 else 0)
    case Duplicate => s.(duplicates := s.duplicates + 1)
    case Quarantined => s.(quarantined := s.quarantined + 1)
  }

  lemma SummarySnoc(outs: seq<Outcome>, out: Outcome)
    ensures Summary(outs + [out]) == Tally(Summary(outs), out)
  {
    assert (outs + [out])[..|outs|] == outs;
    var rs := WrittenOf(outs);
    match out
    case Written(r) => assert (rs + [r])[..|rs|] == rs;
    case _ => assert rs + [] == rs;
  }

  /** Derive, validate and build the record, reading no further back into this scope's past than some
      expression looks. */
  method MakeDraft(hub: Hub, pass: Pass, c: Candidate, h: ScopeHistory) returns (draft: Option<Record>)
    requires Usable(hub) && h.Valid()
    ensures draft == Draft(hub, pass, h.Model(), c)
  {
    var reach := Reach(hub.schema);
    var key := BuildKey(hub, c);
    var earlier: History := [];
    if reach > 0 { earlier := h.BeforeSlot(c.effectiveAt, key, Some(reach)); }
    ReachSuffices(hub.ctx, hub.schema, c.fields, KnownAt(pass, c), c.effectiveAt, Before(h.Model(), c.effectiveAt, key));
    var derived := ComputeDerived(hub.ctx, hub.schema, c.fields, KnownAt(pass, c), c.effectiveAt, earlier);
    var payload := ValidatePayload(hub.schema, derived);
    if payload.None? { return None; }
    var r := NewRecord(hub, pass, c, payload.value);
    draft := if EnvelopeOk(r) then Some(r) else None;
  }

  method SettleOne(hub: Hub, pass: Pass, c: Candidate, draft: Record, index: RevisionIndex, history: HistoryTable)
    returns (out: Outcome)
    requires Usable(hub) && history.Valid() && c.scope in history.byScope
    requires index as object != history && index as object !in history.Members() && history as object !in history.Members()
    modifies index, history.Members()
    ensures history.Valid() && history.byScope == old(history.byScope)
    ensures (State(index.state, history.Model()), out) ==
            Settle(hub, pass, State(old(index.state), old(history.Model())), c, draft)
  {
    if Stale(pass, c) {
      var prior := Lookup(index.state, draft.dataset, draft.key);
      if prior.Some? && prior.value.payload == draft.fields { return Duplicate; }
      return Quarantined;
    }
    var decided := index.AssignRevision(draft);
    if decided.None? { return Duplicate; }
    if Reach(hub.schema) > 0 {
      history.UpsertIn(c.scope, c.effectiveAt, decided.value.key, decided.value.fields);
    }
    return Written(decided.value);
  }

  method IngestOne(hub: Hub, pass: Pass, c: Candidate, index: RevisionIndex, history: HistoryTable)
    returns (out: Outcome)
    requires Usable(hub) && history.Valid()
    requires index as object != history && index as object !in history.Members() && history as object !in history.Members()
    modifies index, history, history.Members()
    ensures history.Valid() && fresh(history.Members() - old(history.Members()))
    ensures index as object !in history.Members() && history as object !in history.Members()
    ensures (State(index.state, history.Model()), out) ==
            Step(hub, pass, State(old(index.state), old(history.Model())), c)
  {
    if !Admitted(pass, c) { return Quarantined; }
    var h := history.SetDefault(c.scope);
    var draft := MakeDraft(hub, pass, c, h);
    if draft.None? { return Quarantined; }
    out := SettleOne(hub, pass, c, draft.value, index, history);
  }
}
