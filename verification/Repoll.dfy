/** Polling a source again writes nothing (hub/pipeline.py, `ingest`; hub/dedupe.py, `assign`).

    A source with no incremental mode sends its whole history on every poll.  Ingesting the same
    batch again, later, must leave the journal alone: what was written or already known comes back
    as a duplicate even when it has since gone stale, and what was refused is refused again. */
module Repoll {
  import opened Wrappers
  import opened Records
  import opened Derive
  import opened Schemas
  import opened Histories
  import opened Dedupe
  import opened Pipeline
  import opened Ingestion
  import opened Agreement

  /** A second live poll of one source: only the clock has moved on. */
  ghost predicate LaterPoll(first: Pass, second: Pass) {
    && first.live && second.live
    && first.wall == first.now && second.wall == second.now && first.now <= second.now
    && second.skew == first.skew && second.maxAge == first.maxAge
    && second.source == first.source
    && TimestampOk(first.now)
  }

  /** The finished payload of a candidate drafted at one clock over a scope's facts. */
  ghost function FinishedAt(hub: Hub, f: Facts, c: Candidate, t: int): Payload
    requires Usable(hub)
  {
    DeriveFields(hub.ctx, hub.schema, c.fields, t, c.effectiveAt,
                 Before(f, c.effectiveAt, BuildKey(hub, c)))
  }

  /** Every derived field that reads the clock says the same at both. */
  ghost predicate Steady(hub: Hub, f: Facts, c: Candidate, t: int, u: int)
    requires Usable(hub)
  {
    forall n :: n in hub.schema.derivedOrder && ReadsKnownAt(ExprOf(hub.schema, n)) ==>
      Get(FinishedAt(hub, f, c, t), n) == Get(FinishedAt(hub, f, c, u), n)
  }

  /** No derived field reads the clock at all. */
  ghost predicate ClockFree(s: Schema)
    requires AllDerived(s, s.derivedOrder)
  {
    forall n :: n in s.derivedOrder ==> !ReadsKnownAt(ExprOf(s, n))
  }

  /** Within each scope ascending by (effective_at, key), and no key twice. */
  ghost predicate AscendingBatch(hub: Hub, cs: seq<Candidate>) {
    forall i, j :: 0 <= i < j < |cs| ==>
      && (cs[i].scope == cs[j].scope ==> SlotLess(SlotOf(hub, cs[i]), SlotOf(hub, cs[j])))
      && BuildKey(hub, cs[i]) != BuildKey(hub, cs[j])
  }

  function SlotOf(hub: Hub, c: Candidate): Slot { Slot(c.effectiveAt, BuildKey(hub, c)) }

  /** A key the scope already holds stands at the effective_at the batch gives it. */
  ghost predicate KeysFixEffectiveAt(hub: Hub, st: State, cs: seq<Candidate>) {
    forall c :: c in cs ==>
      var f := FactsOf(st.history, c.scope);
      BuildKey(hub, c) in f ==> f[BuildKey(hub, c)].at == c.effectiveAt
  }

  // ---------------------------------------------------------------- what a later clock changes

  /** When the fields that read the clock come out alike, so does everything computed from them. */
  lemma {:induction false} PassIsSteady(ctx: Context, s: Schema, names: seq<string>, merged: Payload, t: Value, h: History)
    requires AllDerived(s, names) && Unique(names) && "known_at" !in names && "known_at" in merged
    requires forall n :: n in names && ReadsKnownAt(ExprOf(s, n)) ==>
      Get(DerivePass(ctx, s, names, merged["known_at" := t], h), n) == Get(DerivePass(ctx, s, names, merged, h), n)
    ensures DerivePass(ctx, s, names, merged["known_at" := t], h) ==
            DerivePass(ctx, s, names, merged, h)["known_at" := t]
  {
    if names == [] {
    } else {
      var n, late := names[0], merged["known_at" := t];
      var v, w := Run(ctx, ExprOf(s, n), merged, h), Run(ctx, ExprOf(s, n), late, h);
      HeadStands(ctx, s, names, merged, h);
      HeadStands(ctx, s, names, late, h);
      if !ReadsKnownAt(ExprOf(s, n)) { EvalIgnoresKnownAt(ctx, ExprOf(s, n), merged, t, h); }
      assert v == w && late[n := v] == merged[n := v]["known_at" := t];
      PassIsSteady(ctx, s, names[1..], merged[n := v], t, h);
    }
  }

  /** The first field of a pass keeps the value it was given. */
  lemma HeadStands(ctx: Context, s: Schema, names: seq<string>, merged: Payload, h: History)
    requires AllDerived(s, names) && Unique(names) && names != []
    ensures var v := Run(ctx, ExprOf(s, names[0]), merged, h);
            && DerivePass(ctx, s, names, merged, h) == DerivePass(ctx, s, names[1..], merged[names[0] := v], h)
            && Get(DerivePass(ctx, s, names, merged, h), names[0]) == v
  {
    var v := Run(ctx, ExprOf(s, names[0]), merged, h);
    DerivePassKeeps(ctx, s, names[1..], merged[names[0] := v], h);
  }

  /** A finished derived field is what the pass left. */
  lemma FinishedFromPass(hub: Hub, f: Facts, c: Candidate, t: int)
    requires Usable(hub)
    ensures var s := hub.schema;
            var r := DerivePass(hub.ctx, s, s.derivedOrder, WithEnvelope(c.fields, t, c.effectiveAt),
                                Before(f, c.effectiveAt, BuildKey(hub, c)));
            && (forall n :: n in s.derivedOrder ==> n in r && Get(FinishedAt(hub, f, c, t), n) == r[n])
            && FinishedAt(hub, f, c, t) == Overlay(c.fields, r, s.derivedOrder)
  {
    var s := hub.schema;
    DerivePassKeeps(hub.ctx, s, s.derivedOrder, WithEnvelope(c.fields, t, c.effectiveAt),
                    Before(f, c.effectiveAt, BuildKey(hub, c)));
  }

  lemma SteadyIsSame(hub: Hub, f: Facts, c: Candidate, t: int, u: int)
    requires Usable(hub)
    ensures Steady(hub, f, c, t, u) <==> FinishedAt(hub, f, c, t) == FinishedAt(hub, f, c, u)
  {
    if Steady(hub, f, c, t, u) {
      var s := hub.schema;
      var a := WithEnvelope(c.fields, t, c.effectiveAt);
      DerivedOrderIsDerived(s);
      assert WithEnvelope(c.fields, u, c.effectiveAt) == a["known_at" := Int(u)];
      FinishedFromPass(hub, f, c, t);
      FinishedFromPass(hub, f, c, u);
      PassIsSteady(hub.ctx, s, s.derivedOrder, a, Int(u), Before(f, c.effectiveAt, BuildKey(hub, c)));
    }
  }

  /** Equivalent pasts finish a candidate alike. */
  lemma SamePastSameFinish(hub: Hub, f: Facts, g: Facts, c: Candidate, t: int)
    requires Usable(hub)
    requires Reach(hub.schema) > 0 ==>
      Before(f, c.effectiveAt, BuildKey(hub, c)) == Before(g, c.effectiveAt, BuildKey(hub, c))
    ensures FinishedAt(hub, f, c, t) == FinishedAt(hub, g, c, t)
  {
    if Reach(hub.schema) == 0 {
      var was, now := Before(f, c.effectiveAt, BuildKey(hub, c)), Before(g, c.effectiveAt, BuildKey(hub, c));
      assert Last(was, 0) == [] == Last(now, 0);
      ReachSuffices(hub.ctx, hub.schema, c.fields, t, c.effectiveAt, was);
      ReachSuffices(hub.ctx, hub.schema, c.fields, t, c.effectiveAt, now);
    }
  }

  /** A drafted record carries its finished payload, normalised; its derived fields are as computed. */
  lemma DraftCarries(hub: Hub, pass: Pass, f: Facts, c: Candidate, r: Record)
    requires Usable(hub) && Draft(hub, pass, f, c) == Some(r)
    ensures forall n :: n in hub.schema.derivedOrder ==> Get(r.fields, n) == Get(FinishedAt(hub, f, c, KnownAt(pass, c)), n)
  {
    var s, t := hub.schema, KnownAt(pass, c);
    var out := FinishedAt(hub, f, c, t);
    var h := Before(f, c.effectiveAt, BuildKey(hub, c));
    DeriveFieldsFinishes(hub.ctx, s, c.fields, t, c.effectiveAt, h);
    forall n | n in s.derivedOrder ensures Get(r.fields, n) == Get(out, n) {
      assert IsDerived(s, n) && n in out && n in s.fields;
      ComputedIsNormal(hub.ctx, ExprOf(s, n), WithEnvelope(out, t, c.effectiveAt), h, s.fields[n]);
    }
  }

  /** Drafting the same candidate over the same past at two clocks: the same facts exactly when the
      clock does not show. */
  lemma DraftTwice(hub: Hub, first: Pass, second: Pass, f: Facts, g: Facts, c: Candidate)
    requires Usable(hub) && LaterPoll(first, second)
    requires Reach(hub.schema) > 0 ==>
      Before(f, c.effectiveAt, BuildKey(hub, c)) == Before(g, c.effectiveAt, BuildKey(hub, c))
    ensures var a, b := Draft(hub, first, f, c), Draft(hub, second, g, c);
            && (Steady(hub, f, c, first.now, second.now) ==>
                  (b.Some? ==> a.Some?) && (a.Some? && TimestampOk(second.now) ==> b.Some?))
            && (a.Some? && b.Some? ==> a.value.key == b.value.key && a.value.dataset == b.value.dataset)
            && (a.Some? && b.Some? ==> (a.value.fields == b.value.fields <==> Steady(hub, f, c, first.now, second.now)))
  {
    SamePastSameFinish(hub, f, g, c, second.now);
    SteadyIsSame(hub, f, c, first.now, second.now);
    var a, b := Draft(hub, first, f, c), Draft(hub, second, g, c);
    if a.Some? && b.Some? {
      DraftCarries(hub, first, f, c, a.value);
      DraftCarries(hub, second, g, c, b.value);
    }
  }

  // ---------------------------------------------------------------- what a batch leaves behind

  ghost function After(hub: Hub, pass: Pass, st: State, cs: seq<Candidate>, i: nat): State
    requires Usable(hub) && i <= |cs|
  {
    IngestAll(hub, pass, st, cs[..i]).0
  }

  lemma AfterStep(hub: Hub, pass: Pass, st: State, cs: seq<Candidate>, i: nat)
    requires Usable(hub) && i < |cs|
    ensures After(hub, pass, st, cs, i + 1) == Step(hub, pass, After(hub, pass, st, cs, i), cs[i]).0
    ensures IngestAll(hub, pass, st, cs[..i + 1]).1 ==
            IngestAll(hub, pass, st, cs[..i]).1 + [Step(hub, pass, After(hub, pass, st, cs, i), cs[i]).1]
  {
    assert cs[..i + 1][..i] == cs[..i];
  }

  lemma {:induction false} OutcomesLine(hub: Hub, pass: Pass, st: State, cs: seq<Candidate>)
    requires Usable(hub)
    ensures |IngestAll(hub, pass, st, cs).1| == |cs|
    ensures forall i :: 0 <= i < |cs| ==>
      IngestAll(hub, pass, st, cs).1[i] == Step(hub, pass, After(hub, pass, st, cs, i), cs[i]).1
  {
    if cs == [] {
    } else {
      var init := cs[..|cs| - 1];
      OutcomesLine(hub, pass, st, init);
      forall i | 0 <= i < |cs|
        ensures IngestAll(hub, pass, st, cs).1[i] == Step(hub, pass, After(hub, pass, st, cs, i), cs[i]).1
      {
        assert cs[..|cs| - 1][..|cs| - 1] == init;
        if i < |init| { assert init[..i] == cs[..i]; }
      }
    }
  }

  /** From `a` to `b` a candidate's index entry has not moved, nor, since `start`, has anything that
      precedes it on its timeline. */
  ghost predicate LeftAlone(hub: Hub, c: Candidate, start: State, a: State, b: State) {
    && Lookup(b.index, hub.schema.name, BuildKey(hub, c)) == Lookup(a.index, hub.schema.name, BuildKey(hub, c))
    && Before(FactsOf(b.history, c.scope), c.effectiveAt, BuildKey(hub, c)) ==
       Before(FactsOf(start.history, c.scope), c.effectiveAt, BuildKey(hub, c))
  }

  /** Later candidates of the batch leave an earlier one alone. */
  lemma {:induction false} LaterLeavesAlone(hub: Hub, pass: Pass, st: State, cs: seq<Candidate>, i: nat, j: nat)
    requires Usable(hub) && AscendingBatch(hub, cs) && KeysFixEffectiveAt(hub, st, cs)
    requires i < j <= |cs|
    ensures LeftAlone(hub, cs[i], After(hub, pass, st, cs, i), After(hub, pass, st, cs, i + 1), After(hub, pass, st, cs, j))
    decreases j
  {
    if j == i + 1 {
      OwnStepKeepsBefore(hub, pass, st, cs, i);
    } else {
      LaterLeavesAlone(hub, pass, st, cs, i, j - 1);
      OneLeavesAlone(hub, pass, st, cs, i, j - 1, After(hub, pass, st, cs, j));
    }
  }

  lemma OneLeavesAlone(hub: Hub, pass: Pass, st: State, cs: seq<Candidate>, i: nat, j: nat, next: State)
    requires Usable(hub) && AscendingBatch(hub, cs) && KeysFixEffectiveAt(hub, st, cs)
    requires i < j < |cs| && next == After(hub, pass, st, cs, j + 1)
    ensures LeftAlone(hub, cs[i], After(hub, pass, st, cs, j), After(hub, pass, st, cs, j), next)
  {
    var c, d, mid := cs[i], cs[j], After(hub, pass, st, cs, j);
    AfterStep(hub, pass, st, cs, j);
    StepIndexOnlyOwnKey(hub, pass, mid, d, BuildKey(hub, c));
    AtStaysFixed(hub, pass, st, cs, j, c.scope);
    StepKeepsBefore(hub, pass, mid, d, c.scope, SlotOf(hub, c));
  }

  lemma StepIndexOnlyOwnKey(hub: Hub, pass: Pass, st: State, c: Candidate, key: string)
    requires Usable(hub) && BuildKey(hub, c) != key
    ensures Lookup(Step(hub, pass, st, c).0.index, hub.schema.name, key) == Lookup(st.index, hub.schema.name, key)
  {}

  lemma OwnStepKeepsBefore(hub: Hub, pass: Pass, st: State, cs: seq<Candidate>, i: nat)
    requires Usable(hub) && i < |cs|
    ensures var c := cs[i];
            Before(FactsOf(After(hub, pass, st, cs, i + 1).history, c.scope), c.effectiveAt, BuildKey(hub, c)) ==
            Before(FactsOf(After(hub, pass, st, cs, i).history, c.scope), c.effectiveAt, BuildKey(hub, c))
  {
    var c := cs[i];
    AfterStep(hub, pass, st, cs, i);
    StepTouchesOneKey(hub, pass, After(hub, pass, st, cs, i), c, c.scope);
    BeforeIgnoresLater(FactsOf(After(hub, pass, st, cs, i + 1).history, c.scope),
                       FactsOf(After(hub, pass, st, cs, i).history, c.scope), c.effectiveAt, BuildKey(hub, c));
  }

  /** A step changes at most one fact of its own scope: its key, at its own effective_at. */
  lemma StepTouchesOneKey(hub: Hub, pass: Pass, st: State, c: Candidate, scope: string)
    requires Usable(hub)
    ensures var f, g := FactsOf(st.history, scope), FactsOf(Step(hub, pass, st, c).0.history, scope);
            || g == f
            || (scope == c.scope && BuildKey(hub, c) in g && g[BuildKey(hub, c)].at == c.effectiveAt
                && g == f[BuildKey(hub, c) := g[BuildKey(hub, c)]])
  {
    StepFacts(hub, pass, st, c, scope);
    if Step(hub, pass, st, c).1.Written? { WrittenShape(hub, pass, st, c); }
  }

  lemma StepKeepsBefore(hub: Hub, pass: Pass, st: State, d: Candidate, scope: string, slot: Slot)
    requires Usable(hub) && (scope == d.scope ==> SlotLess(slot, SlotOf(hub, d)))
    requires scope == d.scope && BuildKey(hub, d) in FactsOf(st.history, scope) ==>
      FactsOf(st.history, scope)[BuildKey(hub, d)].at == d.effectiveAt
    ensures Before(FactsOf(Step(hub, pass, st, d).0.history, scope), slot.at, slot.key) ==
            Before(FactsOf(st.history, scope), slot.at, slot.key)
  {
    StepTouchesOneKey(hub, pass, st, d, scope);
    SlotLessTotal(slot, SlotOf(hub, d));
    BeforeIgnoresLater(FactsOf(Step(hub, pass, st, d).0.history, scope), FactsOf(st.history, scope), slot.at, slot.key);
  }

  /** Through the batch, every key of the batch still stands at its own effective_at. */
  lemma {:induction false} AtStaysFixed(hub: Hub, pass: Pass, st: State, cs: seq<Candidate>, i: nat, scope: string)
    requires Usable(hub) && AscendingBatch(hub, cs) && KeysFixEffectiveAt(hub, st, cs) && i <= |cs|
    ensures forall c :: c in cs && c.scope == scope ==>
      var f := FactsOf(After(hub, pass, st, cs, i).history, scope);
      BuildKey(hub, c) in f ==> f[BuildKey(hub, c)].at == c.effectiveAt
  {
    if i == 0 {
      assert cs[..0] == [];
    } else {
      AtStaysFixed(hub, pass, st, cs, i - 1, scope);
      AfterStep(hub, pass, st, cs, i - 1);
      var d := cs[i - 1];
      StepTouchesOneKey(hub, pass, After(hub, pass, st, cs, i - 1), d, scope);
      forall c | c in cs && c.scope == scope && BuildKey(hub, c) == BuildKey(hub, d)
        ensures c == d
      {
        var k :| 0 <= k < |cs| && cs[k] == c;
      }
    }
  }

  // ---------------------------------------------------------------- the fixpoint

  lemma AdmittedAgain(first: Pass, second: Pass, c: Candidate)
    requires LaterPoll(first, second)
    ensures Admitted(first, c) == Admitted(second, c) && (Stale(first, c) ==> Stale(second, c))
  {}

  /** A draft settled by the first pass, settled again. */
  lemma SettleAgain(hub: Hub, first: Pass, second: Pass, st: State, now: State, c: Candidate, a: Record, b: Record)
    requires Usable(hub) && (Stale(first, c) ==> Stale(second, c))
    requires a.fields == b.fields && a.key == b.key && a.dataset == b.dataset
    requires Lookup(now.index, a.dataset, a.key) == Lookup(Settle(hub, first, st, c, a).0.index, a.dataset, a.key)
    ensures var was, again := Settle(hub, first, st, c, a).1, Settle(hub, second, now, c, b).1;
            again == if was.Quarantined? then Quarantined else Duplicate
  {}

  /** A draft the first pass accepted, settled again with other facts. */
  lemma SettleChanged(hub: Hub, first: Pass, second: Pass, st: State, now: State, c: Candidate, a: Record, b: Record)
    requires Usable(hub) && a.fields != b.fields && a.key == b.key && a.dataset == b.dataset
    requires !Settle(hub, first, st, c, a).1.Quarantined?
    requires Lookup(now.index, a.dataset, a.key) == Lookup(Settle(hub, first, st, c, a).0.index, a.dataset, a.key)
    ensures var again := Settle(hub, second, now, c, b).1;
            if Stale(second, c) then again.Quarantined? else again.Written?
  {
    assert Lookup(now.index, a.dataset, a.key).value.payload == a.fields;
  }

  /** The state a second pass meets: the candidate's own past and index entry as the first left them. */
  ghost predicate Meets(hub: Hub, first: Pass, st: State, now: State, c: Candidate)
    requires Usable(hub)
  {
    && Before(FactsOf(now.history, c.scope), c.effectiveAt, BuildKey(hub, c)) ==
       Before(FactsOf(st.history, c.scope), c.effectiveAt, BuildKey(hub, c))
    && Lookup(now.index, hub.schema.name, BuildKey(hub, c)) ==
       Lookup(Step(hub, first, st, c).0.index, hub.schema.name, BuildKey(hub, c))
  }

  /** What the first pass made of a candidate, seen again by a pass that finds the same past: the
      same verdict while the clock does not show, and otherwise a new record unless it has gone stale
      or no longer validates. */
  lemma StepAgain(hub: Hub, first: Pass, second: Pass, st: State, now: State, c: Candidate)
    requires Usable(hub) && LaterPoll(first, second) && Meets(hub, first, st, now, c)
    ensures var was, again := Step(hub, first, st, c).1, Step(hub, second, now, c).1;
            if Steady(hub, FactsOf(st.history, c.scope), c, first.now, second.now)
            then && !again.Written?
                 && (!was.Quarantined? && TimestampOk(second.now) ==> again.Duplicate?)
                 && (was.Quarantined? ==> again.Quarantined?)
            else !was.Quarantined? ==>
                 if Draft(hub, second, FactsOf(now.history, c.scope), c).Some? && !Stale(second, c)
                 then again.Written? else again.Quarantined?
  {
    var f, g := FactsOf(st.history, c.scope), FactsOf(now.history, c.scope);
    AdmittedAgain(first, second, c);
    DraftTwice(hub, first, second, f, g, c);
    var a, b := Draft(hub, first, f, c), Draft(hub, second, g, c);
    if Admitted(first, c) && a.Some? && b.Some? {
      DraftKeyed(hub, first, f, c);
      if Steady(hub, f, c, first.now, second.now) {
        SettleAgain(hub, first, second, Touched(st, c), Touched(now, c), c, a.value, b.value);
      } else if !Step(hub, first, st, c).1.Quarantined? {
        SettleChanged(hub, first, second, Touched(st, c), Touched(now, c), c, a.value, b.value);
      }
    }
  }

  function Touched(st: State, c: Candidate): State { st.(history := st.history[c.scope := FactsOf(st.history, c.scope)]) }

  lemma DraftKeyed(hub: Hub, pass: Pass, f: Facts, c: Candidate)
    requires Usable(hub) && Draft(hub, pass, f, c).Some?
    ensures Draft(hub, pass, f, c).value.key == BuildKey(hub, c) && Draft(hub, pass, f, c).value.dataset == hub.schema.name
  {}

  lemma QuietStep(hub: Hub, pass: Pass, st: State, c: Candidate, scope: string)
    requires Usable(hub) && !Step(hub, pass, st, c).1.Written?
    ensures var after := Step(hub, pass, st, c).0;
            after.index == st.index && FactsOf(after.history, scope) == FactsOf(st.history, scope)
  {}

  // ---------------------------------------------------------------- one candidate polled twice

  /** The state one candidate's own first pass leaves is one its second pass meets. */
  lemma MeetsItself(hub: Hub, first: Pass, st: State, c: Candidate)
    requires Usable(hub)
    ensures Meets(hub, first, st, Step(hub, first, st, c).0, c)
  {
    var once := Step(hub, first, st, c).0;
    StepTouchesOneKey(hub, first, st, c, c.scope);
    BeforeIgnoresLater(FactsOf(once.history, c.scope), FactsOf(st.history, c.scope), c.effectiveAt, BuildKey(hub, c));
  }

  /** A second poll of an accepted candidate is a duplicate if and only if every derived field that
      reads the clock says the same at both clocks; and when one does not, the candidate is written
      again unless it has gone stale or no longer validates. */
  lemma DuplicateIffSteady(hub: Hub, first: Pass, second: Pass, st: State, c: Candidate)
    requires Usable(hub) && LaterPoll(first, second) && TimestampOk(second.now)
    requires !Step(hub, first, st, c).1.Quarantined?
    ensures var once := Step(hub, first, st, c).0;
            var again := Step(hub, second, once, c).1;
            var steady := Steady(hub, FactsOf(st.history, c.scope), c, first.now, second.now);
            && (again.Duplicate? <==> steady)
            && (again.Written? <==> !steady && !Stale(second, c) && Draft(hub, second, FactsOf(once.history, c.scope), c).Some?)
  {
    MeetsItself(hub, first, st, c);
    StepAgain(hub, first, second, st, Step(hub, first, st, c).0, c);
  }

  /** The text a derived `since(a)` gives at a clock. */
  function SinceText(ctx: Context, c: Candidate, a: string, t: int): Value {
    Run(ctx, Call(Since, a), WithEnvelope(c.fields, t, c.effectiveAt), [])
  }

  lemma SinceReadsGiven(ctx: Context, c: Candidate, out: Payload, a: string, t: int, h: History)
    requires a != "known_at" && a != "effective_at" && Get(out, a) == Get(c.fields, a)
    ensures Run(ctx, Call(Since, a), WithEnvelope(out, t, c.effectiveAt), h) == SinceText(ctx, c, a, t)
  {
    var p, q := WithEnvelope(out, t, c.effectiveAt), WithEnvelope(c.fields, t, c.effectiveAt);
    assert Get(p, a) == Get(q, a) && Get(p, "known_at") == Get(q, "known_at");
  }

  lemma SinceAt(hub: Hub, f: Facts, c: Candidate, n: string, a: string, t: int)
    requires Usable(hub) && IsDerived(hub.schema, n) && ExprOf(hub.schema, n) == Call(Since, a)
    requires a in hub.schema.fields && !IsDerived(hub.schema, a)
    ensures Get(FinishedAt(hub, f, c, t), n) == SinceText(hub.ctx, c, a, t)
  {
    var s, out := hub.schema, FinishedAt(hub, f, c, t);
    var h := Before(f, c.effectiveAt, BuildKey(hub, c));
    DerivedOrderIsDerived(s);
    DeriveFieldsFinishes(hub.ctx, s, c.fields, t, c.effectiveAt, h);
    SinceReadsGiven(hub.ctx, c, out, a, t, h);
  }

  lemma SinceIsUnsteady(hub: Hub, f: Facts, c: Candidate, n: string, a: string, t: int, u: int)
    requires Usable(hub) && IsDerived(hub.schema, n) && ExprOf(hub.schema, n) == Call(Since, a)
    requires a in hub.schema.fields && !IsDerived(hub.schema, a)
    requires SinceText(hub.ctx, c, a, t) != SinceText(hub.ctx, c, a, u)
    ensures !Steady(hub, f, c, t, u)
  {
    SinceAt(hub, f, c, n, a, t);
    SinceAt(hub, f, c, n, a, u);
    DerivedOrderIsDerived(hub.schema);
    assert n in hub.schema.derivedOrder && "known_at" in ReadsNow(Call(Since, a));
  }

  /** A re-poll that writes: an accepted candidate with a derived `since(a)` over a given field,
      polled again while not stale, is journalled again whenever the two clocks give other texts. */
  lemma SinceIsWrittenAgain(hub: Hub, first: Pass, second: Pass, st: State, c: Candidate, n: string, a: string)
    requires Usable(hub) && LaterPoll(first, second) && TimestampOk(second.now)
    requires IsDerived(hub.schema, n) && ExprOf(hub.schema, n) == Call(Since, a)
    requires a in hub.schema.fields && !IsDerived(hub.schema, a)
    requires !Step(hub, first, st, c).1.Quarantined? && !Stale(second, c)
    requires Draft(hub, second, FactsOf(Step(hub, first, st, c).0.history, c.scope), c).Some?
    requires SinceText(hub.ctx, c, a, first.now) != SinceText(hub.ctx, c, a, second.now)
    ensures Step(hub, second, Step(hub, first, st, c).0, c).1.Written?
  {
    SinceIsUnsteady(hub, FactsOf(st.history, c.scope), c, n, a, first.now, second.now);
    DuplicateIffSteady(hub, first, second, st, c);
  }

  // ---------------------------------------------------------------- a batch polled twice

  /** The clock does not show in the `i`-th candidate, over the past the first pass drafted it on. */
  ghost predicate SteadyAt(hub: Hub, first: Pass, second: Pass, st: State, cs: seq<Candidate>, i: nat)
    requires Usable(hub) && i < |cs|
  {
    Steady(hub, FactsOf(After(hub, first, st, cs, i).history, cs[i].scope), cs[i], first.now, second.now)
  }

  ghost predicate SteadyBatch(hub: Hub, first: Pass, second: Pass, st: State, cs: seq<Candidate>)
    requires Usable(hub)
  {
    forall i :: 0 <= i < |cs| ==> SteadyAt(hub, first, second, st, cs, i)
  }

  lemma ClockFreeIsSteady(hub: Hub, first: Pass, second: Pass, st: State, cs: seq<Candidate>)
    requires Usable(hub) && ClockFree(hub.schema)
    ensures SteadyBatch(hub, first, second, st, cs)
  {}

  /** What each candidate of the batch comes to, first and second time. */
  ghost function FirstOutcome(hub: Hub, first: Pass, st: State, cs: seq<Candidate>, i: nat): Outcome
    requires Usable(hub) && i < |cs|
  {
    Step(hub, first, After(hub, first, st, cs, i), cs[i]).1
  }

  ghost function SecondOutcome(hub: Hub, first: Pass, second: Pass, st: State, cs: seq<Candidate>, i: nat): Outcome
    requires Usable(hub) && i < |cs|
  {
    var once := IngestAll(hub, first, st, cs).0;
    Step(hub, second, After(hub, second, once, cs, i), cs[i]).1
  }

  ghost predicate Untouched(hub: Hub, first: Pass, second: Pass, st: State, cs: seq<Candidate>, i: nat)
    requires Usable(hub) && i <= |cs|
  {
    var once := IngestAll(hub, first, st, cs).0;
    var now := After(hub, second, once, cs, i);
    now.index == once.index && forall scope :: FactsOf(now.history, scope) == FactsOf(once.history, scope)
  }

  lemma UnwrittenStaysUntouched(hub: Hub, first: Pass, second: Pass, st: State, cs: seq<Candidate>, i: nat)
    requires Usable(hub) && i < |cs| && Untouched(hub, first, second, st, cs, i)
    requires !SecondOutcome(hub, first, second, st, cs, i).Written?
    ensures Untouched(hub, first, second, st, cs, i + 1)
  {
    var once := IngestAll(hub, first, st, cs).0;
    var now := After(hub, second, once, cs, i);
    AfterStep(hub, second, once, cs, i);
    forall scope ensures FactsOf(After(hub, second, once, cs, i + 1).history, scope) == FactsOf(once.history, scope) {
      QuietStep(hub, second, now, cs[i], scope);
    }
    QuietStep(hub, second, now, cs[i], "");
  }

  /** Before its `i`-th candidate the second pass has changed nothing, if each one before it was steady
      or came back a duplicate. */
  lemma {:induction false} SecondPassQuiet(hub: Hub, first: Pass, second: Pass, st: State, cs: seq<Candidate>, i: nat)
    requires Usable(hub) && LaterPoll(first, second)
    requires AscendingBatch(hub, cs) && KeysFixEffectiveAt(hub, st, cs) && i <= |cs|
    requires forall j :: 0 <= j < i ==>
      SteadyAt(hub, first, second, st, cs, j) || SecondOutcome(hub, first, second, st, cs, j).Duplicate?
    ensures Untouched(hub, first, second, st, cs, i)
  {
    if i == 0 {
      assert cs[..0] == [];
    } else {
      SecondPassQuiet(hub, first, second, st, cs, i - 1);
      CandidateAgain(hub, first, second, st, cs, i - 1);
      UnwrittenStaysUntouched(hub, first, second, st, cs, i - 1);
    }
  }

  lemma CandidateAgain(hub: Hub, first: Pass, second: Pass, st: State, cs: seq<Candidate>, i: nat)
    requires Usable(hub) && LaterPoll(first, second)
    requires AscendingBatch(hub, cs) && KeysFixEffectiveAt(hub, st, cs) && i < |cs|
    requires Untouched(hub, first, second, st, cs, i)
    ensures var was, again := FirstOutcome(hub, first, st, cs, i), SecondOutcome(hub, first, second, st, cs, i);
            if SteadyAt(hub, first, second, st, cs, i)
            then && !again.Written?
                 && (!was.Quarantined? && TimestampOk(second.now) ==> again.Duplicate?)
                 && (was.Quarantined? ==> again.Quarantined?)
            else !was.Quarantined? ==> !again.Duplicate?
  {
    var once := IngestAll(hub, first, st, cs).0;
    assert cs[..|cs|] == cs;
    LaterLeavesAlone(hub, first, st, cs, i, |cs|);
    AfterStep(hub, first, st, cs, i);
    StepAgain(hub, first, second, After(hub, first, st, cs, i), After(hub, second, once, cs, i), cs[i]);
  }

  /** Re-polling is a fixpoint: the same ascending batch at a later clock that does not show writes no
      record and leaves index and facts as they were; accepted candidates come back as duplicates,
      refused ones are refused again. */
  lemma RepollWritesNothing(hub: Hub, first: Pass, second: Pass, st: State, cs: seq<Candidate>)
    requires Usable(hub) && LaterPoll(first, second) && SteadyBatch(hub, first, second, st, cs)
    requires AscendingBatch(hub, cs) && KeysFixEffectiveAt(hub, st, cs)
    ensures var (once, outs) := IngestAll(hub, first, st, cs);
            var (twice, again) := IngestAll(hub, second, once, cs);
            && WrittenOf(again) == []
            && twice.index == once.index
            && (forall scope :: FactsOf(twice.history, scope) == FactsOf(once.history, scope))
            && |again| == |outs| == |cs|
            && (forall i :: 0 <= i < |cs| && outs[i].Quarantined? ==> again[i].Quarantined?)
            && (forall i :: 0 <= i < |cs| && !outs[i].Quarantined? && TimestampOk(second.now) ==> again[i].Duplicate?)
  {
    var (once, outs) := IngestAll(hub, first, st, cs);
    var (twice, again) := IngestAll(hub, second, once, cs);
    assert cs[..|cs|] == cs;
    SecondPassQuiet(hub, first, second, st, cs, |cs|);
    OutcomesLine(hub, first, st, cs);
    OutcomesLine(hub, second, once, cs);
    forall i | 0 <= i < |cs|
      ensures !again[i].Written?
      ensures !outs[i].Quarantined? && TimestampOk(second.now) ==> again[i].Duplicate?
      ensures outs[i].Quarantined? ==> again[i].Quarantined?
    {
      assert SteadyAt(hub, first, second, st, cs, i);
      SecondPassQuiet(hub, first, second, st, cs, i);
      CandidateAgain(hub, first, second, st, cs, i);
    }
    NothingWritten(again);
  }

  /** And only then: when the refused candidates are steady, every accepted one comes back a duplicate
      if and only if the clock shows in none. */
  lemma RepollIsQuietIff(hub: Hub, first: Pass, second: Pass, st: State, cs: seq<Candidate>)
    requires Usable(hub) && LaterPoll(first, second) && TimestampOk(second.now)
    requires AscendingBatch(hub, cs) && KeysFixEffectiveAt(hub, st, cs)
    requires forall i :: 0 <= i < |cs| && FirstOutcome(hub, first, st, cs, i).Quarantined? ==> SteadyAt(hub, first, second, st, cs, i)
    ensures (forall i :: 0 <= i < |cs| && !FirstOutcome(hub, first, st, cs, i).Quarantined? ==>
               SecondOutcome(hub, first, second, st, cs, i).Duplicate?)
            <==> SteadyBatch(hub, first, second, st, cs)
  {
    if SteadyBatch(hub, first, second, st, cs) {
      forall i | 0 <= i < |cs| && !FirstOutcome(hub, first, st, cs, i).Quarantined?
        ensures SecondOutcome(hub, first, second, st, cs, i).Duplicate?
      {
        assert SteadyAt(hub, first, second, st, cs, i);
        SecondPassQuiet(hub, first, second, st, cs, i);
        CandidateAgain(hub, first, second, st, cs, i);
      }
    } else {
      var i :| 0 <= i < |cs| && !SteadyAt(hub, first, second, st, cs, i);
      if forall j :: 0 <= j < |cs| && !FirstOutcome(hub, first, st, cs, j).Quarantined? ==>
           SecondOutcome(hub, first, second, st, cs, j).Duplicate? {
        SecondPassQuiet(hub, first, second, st, cs, i);
        CandidateAgain(hub, first, second, st, cs, i);
      }
    }
  }

  lemma {:induction false} NothingWritten(outs: seq<Outcome>)
    requires forall i :: 0 <= i < |outs| ==> !outs[i].Written?
    ensures WrittenOf(outs) == []
  {
    if outs == [] {
    } else {
      NothingWritten(outs[..|outs| - 1]);
    }
  }
}
