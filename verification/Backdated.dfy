/** Runs in which a later revision claims an earlier `known_at` (hub/__main__.py, `_history_for`).

    A rebuild walks in `sort_key` order, so it ends such a key with the superseded fields: a live clock
    that steps back makes the kept state and the rebuilt one differ, and a backfill makes the rebuilt
    one forget the correction that its own index still counts. */
module Backdated {
  import opened Wrappers
  import opened Ordering
  import opened Records
  import opened Derive
  import opened Schemas
  import opened Histories
  import opened Dedupe
  import opened Pipeline
  import opened Ingestion
  import opened Agreement
  import opened Restart

  lemma FoldTwo(a: Record, b: Record)
    requires SameStory(a, b)
    ensures FoldFacts(OfScope([a, b], a.scope)) == map[b.key := FactOf(b)]
  {
    FilterAll([a, b], InScope(a.scope));
    assert [a, b][..1] == [a] && [a][..0] == [];
    assert FoldFacts([a]) == map[a.key := FactOf(a)];
  }

  lemma BackdatedTwo(hub: Hub, st: State, first: Record, second: Record)
    requires Usable(hub) && Reach(hub.schema) > 0 && FoldsTo(hub, [first, second], st) && Lawful(hub, [first, second])
    requires SameStory(first, second) && second.knownAt < first.knownAt
    ensures var rebuilt := Rebuilt(hub, [first, second]);
            && first.revision < second.revision
            && Lookup(rebuilt.index, second.dataset, second.key) == Some(Seen(second.revision, second.fields))
            && FactsOf(st.history, first.scope) == map[first.key := FactOf(second)]
            && FactsOf(rebuilt.history, first.scope) == map[first.key := FactOf(first)]
  {
    var rs := [first, second];
    assert rs[0] == first && rs[1] == second && first in rs && second in rs;
    SortTwo(first, second, KeyLe);
    RebuiltFolds(hub, rs);
    FoldTwo(first, second);
    FoldTwo(second, first);
    IndexOfTwo(second, first);
  }

  /** A run that journals a key twice, the second time as known earlier: the index and the kept history
      hold the second revision, the rebuilt history the first. */
  lemma BackdatedRevisionIsLost(hub: Hub, events: seq<Event>)
    requires Usable(hub) && Reach(hub.schema) > 0
    requires var rs := RunAll(hub, events).journal;
             |rs| == 2 && SameStory(rs[0], rs[1]) && rs[1].knownAt < rs[0].knownAt && FactOf(rs[0]) != FactOf(rs[1])
    ensures var w := RunAll(hub, events);
            var rebuilt := Rebuilt(hub, w.journal);
            var first, second := w.journal[0], w.journal[1];
            && first.revision < second.revision
            && Lookup(rebuilt.index, second.dataset, second.key) == Some(Seen(second.revision, second.fields))
            && FactsOf(w.state.history, first.scope) == map[first.key := FactOf(second)]
            && FactsOf(rebuilt.history, first.scope) == map[first.key := FactOf(first)]
            && !Equivalent(w.state, rebuilt)
  {
    var w := RunAll(hub, events);
    assert w.journal == [w.journal[0], w.journal[1]];
    RunFolds(hub, events);
    RunsAreLawful(hub, events);
    BackdatedTwo(hub, w.state, w.journal[0], w.journal[1]);
    assert map[w.journal[0].key := FactOf(w.journal[1])][w.journal[0].key] != map[w.journal[0].key := FactOf(w.journal[0])][w.journal[0].key];
  }

  lemma IndexOfTwo(high: Record, low: Record)
    requires low.revision < high.revision && low.dataset == high.dataset && low.key == high.key
    ensures Lookup(ObserveAll(map[], [high, low]), high.dataset, high.key) == Some(Seen(high.revision, high.fields))
  {
    assert [high, low][..1] == [high] && [high][..0] == [];
    assert ObserveAll(map[], [high]) == Observe(map[], high);
  }

  // ---------------------------------------------------------------- one such dataset

  const FLAG := FieldSpec("flag", BoolType, "", [], true, None)
  const CHANGE := FieldSpec("change", NumberType, "", [], true, Some(Call(Diff(1), "flag")))

  /** A flag per scope, and its change against the entry before, which a flag never has. */
  const FLAGS := Schema("flags", ["scope"], map["flag" := FLAG, "change" := CHANGE], ["flag", "change"], map[], ["change"])

  lemma FlagsUsable(hub: Hub)
    requires hub.schema == FLAGS
    ensures Usable(hub) && Reach(hub.schema) == 1
  {
    var deps := Dependencies(FLAGS.fields);
    assert Names(CHANGE.derived.value) == {"flag"};
    assert deps.Keys == {"change"} && deps["change"] == {};
    assert FLAGS.derivedOrder == ["change"] && FLAGS.derivedOrder[1..] == [];
    assert forall n :: n in FLAGS.derivedOrder <==> n == "change";
    assert forall n :: n in FLAGS.declared <==> n == "flag" || n == "change";
    assert MaxLookback(FLAGS, ["change"]) == Max(Lookback(ExprOf(FLAGS, "change")), MaxLookback(FLAGS, []));
  }

  function Reported(b: bool, knownAt: Option<int>): Candidate {
    Candidate("EUR", MIN_TIMESTAMP_MS, map["flag" := Bool(b)], None, None, knownAt, Derived, "", false)
  }

  function FlagPayload(b: bool): Payload { map["flag" := Bool(b), "change" := Null] }

  /** A pass that refuses nothing for its age or its clock. */
  predicate Lenient(pass: Pass, knownAt: Option<int>) {
    && pass.source != "" && pass.maxAge.None?
    && TimestampOk(KnownAt(pass, Reported(true, knownAt))) && KnownAt(pass, Reported(true, knownAt)) <= pass.wall + pass.skew
  }

  lemma ChangeIsNull(ctx: Context, b: bool, t: int, h: History)
    ensures var p := WithEnvelope(map["flag" := Bool(b)], t, MIN_TIMESTAMP_MS);
            DerivePass(ctx, FLAGS, ["change"], p, h) == p["change" := Null]
  {
    var p := WithEnvelope(map["flag" := Bool(b)], t, MIN_TIMESTAMP_MS);
    MissingNow(Call(Diff(1), "flag"), p, h, "flag");
    MissingIsNull(ctx, Call(Diff(1), "flag"), p, h);
    assert ["change"][1..] == [];
  }

  lemma ReportedDerives(hub: Hub, b: bool, t: int, h: History)
    requires hub.schema == FLAGS && Usable(hub)
    ensures DeriveFields(hub.ctx, FLAGS, map["flag" := Bool(b)], t, MIN_TIMESTAMP_MS, h) == FlagPayload(b)
  {
    var p := WithEnvelope(map["flag" := Bool(b)], t, MIN_TIMESTAMP_MS);
    ChangeIsNull(hub.ctx, b, t, h);
    DerivePassKeeps(hub.ctx, FLAGS, ["change"], p, h);
    assert Overlay(map["flag" := Bool(b)], p["change" := Null], ["change"]) == FlagPayload(b);
  }

  lemma ReportedValidates(b: bool)
    ensures ValidatePayload(FLAGS, FlagPayload(b)) == Some(FlagPayload(b))
  {
    assert FieldsAccepted(FLAGS, FlagPayload(b));
    assert Normalised(FLAGS, FlagPayload(b)) == FlagPayload(b);
  }

  lemma ReportedDrafts(hub: Hub, pass: Pass, f: Facts, b: bool, knownAt: Option<int>)
    requires hub.schema == FLAGS && Usable(hub) && Lenient(pass, knownAt)
    ensures Draft(hub, pass, f, Reported(b, knownAt)) == Some(NewRecord(hub, pass, Reported(b, knownAt), FlagPayload(b)))
    ensures NewRecord(hub, pass, Reported(b, knownAt), FlagPayload(b)).key == "EUR"
  {
    var c := Reported(b, knownAt);
    ReportedValidates(b);
    ReportedDerives(hub, b, KnownAt(pass, c), Before(f, MIN_TIMESTAMP_MS, BuildKey(hub, c)));
    assert "EUR"[0] == 'E';
  }

  /** Reporting a flag, and then its opposite, journals both. */
  lemma BothJournalled(hub: Hub, first: Pass, t: Option<int>, second: Pass, u: Option<int>)
    requires hub.schema == FLAGS && Usable(hub) && Lenient(first, t) && Lenient(second, u)
    ensures RunAll(hub, [Event(first, Reported(true, t)), Event(second, Reported(false, u))]).journal ==
            [NewRecord(hub, first, Reported(true, t), FlagPayload(true)).(revision := 1, seqNo := 1),
             NewRecord(hub, second, Reported(false, u), FlagPayload(false)).(revision := 2, seqNo := 2)]
    ensures FlagPayload(true) != FlagPayload(false)
  {
    assert FlagPayload(true)["flag"] != FlagPayload(false)["flag"];
    var w := OneJournalled(hub, EMPTY_WORLD, first, true, t, 1);
    var after := OneJournalled(hub, w, second, false, u, 2);
    RunTwo(hub, Event(first, Reported(true, t)), Event(second, Reported(false, u)));
  }

  lemma RunTwo(hub: Hub, a: Event, b: Event)
    requires Usable(hub)
    ensures RunAll(hub, [a, b]) == Advance(hub, Advance(hub, EMPTY_WORLD, a), b)
  {
    RunSnoc(hub, [], a);
    RunSnoc(hub, [a], b);
    assert [] + [a] == [a] && [a] + [b] == [a, b];
  }

  /** A report whose payload is news is journalled under the next revision. */
  lemma OneJournalled(hub: Hub, w: World, pass: Pass, b: bool, k: Option<int>, revision: nat) returns (after: World)
    requires hub.schema == FLAGS && Usable(hub) && Lenient(pass, k)
    requires var prior := Lookup(w.state.index, "flags", "EUR");
             if prior.None? then revision == 1 else prior.value.payload != FlagPayload(b) && revision == prior.value.revision + 1
    ensures after == Advance(hub, w, Event(pass, Reported(b, k)))
    ensures after.journal == w.journal + [NewRecord(hub, pass, Reported(b, k), FlagPayload(b)).(revision := revision, seqNo := |w.journal| + 1)]
    ensures Lookup(after.state.index, "flags", "EUR") == Some(Seen(revision, FlagPayload(b)))
  {
    ReportedDrafts(hub, pass, FactsOf(w.state.history, "EUR"), b, k);
    Written(hub, w, Event(pass, Reported(b, k)));
    after := Advance(hub, w, Event(pass, Reported(b, k)));
    assert after.journal == after.journal[..|w.journal|] + [after.journal[|w.journal|]];
  }

  lemma Written(hub: Hub, w: World, e: Event)
    requires Usable(hub) && e.pass.maxAge.None? && Admitted(e.pass, e.candidate)
    requires Draft(hub, e.pass, FactsOf(w.state.history, e.candidate.scope), e.candidate).Some?
    requires var d := Draft(hub, e.pass, FactsOf(w.state.history, e.candidate.scope), e.candidate).value;
             var prior := Lookup(w.state.index, d.dataset, d.key);
             prior.Some? ==> prior.value.payload != d.fields
    ensures var d := Draft(hub, e.pass, FactsOf(w.state.history, e.candidate.scope), e.candidate).value;
            var w' := Advance(hub, w, e);
            && |w'.journal| == |w.journal| + 1 && w'.journal[..|w.journal|] == w.journal
            && w'.journal[|w.journal|] == d.(revision := w'.journal[|w.journal|].revision, seqNo := |w.journal| + 1)
            && w'.journal[|w.journal|].revision == (var prior := Lookup(w.state.index, d.dataset, d.key); if prior.None? then 1 else prior.value.revision + 1)
            && Lookup(w'.state.index, d.dataset, d.key) == Some(Seen(w'.journal[|w.journal|].revision, d.fields))
  {}

  function Live(now: int): Pass { Pass(now, now, true, 0, None, "flags", "", "", None) }

  function Backfill(now: int): Pass { Pass(now, now, false, 0, None, "flags", "", "", None) }

  /** Two live polls of one source, the clock stepping back between them: what the process keeps is not
      what it would rebuild. */
  lemma FallingClock(hub: Hub, t: int, u: int)
    requires hub.schema == FLAGS && TimestampOk(t) && TimestampOk(u) && u < t
    ensures Usable(hub)
    ensures var w := RunAll(hub, [Event(Live(t), Reported(true, None)), Event(Live(u), Reported(false, None))]);
            |w.journal| == 2 && !Equivalent(w.state, Rebuilt(hub, w.journal))
  {
    FlagsUsable(hub);
    BothJournalled(hub, Live(t), None, Live(u), None);
    BackdatedRevisionIsLost(hub, [Event(Live(t), Reported(true, None)), Event(Live(u), Reported(false, None))]);
  }

  /** A live poll corrected by a backfill that claims to have known better before: the next rebuild holds
      the superseded flag, though its index counts the correction. */
  lemma BackfillForgotten(hub: Hub, t: int, u: int)
    requires hub.schema == FLAGS && TimestampOk(t) && TimestampOk(u) && u < t
    ensures Usable(hub)
    ensures var w := RunAll(hub, [Event(Live(t), Reported(true, None)), Event(Backfill(t), Reported(false, Some(u)))]);
            var rebuilt := Rebuilt(hub, w.journal);
            && Lookup(rebuilt.index, "flags", "EUR") == Some(Seen(2, FlagPayload(false)))
            && FactsOf(rebuilt.history, "EUR") == map["EUR" := Fact(MIN_TIMESTAMP_MS, FlagPayload(true))]
  {
    FlagsUsable(hub);
    var events := [Event(Live(t), Reported(true, None)), Event(Backfill(t), Reported(false, Some(u)))];
    BothJournalled(hub, Live(t), None, Backfill(t), Some(u));
    BackdatedRevisionIsLost(hub, events);
  }
}
