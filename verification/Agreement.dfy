/** The live path and the compiler's re-derivation agree (hub/compiler.py,
    `_verify_derived_fields`; hub/pipeline.py, `ingest`).

    A `World` is a dataset's whole life: the index and histories a collector keeps, and the journal
    of everything it wrote.  `Verified` is what the compiler demands of a list of records. */
module Agreement {
  import opened Wrappers
  import opened Ordering
  import opened Decimals
  import opened Records
  import opened Derive
  import opened Schemas
  import opened Histories
  import opened Pipeline
  import opened Ingestion

  // ---------------------------------------------------------------- the compiler's check

  /** A history folded from records in the order they are walked. */
  function FoldFacts(rs: seq<Record>): Facts {
    if rs == [] then map[]
    else
      var r := rs[|rs| - 1];
      FoldFacts(rs[..|rs| - 1])[r.key := Fact(r.effectiveAt, r.fields)]
  }

  /** Every derived field of `r`, recomputed over all that precedes it, is what `r` recorded. */
  ghost predicate Checks(hub: Hub, f: Facts, r: Record)
    requires Usable(hub)
  {
    Recomputes(hub, r, Before(f, r.effectiveAt, r.key))
  }

  ghost predicate Recomputes(hub: Hub, r: Record, h: History)
    requires Usable(hub)
  {
    forall n :: n in hub.schema.derivedOrder ==>
      Run(hub.ctx, ExprOf(hub.schema, n), WithEnvelope(r.fields, r.knownAt, r.effectiveAt), h) == Get(r.fields, n)
  }

  ghost predicate WalkOk(hub: Hub, rs: seq<Record>)
    requires Usable(hub)
  {
    rs == [] || (WalkOk(hub, rs[..|rs| - 1]) && Checks(hub, FoldFacts(rs[..|rs| - 1]), rs[|rs| - 1]))
  }

  function InScope(scope: string): Record -> bool { (r: Record) => r.scope == scope }

  function OfScope(rs: seq<Record>, scope: string): seq<Record> { Filter(rs, InScope(scope)) }

  /** The compiler accepts these records: each scope's walk recomputes what was recorded. */
  ghost predicate Verified(hub: Hub, rs: seq<Record>)
    requires Usable(hub)
  {
    forall scope :: WalkOk(hub, OfScope(rs, scope))
  }

  lemma {:induction false} WalkPrefix(hub: Hub, rs: seq<Record>, n: nat)
    requires Usable(hub) && n <= |rs| && WalkOk(hub, rs)
    ensures WalkOk(hub, rs[..n])
    decreases |rs|
  {
    if n < |rs| {
      WalkPrefix(hub, rs[..|rs| - 1], n);
      assert rs[..|rs| - 1][..n] == rs[..n];
    } else {
      assert rs[..n] == rs;
    }
  }

  lemma WalkOne(hub: Hub, rs: seq<Record>, i: nat, f: Facts)
    requires Usable(hub) && i < |rs| && f == FoldFacts(rs[..i])
    ensures FoldFacts(rs[..i + 1]) == f[rs[i].key := Fact(rs[i].effectiveAt, rs[i].fields)]
    ensures WalkOk(hub, rs[..i + 1]) <==>
            WalkOk(hub, rs[..i]) && Recomputes(hub, rs[i], Last(Before(f, rs[i].effectiveAt, rs[i].key), Reach(hub.schema)))
  {
    assert rs[..i + 1][..i] == rs[..i];
    ReachChecks(hub, rs[i], Before(f, rs[i].effectiveAt, rs[i].key));
  }

  /** One scope's records, walked through a mutable history. */
  method CheckScope(hub: Hub, rs: seq<Record>) returns (ok: bool)
    requires Usable(hub)
    ensures ok <==> WalkOk(hub, rs)
  {
    var s := hub.schema;
    var reach := Reach(s);
    var history := new ScopeHistory();
    for i := 0 to |rs|
      invariant history.Valid() && fresh(history)
      invariant history.Model() == FoldFacts(rs[..i])
      invariant WalkOk(hub, rs[..i])
    {
      var r := rs[i];
      var past := history.BeforeSlot(r.effectiveAt, r.key, Some(reach));
      var matches := CheckRecord(hub, r, past);
      WalkOne(hub, rs, i, history.Model());
      if !matches {
        if WalkOk(hub, rs) { WalkPrefix(hub, rs, i + 1); }
        return false;
      }
      history.Upsert(r.effectiveAt, r.key, r.fields);
    }
    assert rs[..|rs|] == rs;
    return true;
  }

  /** Recomputing over the bounded past checks what recomputing over all of it does. */
  lemma ReachChecks(hub: Hub, r: Record, h: History)
    requires Usable(hub)
    ensures Recomputes(hub, r, Last(h, Reach(hub.schema))) <==> Recomputes(hub, r, h)
  {
    var s := hub.schema;
    forall n | n in s.derivedOrder
      ensures Run(hub.ctx, ExprOf(s, n), WithEnvelope(r.fields, r.knownAt, r.effectiveAt), Last(h, Reach(s))) ==
              Run(hub.ctx, ExprOf(s, n), WithEnvelope(r.fields, r.knownAt, r.effectiveAt), h)
    {
      ReachCovers(s, s.derivedOrder, n);
      LookbackTheorem(hub.ctx, ExprOf(s, n), WithEnvelope(r.fields, r.knownAt, r.effectiveAt), h, Reach(s));
    }
  }

  method CheckRecord(hub: Hub, r: Record, past: History) returns (ok: bool)
    requires Usable(hub)
    ensures ok <==> Recomputes(hub, r, past)
  {
    var s := hub.schema;
    for i := 0 to |s.derivedOrder|
      invariant forall n :: n in s.derivedOrder[..i] ==>
        Run(hub.ctx, ExprOf(s, n), WithEnvelope(r.fields, r.knownAt, r.effectiveAt), past) == Get(r.fields, n)
    {
      var n := s.derivedOrder[i];
      var expected := Run(hub.ctx, ExprOf(s, n), WithEnvelope(r.fields, r.knownAt, r.effectiveAt), past);
      if expected != Get(r.fields, n) { return false; }
      assert s.derivedOrder[..i + 1] == s.derivedOrder[..i] + [n];
    }
    assert s.derivedOrder[..|s.derivedOrder|] == s.derivedOrder;
    return true;
  }

  /** Group records by scope, keeping each scope's order. */
  method GroupByScope(rs: seq<Record>) returns (groups: map<string, seq<Record>>)
    ensures forall scope :: Group(groups, scope) == OfScope(rs, scope)
  {
    groups := map[];
    for i := 0 to |rs|
      invariant forall scope :: Group(groups, scope) == OfScope(rs[..i], scope)
    {
      var r := rs[i];
      var was := groups;
      groups := groups[r.scope := Group(groups, r.scope) + [r]];
      forall scope
        ensures Group(groups, scope) == OfScope(rs[..i + 1], scope)
      {
        assert rs[..i + 1] == rs[..i] + [r];
        FilterConcat(rs[..i], [r], InScope(scope));
        assert Group(was, scope) + [] == Group(was, scope);
      }
    }
    assert rs[..|rs|] == rs;
  }

  /** `_verify_derived_fields`: returns exactly when every scope's walk recomputes. */
  method VerifyDerivedFields(hub: Hub, rs: seq<Record>) returns (ok: bool)
    requires Usable(hub)
    ensures ok <==> Verified(hub, rs)
  {
    if hub.schema.derivedOrder == [] {
      forall scope ensures WalkOk(hub, OfScope(rs, scope)) {
        NothingDerivedNothingToCheck(hub, OfScope(rs, scope));
      }
      return true;
    }
    var groups := GroupByScope(rs);
    ok := CheckGroups(hub, groups);
    assert (forall scope :: WalkOk(hub, Group(groups, scope))) <==> Verified(hub, rs);
  }

  function Group(groups: map<string, seq<Record>>, scope: string): seq<Record> {
    if scope in groups then groups[scope] else []
  }

  method CheckGroups(hub: Hub, groups: map<string, seq<Record>>) returns (ok: bool)
    requires Usable(hub)
    ensures ok <==> forall scope :: WalkOk(hub, Group(groups, scope))
  {
    var scopes := SortedNames(groups.Keys);
    for i := 0 to |scopes|
      invariant forall j :: 0 <= j < i ==> WalkOk(hub, groups[scopes[j]])
    {
      var good := CheckScope(hub, groups[scopes[i]]);
      if !good {
        assert !WalkOk(hub, Group(groups, scopes[i]));
        return false;
      }
    }
    forall scope ensures WalkOk(hub, Group(groups, scope)) {
      if scope in groups { assert scope in scopes; }
    }
    return true;
  }

  lemma {:induction false} NothingDerivedNothingToCheck(hub: Hub, rs: seq<Record>)
    requires Usable(hub) && hub.schema.derivedOrder == []
    ensures WalkOk(hub, rs)
  {
    if rs != [] { NothingDerivedNothingToCheck(hub, rs[..|rs| - 1]); }
  }

  // ---------------------------------------------------------------- a dataset's life

  datatype World = World(state: State, journal: seq<Record>)

  datatype Event = Event(pass: Pass, candidate: Candidate)

  const EMPTY_WORLD := World(State(map[], map[]), [])

  /** Ingest one candidate and journal what survives under the next sequence number. */
  ghost function Advance(hub: Hub, w: World, e: Event): World
    requires Usable(hub)
  {
    var (after, out) := Step(hub, e.pass, w.state, e.candidate);
    World(after, w.journal + match out { case Written(r) => [r.(seqNo := |w.journal| + 1)] case _ => [] })
  }

  ghost function RunAll(hub: Hub, events: seq<Event>): World
    requires Usable(hub)
  {
    if events == [] then EMPTY_WORLD
    else Advance(hub, RunAll(hub, events[..|events| - 1]), events[|events| - 1])
  }

  // ---------------------------------------------------------------- one record verifies itself

  /** A given field whose number text carries padding: accepted, but not as an expression reads it. */
  predicate Padded(s: Schema, c: Candidate, n: string) {
    n in c.fields && n in s.fields && !IsDerived(s, n) && !Plain(s.fields[n], c.fields[n])
  }

  /** Nothing an expression reads from the candidate at hand is padded; what a `lag` alone reads was
      normalised before it became history. */
  predicate ReadsPlain(s: Schema, e: Expr, c: Candidate) {
    forall n :: n in ReadsNow(e) ==> !Padded(s, c, n)
  }

  /** No derived expression reads padded text from the candidate. */
  predicate PlainCandidate(s: Schema, c: Candidate)
    requires AllDerived(s, s.derivedOrder)
  {
    forall d :: d in s.derivedOrder ==> ReadsPlain(s, ExprOf(s, d), c)
  }

  /** What an expression computes is already in its normal form. */
  lemma ComputedIsNormal(ctx: Context, e: Expr, p: Payload, h: History, spec: FieldSpec)
    requires ValidateField(spec, Run(ctx, e, p, h)).Some?
    ensures ValidateField(spec, Run(ctx, e, p, h)) == Some(Run(ctx, e, p, h))
  {
    var r := Eval(ctx, e, p, h);
    if r.Some? {
      RoundShort(r.value);
      CanonicalTextReads(Round(r.value));
    }
  }

  /** What an expression reads of a field before and after validation: the same number, unless the
      text was padded, and then nothing before. */
  lemma ReadingSurvives(hub: Hub, c: Candidate, r: Record, h: History, out: Payload, d: string)
    requires Usable(hub)
    requires Finished(hub.ctx, hub.schema, c.fields, r.knownAt, r.effectiveAt, h, out)
    requires ValidatePayload(hub.schema, out) == Some(r.fields)
    ensures var was := ToDecimal(Get(WithEnvelope(out, r.knownAt, r.effectiveAt), d));
            if Padded(hub.schema, c, d) then was.None?
            else was == ToDecimal(Get(WithEnvelope(r.fields, r.knownAt, r.effectiveAt), d))
  {
    var s := hub.schema;
    DerivedOrderIsDerived(s);
    if d != "known_at" && d != "effective_at" && d in out {
      assert d in s.fields;
      if IsDerived(s, d) {
        ComputedIsNormal(hub.ctx, ExprOf(s, d), WithEnvelope(out, r.knownAt, r.effectiveAt), h, s.fields[d]);
      } else {
        assert Get(out, d) == Get(c.fields, d);
        NormalisingKeepsReadingIffPlain(s.fields[d], out[d]);
      }
    }
  }

  /** What the compiler recomputes for one derived field of a record. */
  ghost function Recomputed(hub: Hub, f: Facts, r: Record, n: string): Value
    requires Usable(hub) && IsDerived(hub.schema, n)
  {
    Run(hub.ctx, ExprOf(hub.schema, n), WithEnvelope(r.fields, r.knownAt, r.effectiveAt),
        Before(f, r.effectiveAt, r.key))
  }

  lemma RecomputesIffPlain(hub: Hub, c: Candidate, r: Record, h: History, out: Payload, n: string)
    requires Usable(hub) && IsDerived(hub.schema, n)
    requires Finished(hub.ctx, hub.schema, c.fields, r.knownAt, r.effectiveAt, h, out)
    requires ValidatePayload(hub.schema, out) == Some(r.fields)
    ensures var e := ExprOf(hub.schema, n);
            var again := Run(hub.ctx, e, WithEnvelope(r.fields, r.knownAt, r.effectiveAt), h);
            again == Get(r.fields, n) <==> again == Null || ReadsPlain(hub.schema, e, c)
  {
    var s, e := hub.schema, ExprOf(hub.schema, n);
    var p, q := WithEnvelope(out, r.knownAt, r.effectiveAt), WithEnvelope(r.fields, r.knownAt, r.effectiveAt);
    assert n in out && n in s.fields;
    ComputedIsNormal(hub.ctx, e, p, h, s.fields[n]);
    assert Get(r.fields, n) == Run(hub.ctx, e, p, h);
    forall d | d in ReadsNow(e)
      ensures if Padded(s, c, d) then ToDecimal(Get(p, d)).None? else ToDecimal(Get(p, d)) == ToDecimal(Get(q, d))
    {
      ReadingSurvives(hub, c, r, h, out, d);
    }
    if ReadsPlain(s, e, c) {
      EvalReadsOnlyNow(hub.ctx, e, p, q, h);
    } else {
      var d :| d in ReadsNow(e) && Padded(s, c, d);
      MissingNow(e, p, h, d);
      MissingIsNull(hub.ctx, e, p, h);
    }
  }

  /** The exact condition for one derived field of a drafted record: the compiler accepts what ingest
      recorded if and only if it recomputes nothing, or the expression read no padded text. */
  lemma FieldChecksIffPlain(hub: Hub, pass: Pass, f: Facts, c: Candidate, r: Record, n: string)
    requires Usable(hub) && Draft(hub, pass, f, c) == Some(r) && IsDerived(hub.schema, n)
    ensures Recomputed(hub, f, r, n) == Get(r.fields, n) <==>
            Recomputed(hub, f, r, n) == Null || ReadsPlain(hub.schema, ExprOf(hub.schema, n), c)
  {
    var s := hub.schema;
    var h := Before(f, r.effectiveAt, r.key);
    DeriveFieldsFinishes(hub.ctx, s, c.fields, r.knownAt, r.effectiveAt, h);
    RecomputesIffPlain(hub, c, r, h, DeriveFields(hub.ctx, s, c.fields, r.knownAt, r.effectiveAt, h), n);
  }

  /** Every derived field of the record is nothing when recomputed, or read no padded text. */
  ghost predicate Readable(hub: Hub, f: Facts, c: Candidate, r: Record)
    requires Usable(hub)
  {
    forall n :: n in hub.schema.derivedOrder ==>
      Recomputed(hub, f, r, n) == Null || ReadsPlain(hub.schema, ExprOf(hub.schema, n), c)
  }

  lemma DraftChecksIffReadable(hub: Hub, pass: Pass, f: Facts, c: Candidate, r: Record)
    requires Usable(hub) && Draft(hub, pass, f, c) == Some(r)
    ensures Checks(hub, f, r) <==> Readable(hub, f, c, r)
  {
    var s := hub.schema;
    forall n | n in s.derivedOrder
      ensures Recomputed(hub, f, r, n) == Get(r.fields, n) <==>
              Recomputed(hub, f, r, n) == Null || ReadsPlain(s, ExprOf(s, n), c)
    {
      FieldChecksIffPlain(hub, pass, f, c, r, n);
    }
    if Readable(hub, f, c, r) {
      forall n | n in s.derivedOrder ensures Recomputed(hub, f, r, n) == Get(r.fields, n) {}
    } else {
      var n :| n in s.derivedOrder && !(Recomputed(hub, f, r, n) == Null || ReadsPlain(s, ExprOf(s, n), c));
      assert Recomputed(hub, f, r, n) != Get(r.fields, n);
    }
  }

  /** A drafted record recomputes to itself: what ingest derived from raw values is what the
      compiler derives from the recorded ones. */
  lemma DraftChecks(hub: Hub, pass: Pass, f: Facts, c: Candidate, r: Record)
    requires Usable(hub) && PlainCandidate(hub.schema, c)
    requires Draft(hub, pass, f, c) == Some(r)
    ensures Checks(hub, f, r)
  {
    DraftChecksIffReadable(hub, pass, f, c, r);
  }

  /** For a derived copy of an accepted field the condition is the text alone. */
  lemma CopyChecksIffPlain(hub: Hub, pass: Pass, f: Facts, c: Candidate, r: Record, n: string, a: string)
    requires Usable(hub) && Draft(hub, pass, f, c) == Some(r) && IsDerived(hub.schema, n)
    requires ExprOf(hub.schema, n) == FieldRef(a)
    requires a in c.fields && a in hub.schema.fields && !IsDerived(hub.schema, a)
    ensures a in r.fields && ValidateField(hub.schema.fields[a], c.fields[a]) == Some(r.fields[a])
    ensures Recomputed(hub, f, r, n) == Get(r.fields, n) <==> Plain(hub.schema.fields[a], c.fields[a])
  {
    GivenIsNormalised(hub, pass, f, c, r, a);
    FieldChecksIffPlain(hub, pass, f, c, r, n);
    NormalisingKeepsReadingIffPlain(hub.schema.fields[a], c.fields[a]);
    assert ReadsNow(FieldRef(a)) == {a};
    assert a != "known_at" && a != "effective_at" by { DerivedOrderIsDerived(hub.schema); }
  }

  /** A given field is recorded as validation normalises it. */
  lemma GivenIsNormalised(hub: Hub, pass: Pass, f: Facts, c: Candidate, r: Record, a: string)
    requires Usable(hub) && Draft(hub, pass, f, c) == Some(r)
    requires a in c.fields && a in hub.schema.fields && !IsDerived(hub.schema, a)
    ensures a in r.fields && ValidateField(hub.schema.fields[a], c.fields[a]) == Some(r.fields[a])
  {
    var s := hub.schema;
    var h := Before(f, c.effectiveAt, BuildKey(hub, c));
    DeriveFieldsFinishes(hub.ctx, s, c.fields, r.knownAt, r.effectiveAt, h);
    assert Get(DeriveFields(hub.ctx, s, c.fields, r.knownAt, r.effectiveAt, h), a) == c.fields[a];
  }

  /** The padded text `" 0.3"` is accepted as 0.3, yet an expression reads nothing from it. */
  lemma PaddedText(spec: FieldSpec)
    requires spec.fieldType.NumberType?
    ensures ValidateField(spec, Text(" 0.3")) == Some(Text("0.3"))
    ensures ToDecimal(Text(" 0.3")) == None && ToDecimal(Text("0.3")) == Some(Dec(3, -1))
    ensures !Plain(spec, Text(" 0.3"))
  {
    ThreeTenths();
    TrimOneSpace();
    assert Text(" 0.3").s[0] == ' ';
    NormalisingKeepsReadingIffPlain(spec, Text(" 0.3"));
  }

  lemma ThreeTenths()
    ensures Format(Dec(3, -1)) == "0.3" && ToScale8(Dec(3, -1)).Some?
    ensures ToDecimal(Text("0.3")) == NumberOf(Text("0.3")) == Some(Dec(3, -1))
  {
    assert Digits(3) == "3" && Zeros(0) == "";
    CanonicalTextReads(Dec(3, -1));
    SevenZeros();
  }

  lemma SevenZeros()
    ensures Pow10(7) == 10_000_000
  {
    assert Pow10(3) == 10 * Pow10(2) == 100 * Pow10(1) == 1000 * Pow10(0);
    assert Pow10(7) == 10 * Pow10(6) == 100 * Pow10(5) == 1000 * Pow10(4) == 10_000 * Pow10(3);
  }

  lemma TrimOneSpace()
    ensures ParseLenient(" 0.3") == ParseLenient("0.3")
  {
    var padded, bare := " 0.3", "0.3";
    assert padded[|padded| - 1] == '3' && padded[1..] == bare && bare[|bare| - 1] == '3';
    assert TrimRight(padded) == padded && TrimRight(bare) == bare;
    assert TrimLeft(padded) == TrimLeft(padded[1..]);
  }

  /** So the compiler refuses the journal of a hub that ingested it beside a derived copy. */
  lemma PaddedTextIsRefused(hub: Hub, pass: Pass, f: Facts, c: Candidate, r: Record, n: string, a: string)
    requires Usable(hub) && Draft(hub, pass, f, c) == Some(r) && IsDerived(hub.schema, n)
    requires ExprOf(hub.schema, n) == FieldRef(a)
    requires a in hub.schema.fields && !IsDerived(hub.schema, a) && hub.schema.fields[a].fieldType.NumberType?
    requires a in c.fields && c.fields[a] == Text(" 0.3")
    ensures Get(r.fields, a) == Text("0.3") && !Checks(hub, f, r)
  {
    PaddedText(hub.schema.fields[a]);
    CopyChecksIffPlain(hub, pass, f, c, r, n, a);
    DerivedOrderIsDerived(hub.schema);
    assert n in hub.schema.derivedOrder && Recomputed(hub, f, r, n) != Get(r.fields, n);
  }

  // ---------------------------------------------------------------- whole runs

  /** Every scope's incremental history is the fold of what was journalled for it. */
  ghost predicate Follows(hub: Hub, w: World)
    requires Usable(hub)
  {
    Reach(hub.schema) > 0 ==> forall scope :: FactsOf(w.state.history, scope) == FoldFacts(OfScope(w.journal, scope))
  }

  /** Every scope's journal, in the order it was written, walks clean. */
  ghost predicate WalksClean(hub: Hub, rs: seq<Record>)
    requires Usable(hub)
  {
    forall scope :: WalkOk(hub, OfScope(rs, scope))
  }

  /** Whatever the event journals is readable to the compiler. */
  ghost predicate EventReadable(hub: Hub, w: World, e: Event)
    requires Usable(hub)
  {
    var out := Step(hub, e.pass, w.state, e.candidate).1;
    out.Written? ==> Readable(hub, FactsOf(w.state.history, e.candidate.scope), e.candidate, out.record)
  }

  lemma FoldSnoc(rs: seq<Record>, r: Record)
    ensures FoldFacts(rs + [r]) == FoldFacts(rs)[r.key := Fact(r.effectiveAt, r.fields)]
  {
    assert (rs + [r])[..|rs|] == rs;
  }

  lemma WalkSnoc(hub: Hub, rs: seq<Record>, r: Record)
    requires Usable(hub)
    ensures WalkOk(hub, rs + [r]) <==> WalkOk(hub, rs) && Checks(hub, FoldFacts(rs), r)
  {
    assert (rs + [r])[..|rs|] == rs;
  }

  /** With nothing to look back on, the history a record is checked against does not matter. */
  lemma ChecksWithoutReach(hub: Hub, f: Facts, g: Facts, r: Record)
    requires Usable(hub) && Reach(hub.schema) == 0
    ensures Checks(hub, f, r) == Checks(hub, g, r)
  {
    var was, now := Before(f, r.effectiveAt, r.key), Before(g, r.effectiveAt, r.key);
    assert Last(was, 0) == [] == Last(now, 0);
    ReachChecks(hub, r, was);
    ReachChecks(hub, r, now);
  }

  lemma StampingKeepsChecks(hub: Hub, f: Facts, c: Candidate, r: Record, revision: nat, seqNo: nat)
    requires Usable(hub)
    ensures Checks(hub, f, r.(revision := revision, seqNo := seqNo)) == Checks(hub, f, r)
    ensures Readable(hub, f, c, r.(revision := revision, seqNo := seqNo)) == Readable(hub, f, c, r)
  {
    var q := r.(revision := revision, seqNo := seqNo);
    assert forall n :: n in hub.schema.derivedOrder ==> Recomputed(hub, f, q, n) == Recomputed(hub, f, r, n);
  }

  lemma AdvanceFollows(hub: Hub, w: World, e: Event)
    requires Usable(hub) && Follows(hub, w)
    ensures Follows(hub, Advance(hub, w, e))
  {
    var w' := Advance(hub, w, e);
    var out := Step(hub, e.pass, w.state, e.candidate).1;
    forall scope | Reach(hub.schema) > 0
      ensures FactsOf(w'.state.history, scope) == FoldFacts(OfScope(w'.journal, scope))
    {
      StepFacts(hub, e.pass, w.state, e.candidate, scope);
      if out.Written? {
        WrittenShape(hub, e.pass, w.state, e.candidate);
        var r := out.record.(seqNo := |w.journal| + 1);
        FilterSnoc(w.journal, r, InScope(scope));
        if scope == r.scope { FoldSnoc(OfScope(w.journal, scope), r); }
      } else {
        assert w.journal + [] == w.journal;
      }
    }
  }

  /** One written record walks clean exactly when it is readable. */
  lemma WrittenWalks(hub: Hub, w: World, e: Event, r: Record)
    requires Usable(hub) && Follows(hub, w)
    requires Step(hub, e.pass, w.state, e.candidate).1.Written?
    requires r == Step(hub, e.pass, w.state, e.candidate).1.record.(seqNo := |w.journal| + 1)
    ensures var own := OfScope(w.journal, e.candidate.scope);
            WalkOk(hub, own + [r]) <==> WalkOk(hub, own) && EventReadable(hub, w, e)
  {
    var own := OfScope(w.journal, e.candidate.scope);
    var f := FactsOf(w.state.history, e.candidate.scope);
    WrittenShape(hub, e.pass, w.state, e.candidate);
    var draft := Draft(hub, e.pass, f, e.candidate).value;
    DraftChecksIffReadable(hub, e.pass, f, e.candidate, draft);
    StampingKeepsChecks(hub, f, e.candidate, draft, r.revision, r.seqNo);
    StampingKeepsChecks(hub, f, e.candidate, draft, r.revision, 0);
    if Reach(hub.schema) == 0 { ChecksWithoutReach(hub, f, FoldFacts(own), r); }
    WalkSnoc(hub, own, r);
  }

  lemma AdvanceWalks(hub: Hub, w: World, e: Event)
    requires Usable(hub) && Follows(hub, w)
    ensures WalksClean(hub, Advance(hub, w, e).journal) <==> WalksClean(hub, w.journal) && EventReadable(hub, w, e)
  {
    var w' := Advance(hub, w, e);
    var out := Step(hub, e.pass, w.state, e.candidate).1;
    if out.Written? {
      WrittenShape(hub, e.pass, w.state, e.candidate);
      var r := out.record.(seqNo := |w.journal| + 1);
      WrittenWalks(hub, w, e, r);
      forall scope
        ensures OfScope(w'.journal, scope) == if scope == r.scope then OfScope(w.journal, scope) + [r] else OfScope(w.journal, scope)
      {
        FilterSnoc(w.journal, r, InScope(scope));
      }
      SnocWalks(hub, w.journal, w'.journal, r);
    } else {
      assert w.journal + [] == w.journal;
    }
  }

  lemma SnocWalks(hub: Hub, was: seq<Record>, now: seq<Record>, r: Record)
    requires Usable(hub)
    requires OfScope(now, r.scope) == OfScope(was, r.scope) + [r]
    requires forall scope :: scope != r.scope ==> OfScope(now, scope) == OfScope(was, scope)
    ensures WalksClean(hub, now) <==> WalksClean(hub, was) && WalkOk(hub, OfScope(was, r.scope) + [r])
  {
    WalkSnoc(hub, OfScope(was, r.scope), r);
    if WalksClean(hub, now) {
      forall scope ensures WalkOk(hub, OfScope(was, scope)) { assert WalkOk(hub, OfScope(now, scope)); }
    }
    if WalksClean(hub, was) && WalkOk(hub, OfScope(was, r.scope) + [r]) {
      forall scope ensures WalkOk(hub, OfScope(now, scope)) { assert WalkOk(hub, OfScope(was, scope)); }
    }
  }

  lemma {:induction false} RunFollows(hub: Hub, events: seq<Event>)
    requires Usable(hub)
    ensures Follows(hub, RunAll(hub, events))
  {
    if events == [] {
      assert forall scope :: OfScope([], scope) == [];
    } else {
      RunFollows(hub, events[..|events| - 1]);
      AdvanceFollows(hub, RunAll(hub, events[..|events| - 1]), events[|events| - 1]);
    }
  }

  /** Every event of a run is readable where it stands. */
  ghost predicate RunReadable(hub: Hub, events: seq<Event>)
    requires Usable(hub)
  {
    forall i :: 0 <= i < |events| ==> EventReadable(hub, RunAll(hub, events[..i]), events[i])
  }

  lemma {:induction false} HoldsOfRuns(holds: seq<Event> -> bool, events: seq<Event>)
    requires holds([]) && forall init, e :: holds(init) ==> holds(init + [e])
    ensures holds(events)
  {
    if events == [] {
    } else {
      HoldsOfRuns(holds, events[..|events| - 1]);
      assert events == events[..|events| - 1] + [events[|events| - 1]];
    }
  }

  lemma RunWalksIffReadable(hub: Hub, events: seq<Event>)
    requires Usable(hub)
    ensures WalksClean(hub, RunAll(hub, events).journal) <==> RunReadable(hub, events)
  {
    var holds := (es: seq<Event>) => WalksIffReadable(hub, es);
    NothingWalks(hub);
    forall init, e | holds(init) ensures holds(init + [e]) { WalksSnoc(hub, init, e); }
    HoldsOfRuns(holds, events);
  }

  ghost predicate WalksIffReadable(hub: Hub, events: seq<Event>)
    requires Usable(hub)
  {
    WalksClean(hub, RunAll(hub, events).journal) <==> RunReadable(hub, events)
  }

  lemma NothingWalks(hub: Hub)
    requires Usable(hub)
    ensures WalksIffReadable(hub, [])
  {
    assert forall scope :: OfScope([], scope) == [];
  }

  lemma WalksSnoc(hub: Hub, events: seq<Event>, e: Event)
    requires Usable(hub) && WalksIffReadable(hub, events)
    ensures WalksIffReadable(hub, events + [e])
  {
    RunWalksSnoc(hub, events, e);
    ReadableSnoc(hub, events, e);
  }

  lemma RunWalksSnoc(hub: Hub, events: seq<Event>, e: Event)
    requires Usable(hub)
    ensures WalksClean(hub, RunAll(hub, events + [e]).journal) <==>
            WalksClean(hub, RunAll(hub, events).journal) && EventReadable(hub, RunAll(hub, events), e)
  {
    RunFollows(hub, events);
    AdvanceWalks(hub, RunAll(hub, events), e);
    RunSnoc(hub, events, e);
  }

  lemma RunSnoc(hub: Hub, events: seq<Event>, e: Event)
    requires Usable(hub)
    ensures RunAll(hub, events + [e]) == Advance(hub, RunAll(hub, events), e)
  {
    assert (events + [e])[..|events|] == events;
  }

  lemma ReadableSnoc(hub: Hub, events: seq<Event>, e: Event)
    requires Usable(hub)
    ensures RunReadable(hub, events + [e]) <==> RunReadable(hub, events) && EventReadable(hub, RunAll(hub, events), e)
  {
    var all, n := events + [e], |events|;
    forall i | 0 <= i <= n ensures all[..i] == events[..i] {}
    assert events[..n] == events;
    if RunReadable(hub, all) {
      assert EventReadable(hub, RunAll(hub, all[..n]), all[n]);
      forall i | 0 <= i < n ensures EventReadable(hub, RunAll(hub, events[..i]), events[i]) {
        assert EventReadable(hub, RunAll(hub, all[..i]), all[i]);
      }
    }
  }

  /** Each scope's records were ingested in `sort_key` order. */
  ghost predicate ScopesInOrder(rs: seq<Record>) {
    forall scope :: Sorted(OfScope(rs, scope), KeyLe)
  }

  lemma InOrderVerifies(hub: Hub, rs: seq<Record>)
    requires Usable(hub) && ScopesInOrder(rs)
    ensures Verified(hub, SortRecords(rs)) <==> WalksClean(hub, rs)
  {
    forall scope ensures OfScope(SortRecords(rs), scope) == OfScope(rs, scope) {
      KeyOrder();
      FilterSort(rs, KeyLe, InScope(scope));
      SortOfSorted(OfScope(rs, scope), KeyLe);
    }
    if Verified(hub, SortRecords(rs)) {
      forall scope ensures WalkOk(hub, OfScope(rs, scope)) { assert WalkOk(hub, OfScope(SortRecords(rs), scope)); }
    }
    if WalksClean(hub, rs) {
      forall scope ensures WalkOk(hub, OfScope(SortRecords(rs), scope)) { assert WalkOk(hub, OfScope(rs, scope)); }
    }
  }

  /** Exactly when live and compile agree: over any run of live passes and backfills whose scopes were
      ingested in `sort_key` order, the compiler accepts the whole journal if and only if every
      journalled derived field is nothing when recomputed or read no padded text. */
  lemma LiveAndCompileAgreeIff(hub: Hub, events: seq<Event>)
    requires Usable(hub) && ScopesInOrder(RunAll(hub, events).journal)
    ensures Verified(hub, SortRecords(RunAll(hub, events).journal)) <==> RunReadable(hub, events)
  {
    RunWalksIffReadable(hub, events);
    InOrderVerifies(hub, RunAll(hub, events).journal);
  }

  /** Live and compile agree: over any run of live passes and backfills, if each scope's records
      were ingested in `sort_key` order, the compiler accepts the whole journal. */
  lemma LiveAndCompileAgree(hub: Hub, events: seq<Event>)
    requires Usable(hub)
    requires forall e :: e in events ==> PlainCandidate(hub.schema, e.candidate)
    requires ScopesInOrder(RunAll(hub, events).journal)
    ensures Verified(hub, SortRecords(RunAll(hub, events).journal))
  {
    LiveAndCompileAgreeIff(hub, events);
  }
}
