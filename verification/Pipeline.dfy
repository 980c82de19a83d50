/** Deriving a record's fields (hub/pipeline.py:84-122).

    One pass over the derived fields in dependency order, on values and as the loop over two
    dictionaries, and the one payload it can give. What `ingest` does with it is in `Ingestion`. */
module Pipeline {
  import opened Wrappers
  import opened Decimals
  import opened Records
  import opened Derive
  import opened Schemas

  /** A parsed row before it is a record. */
  datatype Candidate = Candidate(
    scope: string, effectiveAt: int, fields: Payload,
    periodStart: Option<int>, periodEnd: Option<int>,
    knownAt: Option<int>, availability: Availability,
    title: string, parseError: bool)

  /** The parameters of one ingest call: its clock readings, mode and provenance. */
  datatype Pass = Pass(
    now: int, wall: int, live: bool, skew: nat, maxAge: Option<int>,
    source: string, sourceVersion: string, parser: string, rawRef: Option<string>)

  /** What a dataset's pipeline is built from: the arithmetic, the UTC day text and the schema. */
  datatype Hub = Hub(ctx: Context, isoDay: int -> string, schema: Schema)

  // ---------------------------------------------------------------- identity

  function IntText(i: int): string {
    if i < 0 then "-" + Digits(-i) else Digits(i)
  }

  /** `str(value)` of a payload value. */
  function ValueText(v: Value): string {
    match v
    case Null => "None"
    case Bool(b) => if b then "True" else "False"
    case Int(i) => IntText(i)
    case Text(s) => s
    case Other(r) => r
  }

  function DayOrDash(hub: Hub, t: Option<int>): string {
    if t.Some? then hub.isoDay(t.value) else "-"
  }

  function KeyPart(hub: Hub, c: Candidate, name: string): string {
    if name == "scope" then c.scope
    else if name == "effective_at" then hub.isoDay(c.effectiveAt) + "T" + IntText(c.effectiveAt)
    else if name == "period_start" then DayOrDash(hub, c.periodStart)
    else if name == "period_end" then DayOrDash(hub, c.periodEnd)
    else if name == "title" then
      (if c.title != "" then c.title else if "title" in c.fields then ValueText(c.fields["title"]) else "")
    else if Get(c.fields, name).Null? then ""
    else ValueText(c.fields[name])
  }

  function JoinKey(hub: Hub, c: Candidate, names: seq<string>): string {
    if names == [] then ""
    else if |names| == 1 then KeyPart(hub, c, names[0])
    else KeyPart(hub, c, names[0]) + "|" + JoinKey(hub, c, names[1..])
  }

  /** The identity of the thing, built only from what the schema names. */
  function BuildKey(hub: Hub, c: Candidate): string { JoinKey(hub, c, hub.schema.key) }

  // ---------------------------------------------------------------- derived fields

  /** A payload with the envelope timestamps an expression may read; the envelope wins. */
  function WithEnvelope(p: Payload, knownAt: int, effectiveAt: int): Payload {
    p["known_at" := Int(knownAt)]["effective_at" := Int(effectiveAt)]
  }

  ghost predicate WellFormed(s: Schema) {
    && (forall n :: n in s.fields ==> s.fields[n].name == n && n !in RESERVED_FIELD_NAMES)
    && NamesKnown(s.fields)
    && Topological(Dependencies(s.fields), s.derivedOrder)
    && Unique(s.declared) && (forall n :: n in s.declared <==> n in s.fields)
  }

  predicate IsDerived(s: Schema, n: string) { n in s.fields && s.fields[n].derived.Some? }

  /** The derived names of a list that are really derived, as the ones of a well-formed schema are. */
  predicate AllDerived(s: Schema, names: seq<string>) { forall n :: n in names ==> IsDerived(s, n) }

  function ExprOf(s: Schema, n: string): Expr
    requires IsDerived(s, n)
  {
    s.fields[n].derived.value
  }

  /** One pass over the derived fields in order, each result feeding the next expression. */
  function DerivePass(ctx: Context, s: Schema, names: seq<string>, merged: Payload, h: History): (r: Payload)
    requires AllDerived(s, names)
  {
    if names == [] then merged
    else
      var v := Run(ctx, ExprOf(s, names[0]), merged, h);
      DerivePass(ctx, s, names[1..], merged[names[0] := v], h)
  }

  /** `payload` with every derived field set from `values`. */
  function Overlay(payload: Payload, values: Payload, names: seq<string>): Payload
    requires forall n :: n in names ==> n in values
  {
    map n | n in payload.Keys + (set m | m in names) ::
      if n in names then values[n] else payload[n]
  }

  lemma {:induction false} DerivePassKeeps(ctx: Context, s: Schema, names: seq<string>, merged: Payload, h: History)
    requires AllDerived(s, names)
    ensures var r := DerivePass(ctx, s, names, merged, h);
            && (forall n :: n in names ==> n in r)
            && (forall n :: n !in names ==> Get(r, n) == Get(merged, n))
            && (forall n :: n !in names ==> (n in r <==> n in merged))
  {
    if names == [] {
    } else {
      var v := Run(ctx, ExprOf(s, names[0]), merged, h);
      DerivePassKeeps(ctx, s, names[1..], merged[names[0] := v], h);
      assert names == [names[0]] + names[1..];
    }
  }

  /** `derive_fields` on values. */
  function DeriveFields(ctx: Context, s: Schema, payload: Payload, knownAt: int, effectiveAt: int, h: History): Payload
    requires AllDerived(s, s.derivedOrder)
  {
    DerivePassKeeps(ctx, s, s.derivedOrder, WithEnvelope(payload, knownAt, effectiveAt), h);
    Overlay(payload, DerivePass(ctx, s, s.derivedOrder, WithEnvelope(payload, knownAt, effectiveAt), h), s.derivedOrder)
  }

  /** `out` is `payload` finished: nothing but derived fields differs, and every derived field
      equals its expression over the finished payload itself. */
  ghost predicate Finished(ctx: Context, s: Schema, payload: Payload, knownAt: int, effectiveAt: int, h: History, out: Payload) {
    && (forall n :: !IsDerived(s, n) ==> (n in out <==> n in payload) && Get(out, n) == Get(payload, n))
    && (forall n :: IsDerived(s, n) ==>
          n in out && out[n] == Run(ctx, ExprOf(s, n), WithEnvelope(out, knownAt, effectiveAt), h))
  }

  lemma DerivedOrderIsDerived(s: Schema)
    requires WellFormed(s)
    ensures AllDerived(s, s.derivedOrder)
    ensures forall n :: IsDerived(s, n) <==> n in s.derivedOrder
    ensures forall n :: n in s.fields ==> n != "known_at" && n != "effective_at"
  {
    forall n ensures IsDerived(s, n) <==> n in s.derivedOrder {
      assert n in Dependencies(s.fields) <==> n in s.derivedOrder;
    }
  }

  /** Every name an expression reads is settled before it: by the payload, the envelope or an
      earlier derived field. */
  lemma ReadsSettled(s: Schema, i: nat, d: string)
    requires WellFormed(s) && i < |s.derivedOrder| && IsDerived(s, s.derivedOrder[i])
    requires d in Names(ExprOf(s, s.derivedOrder[i]))
    ensures d !in s.derivedOrder[i..]
    ensures IsDerived(s, d) ==> d in s.derivedOrder[..i]
  {
    DerivedOrderIsDerived(s);
    assert d in s.derivedOrder ==> d in Dependencies(s.fields)[s.derivedOrder[i]];
  }

  /** The pass started at position `i` computes each later field as its expression over the final
      values. */
  lemma {:induction false} DerivePassFinishes(ctx: Context, s: Schema, i: nat, merged: Payload, h: History, k: nat)
    requires WellFormed(s) && AllDerived(s, s.derivedOrder) && i <= k < |s.derivedOrder|
    requires "known_at" in merged
    ensures var r := DerivePass(ctx, s, s.derivedOrder[i..], merged, h);
            s.derivedOrder[k] in r && r[s.derivedOrder[k]] == Run(ctx, ExprOf(s, s.derivedOrder[k]), r, h)
    decreases k - i
  {
    var names := s.derivedOrder[i..];
    var n := names[0];
    var e := ExprOf(s, n);
    var v := Run(ctx, e, merged, h);
    assert names[1..] == s.derivedOrder[i + 1..];
    DerivedOrderIsDerived(s);
    if i < k {
      DerivePassFinishes(ctx, s, i + 1, merged[n := v], h, k);
    } else {
      var r := DerivePass(ctx, s, names, merged, h);
      DerivePassKeeps(ctx, s, names, merged, h);
      DerivePassKeeps(ctx, s, names[1..], merged[n := v], h);
      assert n !in names[1..];
      ReadsNowIsNamed(e);
      forall d | d in ReadsNow(e)
        ensures Get(r, d) == Get(merged, d)
      {
        if d in Names(e) { ReadsSettled(s, i, d); }
      }
      EvalReadsOnlyNow(ctx, e, merged, r, h);
    }
  }

  lemma PassFinishes(ctx: Context, s: Schema, merged: Payload, h: History, n: string)
    requires WellFormed(s) && AllDerived(s, s.derivedOrder) && IsDerived(s, n) && "known_at" in merged
    ensures var r := DerivePass(ctx, s, s.derivedOrder, merged, h); n in r && r[n] == Run(ctx, ExprOf(s, n), r, h)
  {
    DerivedOrderIsDerived(s);
    var k :| 0 <= k < |s.derivedOrder| && s.derivedOrder[k] == n;
    assert s.derivedOrder[0..] == s.derivedOrder;
    DerivePassFinishes(ctx, s, 0, merged, h, k);
  }

  lemma RunReadsSame(ctx: Context, e: Expr, p: Payload, q: Payload, h: History)
    requires forall n :: Get(p, n) == Get(q, n)
    ensures Run(ctx, e, p, h) == Run(ctx, e, q, h)
  {
    EvalReadsOnlyNow(ctx, e, p, q, h);
  }

  /** The finished payload under its envelope reads as the pass left it. */
  lemma FinalReads(s: Schema, payload: Payload, r: Payload, knownAt: int, effectiveAt: int)
    requires WellFormed(s)
    requires forall n :: n in s.derivedOrder ==> n in r
    requires forall n :: n !in s.derivedOrder ==> Get(r, n) == Get(WithEnvelope(payload, knownAt, effectiveAt), n)
    ensures forall n :: Get(WithEnvelope(Overlay(payload, r, s.derivedOrder), knownAt, effectiveAt), n) == Get(r, n)
  {
    DerivedOrderIsDerived(s);
  }

  /** One pass reaches the fixpoint. */
  lemma DeriveFieldsFinishes(ctx: Context, s: Schema, payload: Payload, knownAt: int, effectiveAt: int, h: History)
    requires WellFormed(s) && AllDerived(s, s.derivedOrder)
    ensures Finished(ctx, s, payload, knownAt, effectiveAt, h,
                     DeriveFields(ctx, s, payload, knownAt, effectiveAt, h))
  {
    DerivedOrderIsDerived(s);
    var merged := WithEnvelope(payload, knownAt, effectiveAt);
    var r := DerivePass(ctx, s, s.derivedOrder, merged, h);
    DerivePassKeeps(ctx, s, s.derivedOrder, merged, h);
    var out := Overlay(payload, r, s.derivedOrder);
    var final := WithEnvelope(out, knownAt, effectiveAt);
    FinalReads(s, payload, r, knownAt, effectiveAt);
    forall n | IsDerived(s, n)
      ensures n in out && out[n] == Run(ctx, ExprOf(s, n), final, h)
    {
      PassFinishes(ctx, s, merged, h, n);
      RunReadsSame(ctx, ExprOf(s, n), r, final, h);
    }
  }

  /** The fixpoint is unique: the order the fields were computed in cannot show. */
  lemma FinishedIsUnique(ctx: Context, s: Schema, payload: Payload, knownAt: int, effectiveAt: int, h: History, a: Payload, b: Payload)
    requires WellFormed(s)
    requires Finished(ctx, s, payload, knownAt, effectiveAt, h, a)
    requires Finished(ctx, s, payload, knownAt, effectiveAt, h, b)
    ensures a == b
  {
    DerivedOrderIsDerived(s);
    FinishedAgreeUpTo(ctx, s, payload, knownAt, effectiveAt, h, a, b, |s.derivedOrder|);
    forall n
      ensures n in a <==> n in b
      ensures n in a ==> a[n] == b[n]
    {
      assert Get(a, n) == Get(b, n);
    }
  }

  lemma {:induction false} FinishedAgreeUpTo(ctx: Context, s: Schema, payload: Payload, knownAt: int, effectiveAt: int, h: History, a: Payload, b: Payload, k: nat)
    requires WellFormed(s) && k <= |s.derivedOrder|
    requires Finished(ctx, s, payload, knownAt, effectiveAt, h, a)
    requires Finished(ctx, s, payload, knownAt, effectiveAt, h, b)
    ensures forall n :: n in s.derivedOrder[..k] ==> Get(a, n) == Get(b, n)
  {
    if k == 0 {
    } else {
      FinishedAgreeUpTo(ctx, s, payload, knownAt, effectiveAt, h, a, b, k - 1);
      FinishedAgreeAt(ctx, s, payload, knownAt, effectiveAt, h, a, b, k - 1);
      forall n | n in s.derivedOrder[..k] ensures Get(a, n) == Get(b, n) {
        if n !in s.derivedOrder[..k - 1] { assert n == s.derivedOrder[k - 1]; }
      }
    }
  }

  lemma FinishedAgreeAt(ctx: Context, s: Schema, payload: Payload, knownAt: int, effectiveAt: int, h: History, a: Payload, b: Payload, k: nat)
    requires WellFormed(s) && k < |s.derivedOrder|
    requires Finished(ctx, s, payload, knownAt, effectiveAt, h, a)
    requires Finished(ctx, s, payload, knownAt, effectiveAt, h, b)
    requires forall n :: n in s.derivedOrder[..k] ==> Get(a, n) == Get(b, n)
    ensures Get(a, s.derivedOrder[k]) == Get(b, s.derivedOrder[k])
  {
    var n := s.derivedOrder[k];
    assert IsDerived(s, n) by { DerivedOrderIsDerived(s); }
    var p, q := WithEnvelope(a, knownAt, effectiveAt), WithEnvelope(b, knownAt, effectiveAt);
    ReadsNowIsNamed(ExprOf(s, n));
    forall d | d in ReadsNow(ExprOf(s, n))
      ensures Get(p, d) == Get(q, d)
    {
      if d != "known_at" {
        ReadsSettled(s, k, d);
        assert Get(a, d) == Get(b, d);
      }
    }
    EvalReadsOnlyNow(ctx, ExprOf(s, n), p, q, h);
  }

  lemma OverlayStep(payload: Payload, merged: Payload, names: seq<string>, n: string, v: Value)
    requires forall m :: m in names ==> m in merged
    requires n !in names
    ensures forall m :: m in names + [n] ==> m in merged[n := v]
    ensures Overlay(payload, merged[n := v], names + [n]) == Overlay(payload, merged, names)[n := v]
  {
    var a := Overlay(payload, merged[n := v], names + [n]);
    var b := Overlay(payload, merged, names)[n := v];
    forall m
      ensures m in a <==> m in b
      ensures m in a ==> a[m] == b[m]
    {}
  }

  lemma PassStep(ctx: Context, s: Schema, i: nat, merged: Payload, h: History)
    requires AllDerived(s, s.derivedOrder) && i < |s.derivedOrder|
    ensures var n := s.derivedOrder[i];
            DerivePass(ctx, s, s.derivedOrder[i..], merged, h) ==
            DerivePass(ctx, s, s.derivedOrder[i + 1..], merged[n := Run(ctx, ExprOf(s, n), merged, h)], h)
  {
    assert s.derivedOrder[i..][1..] == s.derivedOrder[i + 1..];
  }

  /** `derive_fields` as the source runs it: two dictionaries filled in one loop. */
  method ComputeDerived(ctx: Context, s: Schema, payload: Payload, knownAt: int, effectiveAt: int, h: History)
    returns (out: Payload)
    requires WellFormed(s)
    ensures Finished(ctx, s, payload, knownAt, effectiveAt, h, out)
    ensures AllDerived(s, s.derivedOrder) && out == DeriveFields(ctx, s, payload, knownAt, effectiveAt, h)
  {
    DerivedOrderIsDerived(s);
    out := FillDerived(ctx, s, payload, WithEnvelope(payload, knownAt, effectiveAt), h);
    DeriveFieldsFinishes(ctx, s, payload, knownAt, effectiveAt, h);
  }

  /** One turn of the loop that fills the two dictionaries. */
  lemma FillStep(ctx: Context, s: Schema, i: nat, payload: Payload, merged: Payload, h: History)
    requires AllDerived(s, s.derivedOrder) && Unique(s.derivedOrder) && i < |s.derivedOrder|
    requires forall n :: n in s.derivedOrder[..i] ==> n in merged
    ensures var order, n := s.derivedOrder, s.derivedOrder[i];
            var next := merged[n := Run(ctx, ExprOf(s, n), merged, h)];
            && DerivePass(ctx, s, order[i..], merged, h) == DerivePass(ctx, s, order[i + 1..], next, h)
            && (forall m :: m in order[..i + 1] ==> m in next)
            && Overlay(payload, next, order[..i + 1]) == Overlay(payload, merged, order[..i])[n := next[n]]
  {
    var n := s.derivedOrder[i];
    PassStep(ctx, s, i, merged, h);
    OverlayStep(payload, merged, s.derivedOrder[..i], n, Run(ctx, ExprOf(s, n), merged, h));
    assert s.derivedOrder[..i + 1] == s.derivedOrder[..i] + [n];
  }

  method FillDerived(ctx: Context, s: Schema, payload: Payload, envelope: Payload, h: History) returns (out: Payload)
    requires AllDerived(s, s.derivedOrder) && Unique(s.derivedOrder)
    ensures var final := DerivePass(ctx, s, s.derivedOrder, envelope, h);
            (forall n :: n in s.derivedOrder ==> n in final) && out == Overlay(payload, final, s.derivedOrder)
  {
    var order := s.derivedOrder;
    var merged := envelope;
    ghost var final := DerivePass(ctx, s, order, merged, h);
    out := payload;
    assert order[0..] == order;
    assert payload == Overlay(payload, merged, []);
    for i := 0 to |order|
      invariant final == DerivePass(ctx, s, order[i..], merged, h)
      invariant forall n :: n in order[..i] ==> n in merged
      invariant out == Overlay(payload, merged, order[..i])
    {
      FillStep(ctx, s, i, payload, merged, h);
      var n := order[i];
      var value := Run(ctx, ExprOf(s, n), merged, h);
      out := out[n := value];
      merged := merged[n := value];
    }
    assert order[|order|..] == [] && order[..|order|] == order;
  }
}
