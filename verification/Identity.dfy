/** What makes two candidates one fact (hub/pipeline.py, `build_key`).

    A key is built from the parts a schema names and from nothing else: where no part holds the
    separator, two candidates share a key exactly when they agree on every named part. */
module Identity {
  import opened Wrappers
  import opened Decimals
  import opened Records
  import opened Histories
  import opened Pipeline
  import opened Ingestion
  import opened Agreement
  import opened Repoll
  import Journal

  // ---------------------------------------------------------------- parts

  predicate Unpiped(s: string) { '|' !in s }

  /** The text of a day tells days apart, and is neither the dash of a missing one nor in two parts. */
  ghost predicate DayTexts(hub: Hub) {
    && (forall t: int :: Unpiped(hub.isoDay(t)) && hub.isoDay(t) != "-")
    && (forall t: int, u: int :: hub.isoDay(t) == hub.isoDay(u) <==> Journal.DayOf(t) == Journal.DayOf(u))
  }

  /** Nothing the candidate says holds the separator. */
  ghost predicate Plainspoken(c: Candidate) {
    && Unpiped(c.scope) && Unpiped(c.title)
    && forall n :: n in c.fields ==> Unpiped(ValueText(c.fields[n]))
  }

  ghost predicate SameDay(a: Option<int>, b: Option<int>) {
    match (a, b)
    case (Some(t), Some(u)) => Journal.DayOf(t) == Journal.DayOf(u)
    case (None, None) => true
    case _ => false
  }

  /** One value to a key: itself, within its own type; across types, one text, a missing value being the
      empty one. */
  ghost predicate OneValue(v: Value, w: Value) {
    match (v, w)
    case (Int(i), Int(j)) => i == j
    case (Bool(a), Bool(b)) => a == b
    case (Text(s), Text(t)) => s == t
    case (Other(s), Other(t)) => s == t
    case (Null, Null) => true
    case (Null, _) => ValueText(w) == ""
    case (_, Null) => ValueText(v) == ""
    case _ => ValueText(v) == ValueText(w)
  }

  /** The title of a candidate: its own or, when it has none, the field of that name. */
  function TitleOf(c: Candidate): string {
    if c.title == "" && "title" in c.fields then ValueText(c.fields["title"]) else c.title
  }

  /** Two candidates agree on what a name of a schema's key stands for. */
  ghost predicate Agree(c: Candidate, d: Candidate, name: string) {
    match name
    case "scope" => c.scope == d.scope
    case "effective_at" => c.effectiveAt == d.effectiveAt
    case "period_start" => SameDay(c.periodStart, d.periodStart)
    case "period_end" => SameDay(c.periodEnd, d.periodEnd)
    case "title" => TitleOf(c) == TitleOf(d)
    case _ => OneValue(Get(c.fields, name), Get(d.fields, name))
  }

  // ---------------------------------------------------------------- texts that tell values apart

  lemma IntTextTells(i: int, j: int)
    requires IntText(i) == IntText(j)
    ensures i == j
  {
    ValDigits(Abs(i));
    ValDigits(Abs(j));
    assert Digits(Abs(i))[0] != '-' && Digits(Abs(j))[0] != '-';
    if i < 0 && j < 0 {
      assert IntText(i)[1..] == Digits(-i) && IntText(j)[1..] == Digits(-j);
    } else {
      assert i < 0 <==> IntText(i)[0] == '-';
      assert j < 0 <==> IntText(j)[0] == '-';
    }
  }

  lemma IntTextIsPlain(i: int)
    ensures forall k :: 0 <= k < |IntText(i)| ==> IntText(i)[k] == '-' || IsDigit(IntText(i)[k])
  {}

  /** A mark found in neither text that follows it splits at one place. */
  lemma LastMark(a: string, b: string, x: string, y: string, mark: char)
    requires a + [mark] + x == b + [mark] + y && mark !in x && mark !in y
    ensures a == b && x == y
  {
    var s := a + [mark] + x;
    assert s[|a|] == mark && s[|b|] == mark;
    assert a == s[..|a|] && b == s[..|b|] && x == s[|a| + 1..] && y == s[|b| + 1..];
  }

  lemma FirstMark(a: string, b: string, x: string, y: string, mark: char)
    requires a + [mark] + x == b + [mark] + y && mark !in a && mark !in b
    ensures a == b && x == y
  {
    var s := a + [mark] + x;
    assert s[|a|] == mark && s[|b|] == mark;
    assert a == s[..|a|] && b == s[..|b|] && x == s[|a| + 1..] && y == s[|b| + 1..];
  }

  // ---------------------------------------------------------------- one part

  lemma InstantTells(hub: Hub, c: Candidate, d: Candidate)
    ensures KeyPart(hub, c, "effective_at") == KeyPart(hub, d, "effective_at") <==> c.effectiveAt == d.effectiveAt
  {
    var x, y := IntText(c.effectiveAt), IntText(d.effectiveAt);
    IntTextIsPlain(c.effectiveAt);
    IntTextIsPlain(d.effectiveAt);
    if KeyPart(hub, c, "effective_at") == KeyPart(hub, d, "effective_at") {
      LastMark(hub.isoDay(c.effectiveAt), hub.isoDay(d.effectiveAt), x, y, 'T');
      IntTextTells(c.effectiveAt, d.effectiveAt);
    }
  }

  lemma DayText(hub: Hub, t: int)
    requires DayTexts(hub)
    ensures Unpiped(hub.isoDay(t)) && hub.isoDay(t) != "-"
  {}

  lemma DaysTell(hub: Hub, t: int, u: int)
    requires DayTexts(hub)
    ensures hub.isoDay(t) == hub.isoDay(u) <==> Journal.DayOf(t) == Journal.DayOf(u)
  {}

  lemma DayTells(hub: Hub, a: Option<int>, b: Option<int>)
    requires DayTexts(hub)
    ensures DayOrDash(hub, a) == DayOrDash(hub, b) <==> SameDay(a, b)
  {
    if a.Some? { DayText(hub, a.value); }
    if b.Some? { DayText(hub, b.value); }
    if a.Some? && b.Some? { DaysTell(hub, a.value, b.value); }
  }

  lemma ValueTells(v: Value, w: Value)
    ensures (if v.Null? then "" else ValueText(v)) == (if w.Null? then "" else ValueText(w)) <==> OneValue(v, w)
  {
    if v.Int? && w.Int? && IntText(v.i) == IntText(w.i) { IntTextTells(v.i, w.i); }
  }

  /** A part of a key is the same exactly when the two agree on what it is named for. */
  lemma PartTells(hub: Hub, c: Candidate, d: Candidate, name: string)
    requires DayTexts(hub)
    ensures KeyPart(hub, c, name) == KeyPart(hub, d, name) <==> Agree(c, d, name)
  {
    match name
    case "scope" =>
    case "effective_at" => InstantTells(hub, c, d);
    case "period_start" => DayTells(hub, c.periodStart, d.periodStart);
    case "period_end" => DayTells(hub, c.periodEnd, d.periodEnd);
    case "title" =>
    case _ => ValueTells(Get(c.fields, name), Get(d.fields, name));
  }

  lemma PartIsUnpiped(hub: Hub, c: Candidate, name: string)
    requires DayTexts(hub) && Plainspoken(c)
    ensures Unpiped(KeyPart(hub, c, name))
  {
    match name
    case "effective_at" =>
      IntTextIsPlain(c.effectiveAt);
      DayText(hub, c.effectiveAt);
    case "period_start" => if c.periodStart.Some? { DayText(hub, c.periodStart.value); }
    case "period_end" => if c.periodEnd.Some? { DayText(hub, c.periodEnd.value); }
    case _ =>
  }

  // ---------------------------------------------------------------- the whole key

  lemma {:induction false} JoinTells(hub: Hub, c: Candidate, d: Candidate, names: seq<string>)
    requires forall n :: n in names ==> Unpiped(KeyPart(hub, c, n)) && Unpiped(KeyPart(hub, d, n))
    ensures JoinKey(hub, c, names) == JoinKey(hub, d, names) <==>
            forall n :: n in names ==> KeyPart(hub, c, n) == KeyPart(hub, d, n)
  {
    if |names| <= 1 {
      if names != [] { assert names[0] in names; }
    } else {
      var x, y := JoinKey(hub, c, names[1..]), JoinKey(hub, d, names[1..]);
      assert names == [names[0]] + names[1..];
      JoinTells(hub, c, d, names[1..]);
      if JoinKey(hub, c, names) == JoinKey(hub, d, names) {
        FirstMark(KeyPart(hub, c, names[0]), KeyPart(hub, d, names[0]), x, y, '|');
      }
    }
  }

  /** Two candidates are one fact exactly when they agree on every part the schema names; when a source
      came to know of either, or anything else it says, does not enter. */
  lemma KeyIsIdentity(hub: Hub, c: Candidate, d: Candidate)
    requires DayTexts(hub) && Plainspoken(c) && Plainspoken(d)
    ensures BuildKey(hub, c) == BuildKey(hub, d) <==> forall n :: n in hub.schema.key ==> Agree(c, d, n)
  {
    forall n | n in hub.schema.key
      ensures Unpiped(KeyPart(hub, c, n)) && Unpiped(KeyPart(hub, d, n))
      ensures KeyPart(hub, c, n) == KeyPart(hub, d, n) <==> Agree(c, d, n)
    {
      PartIsUnpiped(hub, c, n);
      PartIsUnpiped(hub, d, n);
      PartTells(hub, c, d, n);
    }
    JoinTells(hub, c, d, hub.schema.key);
  }

  /** The separator is not escaped: where parts may hold it, different facts can share a key. */
  lemma PipesCollide(hub: Hub, c: Candidate, d: Candidate)
    requires hub.schema.key == ["venue", "symbol"]
    requires c.fields == map["venue" := Text("A|B"), "symbol" := Text("C")]
    requires d.fields == map["venue" := Text("A"), "symbol" := Text("B|C")]
    ensures BuildKey(hub, c) == BuildKey(hub, d) && !Agree(c, d, "venue")
  {
    var names := hub.schema.key;
    assert names[1..] == ["symbol"];
    assert JoinKey(hub, c, names) == "A|B" + "|" + "C";
    assert JoinKey(hub, d, names) == "A" + "|" + "B|C";
    assert "A|B"[1] == '|';
  }

  // ---------------------------------------------------------------- keys that fix effective_at

  /** Every fact held came of a candidate with its key, and stands where that candidate put it. */
  ghost predicate ComeFrom(hub: Hub, events: seq<Event>, history: map<string, Facts>) {
    forall scope, key :: key in FactsOf(history, scope) ==>
      exists e :: e in events && BuildKey(hub, e.candidate) == key && FactsOf(history, scope)[key].at == e.candidate.effectiveAt
  }

  lemma {:induction false} FactsComeFromCandidates(hub: Hub, events: seq<Event>)
    requires Usable(hub)
    ensures ComeFrom(hub, events, RunAll(hub, events).state.history)
  {
    if events == [] {
    } else {
      var init, e := events[..|events| - 1], events[|events| - 1];
      FactsComeFromCandidates(hub, init);
      AdvanceComesFrom(hub, init, RunAll(hub, init), e);
      assert events == init + [e];
    }
  }

  lemma AdvanceComesFrom(hub: Hub, events: seq<Event>, w: World, e: Event)
    requires Usable(hub) && ComeFrom(hub, events, w.state.history)
    ensures ComeFrom(hub, events + [e], Advance(hub, w, e).state.history)
  {
    var was := w.state;
    var (after, out) := Step(hub, e.pass, was, e.candidate);
    if out.Written? { WrittenShape(hub, e.pass, was, e.candidate); }
    forall scope, key | key in FactsOf(after.history, scope)
      ensures exists x :: x in events + [e] && BuildKey(hub, x.candidate) == key
                && FactsOf(after.history, scope)[key].at == x.candidate.effectiveAt
    {
      StepFacts(hub, e.pass, was, e.candidate, scope);
      if FactsOf(after.history, scope) == FactsOf(was.history, scope) || key != BuildKey(hub, e.candidate) {
        var x :| x in events && BuildKey(hub, x.candidate) == key && FactsOf(was.history, scope)[key].at == x.candidate.effectiveAt;
        assert x in events + [e];
      } else {
        assert e in events + [e];
      }
    }
  }

  /** A key that names `effective_at` fixes it: whatever a dataset has been through, a key it holds stands
      where any later candidate of that key puts it. */
  lemma KeyFixesEffectiveAt(hub: Hub, events: seq<Event>, cs: seq<Candidate>)
    requires Usable(hub) && DayTexts(hub) && "effective_at" in hub.schema.key
    requires (forall e :: e in events ==> Plainspoken(e.candidate)) && forall c :: c in cs ==> Plainspoken(c)
    ensures KeysFixEffectiveAt(hub, RunAll(hub, events).state, cs)
  {
    var st := RunAll(hub, events).state;
    FactsComeFromCandidates(hub, events);
    forall c | c in cs && BuildKey(hub, c) in FactsOf(st.history, c.scope)
      ensures FactsOf(st.history, c.scope)[BuildKey(hub, c)].at == c.effectiveAt
    {
      var e :| e in events && BuildKey(hub, e.candidate) == BuildKey(hub, c)
               && FactsOf(st.history, c.scope)[BuildKey(hub, c)].at == e.candidate.effectiveAt;
      KeyIsIdentity(hub, e.candidate, c);
      assert Agree(e.candidate, c, "effective_at");
    }
  }

  /** In time order within each scope, and no instant of a scope twice. */
  ghost predicate InTimeOrder(cs: seq<Candidate>) {
    forall i, j :: 0 <= i < j < |cs| && cs[i].scope == cs[j].scope ==> cs[i].effectiveAt < cs[j].effectiveAt
  }

  /** So a dataset keyed by instant and scope may be polled again at any time: over any run, a batch in
      time order sent again while no clock shows writes nothing. */
  lemma RepollOfRunIsQuiet(hub: Hub, events: seq<Event>, first: Pass, second: Pass, cs: seq<Candidate>)
    requires Usable(hub) && DayTexts(hub) && "effective_at" in hub.schema.key && "scope" in hub.schema.key
    requires (forall e :: e in events ==> Plainspoken(e.candidate)) && forall c :: c in cs ==> Plainspoken(c)
    requires InTimeOrder(cs) && LaterPoll(first, second)
    requires SteadyBatch(hub, first, second, RunAll(hub, events).state, cs)
    ensures var (once, outs) := IngestAll(hub, first, RunAll(hub, events).state, cs);
            var (twice, again) := IngestAll(hub, second, once, cs);
            && WrittenOf(again) == [] && twice.index == once.index
            && (forall scope :: FactsOf(twice.history, scope) == FactsOf(once.history, scope))
  {
    forall i, j | 0 <= i < j < |cs| ensures BuildKey(hub, cs[i]) != BuildKey(hub, cs[j]) {
      KeyIsIdentity(hub, cs[i], cs[j]);
      assert !Agree(cs[i], cs[j], "effective_at") || !Agree(cs[i], cs[j], "scope");
    }
    KeyFixesEffectiveAt(hub, events, cs);
    RepollWritesNothing(hub, first, second, RunAll(hub, events).state, cs);
  }
}
