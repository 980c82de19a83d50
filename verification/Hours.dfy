/** What an hour's candidate says of its region (hub/collectors/gdelt.py, `aggregate`,
    `hour_candidates`).

    Each number is given outright: how many distinct events of a class the region had, how many articles
    reported them, and the mean of a score weighted by them. */
module Hours {
  import opened Wrappers
  import opened Ordering
  import opened Decimals
  import opened Reals
  import opened Records
  import opened Pipeline
  import opened Gdelt

  // ---------------------------------------------------------------- what is counted

  ghost predicate Covers(countries: Option<set<string>>, e: Event) {
    match countries
    case None => true
    case Some(codes) => e.country in codes
  }

  /** The `i`-th report is one of the region's, and the first of its id. */
  ghost predicate MetFirst(es: seq<Event>, countries: Option<set<string>>, i: nat) {
    && i < |es| && Covers(countries, es[i])
    && forall j :: 0 <= j < i && Covers(countries, es[j]) ==> es[j].id != es[i].id
  }

  lemma MetFirstBefore(es: seq<Event>, countries: Option<set<string>>, i: nat)
    requires i < |es| - 1
    ensures MetFirst(es, countries, i) <==> MetFirst(es[..|es| - 1], countries, i)
  {
    var init := es[..|es| - 1];
    assert forall j :: 0 <= j <= i ==> es[j] == init[j];
  }

  /** The events counted are the region's reports, each as its id was first met. */
  lemma {:induction false} FirstsAreFirst(es: seq<Event>, countries: Option<set<string>>, e: Event)
    ensures e in Firsts(es, countries) <==> exists i :: 0 <= i < |es| && es[i] == e && MetFirst(es, countries, i)
  {
    if es == [] {
    } else {
      var init, n := es[..|es| - 1], |es| - 1;
      FirstsAreFirst(init, countries, e);
      LastIsFirst(es, countries);
      if i :| 0 <= i < |es| && es[i] == e && MetFirst(es, countries, i) {
        if i < n {
          MetFirstBefore(es, countries, i);
          assert init[i] == e && MetFirst(init, countries, i);
        }
      } else if i :| 0 <= i < n && init[i] == e && MetFirst(init, countries, i) {
        MetFirstBefore(es, countries, i);
      }
    }
  }

  lemma LastIsFirst(es: seq<Event>, countries: Option<set<string>>)
    requires es != []
    ensures var init, last := es[..|es| - 1], es[|es| - 1];
            Firsts(es, countries) == Firsts(init, countries) + if MetFirst(es, countries, |es| - 1) then [last] else []
  {
    var init, last := es[..|es| - 1], es[|es| - 1];
    FirstsAreDistinctIds(init, countries);
    CoveredIds(init, countries, last.id);
    assert forall j :: 0 <= j < |init| ==> es[j] == init[j];
  }

  lemma CoveredIds(es: seq<Event>, countries: Option<set<string>>, id: string)
    ensures id in Ids(Reported(es, countries)) <==> exists j :: 0 <= j < |es| && Covers(countries, es[j]) && es[j].id == id
  {
    forall e: Event ensures e in Reported(es, countries) <==> e in es && Covers(countries, e) {
      FilterMember(es, (e: Event) => Inside(countries, e), e);
    }
    if id in Ids(Reported(es, countries)) {
      var e :| e in Reported(es, countries) && e.id == id;
      assert e in es;
    }
  }

  function Fatal(): set<string> { {"18", "19", "20"} }

  function OfQuad(quad: int): Event -> bool { (e: Event) => e.quad == quad }
  function OfRoot(roots: set<string>): Event -> bool { (e: Event) => e.root in roots }
  function OfBase(base: string): Event -> bool { (e: Event) => e.base == base }

  function Articles(es: seq<Event>): int {
    if es == [] then 0 else Articles(es[..|es| - 1]) + es[|es| - 1].articles
  }

  /** Each event's score, once for every article that reports it. */
  function Weighted(es: seq<Event>, score: Event -> Dec): (xs: seq<real>)
    ensures |xs| == |es|
  {
    seq(|es|, i requires 0 <= i < |es| => Share(es[i], score))
  }

  function Share(e: Event, score: Event -> Dec): real { e.articles as real * Worth(score(e)) }

  function Goldstein(): Event -> Dec { (e: Event) => e.goldstein }
  function Tone(): Event -> Dec { (e: Event) => e.tone }

  lemma PlusWorth(a: Dec, b: Dec)
    ensures Worth(Plus(a, b)) == Worth(a) + Worth(b)
  {
    if a.exp <= b.exp {
      WorthAligned(b.coef, a.exp, b.exp - a.exp);
      WorthAdds(a.coef, b.coef * Pow10(b.exp - a.exp), a.exp);
    } else {
      WorthAligned(a.coef, b.exp, a.exp - b.exp);
      WorthAdds(a.coef * Pow10(a.exp - b.exp), b.coef, b.exp);
    }
  }

  lemma TimesShare(e: Event, score: Event -> Dec)
    ensures Worth(Times(score(e), e.articles)) == Share(e, score)
  {
    WorthScales(score(e).coef, e.articles, score(e).exp);
  }

  lemma AddedWorth(total: Dec, es: seq<Event>, score: Event -> Dec)
    requires es != [] && Worth(total) == Sum(Weighted(es[..|es| - 1], score))
    ensures var e := es[|es| - 1];
            Worth(Plus(total, Times(score(e), e.articles))) == Sum(Weighted(es, score))
  {
    var init, e := es[..|es| - 1], es[|es| - 1];
    PlusWorth(total, Times(score(e), e.articles));
    TimesShare(e, score);
    assert Weighted(es, score) == Weighted(init, score) + [Share(e, score)];
    SumSnoc(Weighted(init, score), Share(e, score));
  }

  ghost predicate CountsAre(t: Tally, es: seq<Event>) {
    && t.events == |es| && t.articles == Articles(es)
    && t.material == |Filter(es, OfQuad(4))| && t.verbal == |Filter(es, OfQuad(3))|
    && t.threats == |Filter(es, OfRoot({"13"}))| && t.protests == |Filter(es, OfRoot({"14"}))|
    && t.sanctions == |Filter(es, OfBase("163"))| && t.violence == |Filter(es, OfRoot(Fatal()))|
  }

  lemma CountsSnoc(t: Tally, es: seq<Event>, e: Event)
    requires CountsAre(t, es)
    ensures CountsAre(Count(t, e), es + [e])
  {
    assert (es + [e])[..|es|] == es;
    FilterSnoc(es, e, OfQuad(4));
    FilterSnoc(es, e, OfQuad(3));
    FilterSnoc(es, e, OfRoot({"13"}));
    FilterSnoc(es, e, OfRoot({"14"}));
    FilterSnoc(es, e, OfBase("163"));
    FilterSnoc(es, e, OfRoot(Fatal()));
  }

  /** A tally counts each class of its events and adds up their articles and weighted scores. */
  lemma {:induction false} TallyCounts(es: seq<Event>)
    ensures CountsAre(TallyOf(es), es)
    ensures Worth(TallyOf(es).goldstein) == Sum(Weighted(es, Goldstein())) && Worth(TallyOf(es).tone) == Sum(Weighted(es, Tone()))
  {
    if es == [] {
    } else {
      var init, e := es[..|es| - 1], es[|es| - 1];
      TallyCounts(init);
      assert es == init + [e];
      CountsSnoc(TallyOf(init), init, e);
      AddedWorth(TallyOf(init).goldstein, es, Goldstein());
      AddedWorth(TallyOf(init).tone, es, Tone());
    }
  }

  // ---------------------------------------------------------------- the mean

  /** Eight places, and no eight places nearer: taken `weight` times, it misses the total by at most half
      of the last place for each unit of weight. */
  ghost predicate IsMean(d: Dec, total: real, weight: int) {
    && d.exp == -8
    && var error := Worth(Dec(d.coef * weight, -8)) - total;
       -Worth(Dec(Abs(weight), -8)) <= 2.0 * error <= Worth(Dec(Abs(weight), -8))
  }

  /** Dividing by a negative weight is dividing what is negated. */
  lemma NearestSigned(m: int, unit: nat, negative: bool)
    requires unit > 0
    ensures var q := Nearest(if negative then -m else m, unit);
            var x := if negative then -(q * unit) else q * unit;
            -(unit as int) <= 2 * (x - m) <= unit
  {
    NearestIsNearest(if negative then -m else m, unit);
  }

  lemma CoarseMean(q: int, coef: int, exp: int, weight: int)
    requires exp >= -8 && weight != 0 && Dec(q, -8) == Mean(Dec(coef, exp), weight)
    ensures IsMean(Dec(q, -8), Worth(Dec(coef, exp)), weight)
  {
    var p, w := Pow10(exp + 8), Abs(weight);
    NearestSigned(coef * p, w, weight < 0);
    NegateProduct(coef, p);
    SignedProduct(q, weight, 1);
    WorthAligned(coef, -8, exp + 8);
    Off(q * weight, coef * p, w, -8);
  }

  lemma FineMean(q: int, coef: int, exp: int, weight: int)
    requires exp < -8 && weight != 0 && Dec(q, -8) == Mean(Dec(coef, exp), weight)
    ensures IsMean(Dec(q, -8), Worth(Dec(coef, exp)), weight)
  {
    var p, w := Pow10(-8 - exp), Abs(weight);
    NearestSigned(coef, w * p, weight < 0);
    SignedProduct(q, weight, p);
    WorthAligned(q * weight, exp, -8 - exp);
    WorthAligned(w, exp, -8 - exp);
    Off(q * weight * p, coef, w * p, exp);
  }

  lemma SignedProduct(q: int, weight: int, p: nat)
    ensures q * weight * p == if weight < 0 then -(q * (Abs(weight) * p)) else q * (Abs(weight) * p)
  {}

  /** `_mean` is the nearest there is at eight places. */
  lemma MeanIsMean(total: Dec, weight: int)
    requires weight != 0
    ensures IsMean(Mean(total, weight), Worth(total), weight)
  {
    if total.exp >= -8 {
      CoarseMean(Mean(total, weight).coef, total.coef, total.exp, weight);
    } else {
      FineMean(Mean(total, weight).coef, total.coef, total.exp, weight);
    }
  }

  // ---------------------------------------------------------------- a candidate

  ghost predicate SaysMean(f: Forms, v: Value, total: real, weight: int) {
    if weight == 0 then v == Null
    else exists d: Dec :: IsMean(d, total, weight) && v == Text(f.decimal(d))
  }

  ghost predicate SaysTotals(f: Forms, p: Payload, es: seq<Event>, published: nat) {
    && Get(p, "events") == Text(f.whole(|es|))
    && Get(p, "articles") == Text(f.whole(Articles(es)))
    && Get(p, "material_conflict") == Text(f.whole(|Filter(es, OfQuad(4))|))
    && Get(p, "verbal_conflict") == Text(f.whole(|Filter(es, OfQuad(3))|))
    && Get(p, "batches") == Text(f.whole(published))
  }

  ghost predicate SaysClasses(f: Forms, p: Payload, es: seq<Event>) {
    && Get(p, "threats") == Text(f.whole(|Filter(es, OfRoot({"13"}))|))
    && Get(p, "protests") == Text(f.whole(|Filter(es, OfRoot({"14"}))|))
    && Get(p, "sanctions") == Text(f.whole(|Filter(es, OfBase("163"))|))
    && Get(p, "violence") == Text(f.whole(|Filter(es, OfRoot(Fatal()))|))
  }

  ghost predicate SaysScores(f: Forms, p: Payload, es: seq<Event>) {
    && SaysMean(f, Get(p, "goldstein"), Sum(Weighted(es, Goldstein())), Articles(es))
    && SaysMean(f, Get(p, "tone"), Sum(Weighted(es, Tone())), Articles(es))
  }

  /** The candidate for one region and hour, given the region's distinct events. */
  ghost predicate Says(f: Forms, c: Candidate, hourEnd: int, region: Region, es: seq<Event>, published: nat) {
    && c.scope == region.name && c.effectiveAt == hourEnd
    && c.periodStart == Some(hourEnd - 3_600_000) && c.periodEnd == Some(hourEnd)
    && c.knownAt.None? && c.availability.Observed? && c.title == "" && !c.parseError
    && SaysTotals(f, c.fields, es, published) && SaysClasses(f, c.fields, es) && SaysScores(f, c.fields, es)
  }

  lemma MeanSays(f: Forms, total: Dec, weight: int)
    ensures SaysMean(f, MeanText(f, total, weight), Worth(total), weight)
  {
    if weight != 0 { MeanIsMean(total, weight); }
  }

  lemma FieldsSayTotals(f: Forms, t: Tally, es: seq<Event>, published: nat)
    requires CountsAre(t, es)
    ensures SaysTotals(f, FieldsOf(f, t, published), es, published)
  {}

  lemma FieldsSayClasses(f: Forms, t: Tally, es: seq<Event>, published: nat)
    requires CountsAre(t, es)
    ensures SaysClasses(f, FieldsOf(f, t, published), es)
  {}

  lemma FieldsSayScores(f: Forms, t: Tally, es: seq<Event>, published: nat)
    requires t.articles == Articles(es)
    requires Worth(t.goldstein) == Sum(Weighted(es, Goldstein())) && Worth(t.tone) == Sum(Weighted(es, Tone()))
    ensures SaysScores(f, FieldsOf(f, t, published), es)
  {
    MeanSays(f, t.goldstein, t.articles);
    MeanSays(f, t.tone, t.articles);
    var p := FieldsOf(f, t, published);
    assert p["goldstein"] == MeanText(f, t.goldstein, t.articles) && p["tone"] == MeanText(f, t.tone, t.articles);
  }

  lemma TallySays(f: Forms, hourEnd: int, region: Region, es: seq<Event>, published: nat)
    ensures Says(f, CandidateOf(f, hourEnd, region.name, TallyOf(es), published), hourEnd, region, es, published)
  {
    TallyCounts(es);
    FieldsSayTotals(f, TallyOf(es), es, published);
    FieldsSayClasses(f, TallyOf(es), es, published);
    FieldsSayScores(f, TallyOf(es), es, published);
  }

  /** How many of the hour's batches were published. */
  function Published(qs: seq<Quarter>): nat {
    if qs == [] then 0 else Published(qs[..|qs| - 1]) + if qs[|qs| - 1].events.Some? then 1 else 0
  }

  lemma {:induction false} PresentArePublished(qs: seq<Quarter>)
    ensures |Present(qs)| == Published(qs)
  {
    if qs == [] {
    } else {
      var init, q := qs[..|qs| - 1], qs[|qs| - 1];
      PresentArePublished(init);
      assert qs == init + [q];
      FilterSnoc(init, q, (q: Quarter) => q.events.Some?);
    }
  }

  /** The published batches' events, and nothing else. */
  lemma {:induction false} EventsArePublished(qs: seq<Quarter>, e: Event)
    ensures e in EventsOf(qs) <==> exists i :: 0 <= i < |qs| && qs[i].events.Some? && e in qs[i].events.value
  {
    if qs == [] {
    } else {
      var init, q := qs[..|qs| - 1], qs[|qs| - 1];
      EventsArePublished(init, e);
      if i :| 0 <= i < |qs| && qs[i].events.Some? && e in qs[i].events.value {
        assert i < |init| ==> init[i] == qs[i];
      }
      if i :| 0 <= i < |init| && init[i].events.Some? && e in init[i].events.value { assert qs[i] == init[i]; }
    }
  }

  ghost function Having(es: seq<Event>): Region -> bool { (r: Region) => Firsts(es, r.countries) != [] }

  lemma {:induction false} OneEach(f: Forms, hourEnd: int, es: seq<Event>, published: nat, regions: seq<Region>)
    ensures |RegionCandidates(f, hourEnd, es, published, regions)| == |Filter(regions, Having(es))|
  {
    if regions == [] {
    } else {
      OneEach(f, hourEnd, es, published, regions[..|regions| - 1]);
      assert regions == regions[..|regions| - 1] + [regions[|regions| - 1]];
      FilterSnoc(regions[..|regions| - 1], regions[|regions| - 1], Having(es));
    }
  }

  lemma {:induction false} RegionsInOrder(f: Forms, hourEnd: int, es: seq<Event>, published: nat, regions: seq<Region>, i: nat)
    requires i < |Filter(regions, Having(es))| == |RegionCandidates(f, hourEnd, es, published, regions)|
    ensures var r := Filter(regions, Having(es))[i];
            RegionCandidates(f, hourEnd, es, published, regions)[i] == CandidateOf(f, hourEnd, r.name, TallyOf(Firsts(es, r.countries)), published)
  {
    var init, r := regions[..|regions| - 1], regions[|regions| - 1];
    assert regions == init + [r];
    FilterSnoc(init, r, Having(es));
    OneEach(f, hourEnd, es, published, init);
    if i < |Filter(init, Having(es))| { RegionsInOrder(f, hourEnd, es, published, init, i); }
  }

  /** An hour has a candidate for exactly the regions that had events, in the regions' order, and each says
      what its region's distinct events come to. */
  lemma RegionsSay(f: Forms, hourEnd: int, qs: seq<Quarter>)
    ensures var es := EventsOf(qs);
            var own, cs := Filter(REGIONS, Having(es)), CandidatesOf(f, hourEnd, qs);
            |cs| == |own| && forall i :: 0 <= i < |own| ==>
              Says(f, cs[i], hourEnd, own[i], Firsts(es, own[i].countries), Published(qs))
  {
    var es := EventsOf(qs);
    var own, cs := Filter(REGIONS, Having(es)), CandidatesOf(f, hourEnd, qs);
    PresentArePublished(qs);
    OneEach(f, hourEnd, es, |Present(qs)|, REGIONS);
    forall i | 0 <= i < |own| ensures Says(f, cs[i], hourEnd, own[i], Firsts(es, own[i].countries), |Present(qs)|) {
      RegionsInOrder(f, hourEnd, es, |Present(qs)|, REGIONS, i);
      TallySays(f, hourEnd, own[i], Firsts(es, own[i].countries), |Present(qs)|);
    }
  }

  /** An hour's stamps are its four quarters: the instants of a whole quarter-hour after the hour's start and
      up to its end, in order. */
  lemma StampsAreQuarters(hourEnd: int, t: int)
    requires hourEnd % 3_600_000 == 0
    ensures t in BatchStamps(hourEnd) <==> hourEnd - 3_600_000 < t <= hourEnd && t % 900_000 == 0
    ensures forall i, j :: 0 <= i < j < |BatchStamps(hourEnd)| ==> BatchStamps(hourEnd)[i] < BatchStamps(hourEnd)[j]
  {
    var h := hourEnd / 3_600_000;
    assert hourEnd == 900_000 * (4 * h);
    if hourEnd - 3_600_000 < t <= hourEnd && t % 900_000 == 0 {
      var q := t / 900_000;
      assert t == 900_000 * q && 4 * h - 4 < q <= 4 * h;
      assert BatchStamps(hourEnd)[q - (4 * h - 4) - 1] == t;
    }
  }
}
