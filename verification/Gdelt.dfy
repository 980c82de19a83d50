/** Hourly aggregates and their raw archive (hub/collectors/gdelt.py).

    An hour is kept as text and replayed from it; what the replay gives is what the live fetch gave.
    Compression, the header's JSON and the text of numbers and stamps are any invertible forms. */
module Gdelt {
  import opened Wrappers
  import opened Ordering
  import opened Decimals
  import opened Records
  import opened Pipeline
  import opened Lines

  const BATCH_MS := 15 * 60 * 1000
  const HOUR_MS := 60 * 60 * 1000

  const EU: set<string> := {"AU", "BE", "BU", "HR", "CY", "EZ", "DA", "EN", "FI", "FR", "GM", "GR", "HU", "EI",
                            "IT", "LG", "LH", "LU", "MT", "NL", "PL", "PO", "RO", "LO", "SI", "SP", "SW"}
  const MIDEAST: set<string> := {"IS", "GZ", "WE", "IR", "IZ", "SY", "LE", "JO", "SA", "YM", "KU", "QA", "AE", "BA", "MU", "EG"}

  datatype Region = Region(name: string, countries: Option<set<string>>)

  const REGIONS: seq<Region> :=
    [Region("GLOBAL", None), Region("US", Some({"US"})), Region("EU", Some(EU)), Region("UK", Some({"UK"})),
     Region("CN", Some({"CH", "HK"})), Region("JP", Some({"JA"})), Region("RU_UA", Some({"RS", "UP"})),
     Region("MIDEAST", Some(MIDEAST))]

  datatype Event = Event(id: string, code: string, base: string, root: string, quad: int, goldstein: Dec,
                         articles: int, tone: Dec, country: string)

  // ---------------------------------------------------------------- one region's hour

  predicate Inside(countries: Option<set<string>>, e: Event) { countries.None? || e.country in countries.value }

  ghost function Ids(es: seq<Event>): set<string> { set e | e in es :: e.id }

  /** A region's events, each id once, as it was first met. */
  ghost function Firsts(es: seq<Event>, countries: Option<set<string>>): seq<Event> {
    if es == [] then []
    else
      var before, e := Firsts(es[..|es| - 1], countries), es[|es| - 1];
      if e.id in Ids(before) || !Inside(countries, e) then before else before + [e]
  }

  datatype Tally = Tally(events: int, articles: int, material: int, verbal: int, threats: int, protests: int,
                         sanctions: int, violence: int, goldstein: Dec, tone: Dec)

  const NOTHING := Tally(0, 0, 0, 0, 0, 0, 0, 0, Dec(0, 0), Dec(0, 0))

  function One(b: bool): int { if b then 1 else 0 }

  function Plus(a: Dec, b: Dec): Dec {
    if a.exp <= b.exp then Dec(a.coef + b.coef * Pow10(b.exp - a.exp), a.exp)
    else Dec(a.coef * Pow10(a.exp - b.exp) + b.coef, b.exp)
  }

  function Times(a: Dec, n: int): Dec { Dec(a.coef * n, a.exp) }

  function Count(t: Tally, e: Event): Tally {
    Tally(t.events + 1, t.articles + e.articles, t.material + One(e.quad == 4), t.verbal + One(e.quad == 3),
          t.threats + One(e.root == "13"), t.protests + One(e.root == "14"), t.sanctions + One(e.base == "163"),
          t.violence + One(e.root in {"18", "19", "20"}),
          Plus(t.goldstein, Times(e.goldstein, e.articles)), Plus(t.tone, Times(e.tone, e.articles)))
  }

  ghost function TallyOf(es: seq<Event>): Tally {
    if es == [] then NOTHING else Count(TallyOf(es[..|es| - 1]), es[|es| - 1])
  }

  lemma IdsSnoc(es: seq<Event>, e: Event)
    ensures Ids(es + [e]) == Ids(es) + {e.id}
  {
    assert e in es + [e];
    forall id | id in Ids(es) + {e.id} ensures id in Ids(es + [e]) {
      if id in Ids(es) {
        var x :| x in es && x.id == id;
        assert x in es + [e];
      }
    }
  }

  function Reported(es: seq<Event>, countries: Option<set<string>>): seq<Event> {
    Filter(es, (e: Event) => Inside(countries, e))
  }

  lemma ReportedSnoc(es: seq<Event>, e: Event, countries: Option<set<string>>)
    ensures Reported(es + [e], countries) ==
            if Inside(countries, e) then Reported(es, countries) + [e] else Reported(es, countries)
  {
    FilterConcat(es, [e], (e: Event) => Inside(countries, e));
    assert Reported(es, countries) + [] == Reported(es, countries);
  }

  /** An event is counted once however often it is reported: what is counted has the ids of all the
      region's reports, each once. */
  lemma {:induction false} FirstsAreDistinctIds(es: seq<Event>, countries: Option<set<string>>)
    ensures Ids(Firsts(es, countries)) == Ids(Reported(es, countries))
    ensures |Firsts(es, countries)| == |Ids(Reported(es, countries))|
  {
    if es == [] {
    } else {
      var init, e := es[..|es| - 1], es[|es| - 1];
      FirstsAreDistinctIds(init, countries);
      assert es == init + [e];
      IdsSnoc(Firsts(init, countries), e);
      ReportedSnoc(init, e, countries);
      IdsSnoc(Reported(init, countries), e);
    }
  }

  /** The classes of an event do not overlap where the codes do not, and none outnumbers the whole. */
  lemma {:induction false} ClassesWithinEvents(es: seq<Event>)
    ensures var t := TallyOf(es);
            && t.events == |es| && 0 <= t.material && 0 <= t.verbal && t.material + t.verbal <= t.events
            && 0 <= t.threats && 0 <= t.protests && 0 <= t.violence && t.threats + t.protests + t.violence <= t.events
            && 0 <= t.sanctions <= t.events
  {
    if es != [] { ClassesWithinEvents(es[..|es| - 1]); }
  }

  /** `aggregate`: `None` when the region had no events. */
  method Aggregate(es: seq<Event>, countries: Option<set<string>>) returns (r: Option<Tally>)
    ensures r == if Firsts(es, countries) == [] then None else Some(TallyOf(Firsts(es, countries)))
  {
    var seen: set<string> := {};
    var t := NOTHING;
    for i := 0 to |es|
      invariant seen == Ids(Firsts(es[..i], countries))
      invariant t == TallyOf(Firsts(es[..i], countries))
    {
      var e := es[i];
      ghost var before := Firsts(es[..i], countries);
      assert es[..i + 1][..i] == es[..i];
      if e.id in seen || !Inside(countries, e) { continue; }
      assert (before + [e])[..|before|] == before;
      IdsSnoc(before, e);
      seen := seen + {e.id};
      t := Count(t, e);
    }
    assert es[..|es|] == es;
    ClassesWithinEvents(Firsts(es, countries));
    return if t.events == 0 then None else Some(t);
  }

  // ---------------------------------------------------------------- the mean

  /** Nearest multiple of 1/unit, ties to the even one, for either sign. */
  function Nearest(m: int, unit: nat): int
    requires unit > 0
  {
    if m < 0 then -(HalfEven(-m, unit) as int) else HalfEven(m, unit)
  }

  /** `_mean`: eight places, half-even. */
  function Mean(total: Dec, weight: int): (r: Dec)
    requires weight != 0
    ensures r.exp == -8
  {
    var m := if weight < 0 then -total.coef else total.coef;
    if total.exp >= -8 then Dec(Nearest(m * Pow10(total.exp + 8), Abs(weight)), -8)
    else Dec(Nearest(m, Abs(weight) * Pow10(-8 - total.exp)), -8)
  }

  lemma NearestIsNearest(m: int, unit: nat)
    requires unit > 0
    ensures 2 * Abs(Nearest(m, unit) * unit - m) <= unit
    ensures 2 * Abs(Nearest(m, unit) * unit - m) == unit ==> Nearest(m, unit) % 2 == 0
  {
    var a := Abs(m);
    var q := HalfEven(a, unit);
    assert a == (a / unit) * unit + a % unit;
    assert (a / unit + 1) * unit == (a / unit) * unit + unit;
    if m < 0 { assert (-(q as int)) * unit == -(q * unit); }
  }

  // ---------------------------------------------------------------- one hour

  /** A quarter-hour's events as a replay holds them: `None` for a batch never published. */
  datatype Quarter = Quarter(stamp: int, events: Option<seq<Event>>)

  /** The same as fetched, with the digest of the original file. */
  datatype Batch = Batch(stamp: int, got: Option<Download>)

  datatype Download = Download(md5: string, events: seq<Event>)

  function BatchStamps(hourEnd: int): seq<int> {
    [hourEnd - HOUR_MS + BATCH_MS, hourEnd - HOUR_MS + 2 * BATCH_MS, hourEnd - HOUR_MS + 3 * BATCH_MS, hourEnd]
  }

  function Bare(bs: seq<Batch>): (qs: seq<Quarter>)
    ensures |qs| == |bs|
    ensures forall i :: 0 <= i < |bs| ==> qs[i] == Stripped(bs[i])
  {
    if bs == [] then [] else [Stripped(bs[0])] + Bare(bs[1..])
  }

  function Stripped(b: Batch): Quarter { Quarter(b.stamp, if b.got.None? then None else Some(b.got.value.events)) }

  function Present(qs: seq<Quarter>): seq<Quarter> { Filter(qs, (q: Quarter) => q.events.Some?) }

  function EventsOf(qs: seq<Quarter>): seq<Event> {
    if qs == [] then []
    else EventsOf(qs[..|qs| - 1]) + if qs[|qs| - 1].events.Some? then qs[|qs| - 1].events.value else []
  }

  /** How the original writes and reads numbers, stamps and the archive's header. */
  datatype Forms = Forms(
    stamp: int -> string, readStamp: string -> Option<int>,
    whole: int -> string, readInt: string -> Option<int>,
    decimal: Dec -> string, readDecimal: string -> Option<Dec>,
    header: Header -> string, readHeader: string -> Option<Header>)

  datatype Header = Header(hourEnd: int, batches: seq<(string, Option<string>)>)

  /** The header is written with its keys sorted; it reads back as it was only if they already were. */
  ghost predicate KeysAscend(ks: seq<(string, Option<string>)>) {
    forall i, j :: 0 <= i < j < |ks| ==> StrLess(ks[i].0, ks[j].0)
  }

  predicate WholeSecond(t: int) { TimestampOk(t) && t % 1000 == 0 }

  ghost predicate Lawful(f: Forms) {
    && (forall t :: WholeSecond(t) ==> f.readStamp(f.stamp(t)) == Some(t) && Separable(f.stamp(t)))
    && (forall t, u :: WholeSecond(t) && WholeSecond(u) && t < u ==> StrLess(f.stamp(t), f.stamp(u)))
    && (forall i :: f.readInt(f.whole(i)) == Some(i) && Separable(f.whole(i)))
    && (forall d :: f.readDecimal(f.decimal(d)) == Some(d) && Separable(f.decimal(d)))
    && (forall h :: Unbroken(f.header(h)))
    && (forall h: Header :: KeysAscend(h.batches) ==> f.readHeader(f.header(h)) == Some(h))
  }

  // ---------------------------------------------------------------- hour_candidates

  function MeanText(f: Forms, total: Dec, weight: int): Value {
    if weight == 0 then Null else Text(f.decimal(Mean(total, weight)))
  }

  function FieldsOf(f: Forms, t: Tally, batches: nat): Payload {
    map["events" := Text(f.whole(t.events)), "articles" := Text(f.whole(t.articles)),
        "material_conflict" := Text(f.whole(t.material)), "verbal_conflict" := Text(f.whole(t.verbal)),
        "threats" := Text(f.whole(t.threats)), "protests" := Text(f.whole(t.protests)),
        "sanctions" := Text(f.whole(t.sanctions)), "violence" := Text(f.whole(t.violence)),
        "goldstein" := MeanText(f, t.goldstein, t.articles), "tone" := MeanText(f, t.tone, t.articles),
        "batches" := Text(f.whole(batches))]
  }

  function CandidateOf(f: Forms, hourEnd: int, region: string, t: Tally, batches: nat): Candidate {
    Candidate(region, hourEnd, FieldsOf(f, t, batches), Some(hourEnd - HOUR_MS), Some(hourEnd), None, Observed, "", false)
  }

  /** One candidate for each region that had events, in the regions' own order. */
  ghost function RegionCandidates(f: Forms, hourEnd: int, es: seq<Event>, batches: nat, regions: seq<Region>): seq<Candidate> {
    if regions == [] then []
    else
      var r := regions[|regions| - 1];
      var own := Firsts(es, r.countries);
      RegionCandidates(f, hourEnd, es, batches, regions[..|regions| - 1]) +
      if own == [] then [] else [CandidateOf(f, hourEnd, r.name, TallyOf(own), batches)]
  }

  ghost function CandidatesOf(f: Forms, hourEnd: int, qs: seq<Quarter>): seq<Candidate> {
    RegionCandidates(f, hourEnd, EventsOf(qs), |Present(qs)|, REGIONS)
  }

  method HourCandidates(f: Forms, hourEnd: int, qs: seq<Quarter>) returns (out: seq<Candidate>)
    ensures out == CandidatesOf(f, hourEnd, qs)
  {
    var present := Present(qs);
    out := [];
    if present == [] {
      NothingPresent(f, hourEnd, qs);
      return;
    }
    var es := EventsOf(qs);
    for i := 0 to |REGIONS|
      invariant out == RegionCandidates(f, hourEnd, es, |present|, REGIONS[..i])
    {
      assert REGIONS[..i + 1][..i] == REGIONS[..i];
      var t := Aggregate(es, REGIONS[i].countries);
      if t.Some? { out := out + [CandidateOf(f, hourEnd, REGIONS[i].name, t.value, |present|)]; }
    }
    assert REGIONS[..|REGIONS|] == REGIONS;
  }

  lemma {:induction false} NoEvents(qs: seq<Quarter>)
    requires Present(qs) == []
    ensures EventsOf(qs) == []
  {
    if qs == [] {
    } else {
      var init, q := qs[..|qs| - 1], qs[|qs| - 1];
      assert qs == init + [q];
      FilterConcat(init, [q], (q: Quarter) => q.events.Some?);
      NoEvents(init);
    }
  }

  lemma {:induction false} NoCandidates(f: Forms, hourEnd: int, batches: nat, regions: seq<Region>)
    ensures RegionCandidates(f, hourEnd, [], batches, regions) == []
  {
    if regions != [] { NoCandidates(f, hourEnd, batches, regions[..|regions| - 1]); }
  }

  lemma NothingPresent(f: Forms, hourEnd: int, qs: seq<Quarter>)
    requires Present(qs) == []
    ensures CandidatesOf(f, hourEnd, qs) == []
  {
    NoEvents(qs);
    NoCandidates(f, hourEnd, 0, REGIONS);
  }
}
