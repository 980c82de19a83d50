/** One hour as text and back (hub/collectors/gdelt.py, `parse_export`, `compact`, `expand`). */
module Archive {
  import opened Wrappers
  import opened Ordering
  import opened Records
  import opened Lines
  import opened Gdelt

  // ---------------------------------------------------------------- parse_export

  function ParseLine(f: Forms, line: string): Option<Event> {
    var c := Columns(line);
    if |c| != 61 then None
    else
      var quad :- f.readInt(c[29]);
      var goldstein :- f.readDecimal(c[30]);
      var articles :- f.readInt(c[33]);
      var tone :- f.readDecimal(c[34]);
      Some(Event(c[0], c[26], c[27], c[28], quad, goldstein, articles, tone, c[53]))
  }

  function ParseLines(f: Forms, lines: seq<string>): (seq<Event>, nat) {
    if lines == [] then ([], 0)
    else
      var (es, bad) := ParseLines(f, lines[..|lines| - 1]);
      match ParseLine(f, lines[|lines| - 1])
      case None => (es, bad + 1)
      case Some(e) => (es + [e], bad)
  }

  /** `parse_export`: malformed lines are counted and skipped. */
  method ParseExport(f: Forms, tsv: string) returns (es: seq<Event>, bad: nat)
    ensures (es, bad) == ParseLines(f, SplitLines(tsv))
    ensures |es| + bad == |SplitLines(tsv)|
  {
    var lines := SplitLines(tsv);
    es, bad := [], 0;
    for i := 0 to |lines|
      invariant (es, bad) == ParseLines(f, lines[..i]) && |es| + bad == i
    {
      assert lines[..i + 1][..i] == lines[..i];
      match ParseLine(f, lines[i]) {
        case None => bad := bad + 1;
        case Some(e) => es := es + [e];
      }
    }
    assert lines[..|lines|] == lines;
  }

  /** An export line of the published table reads as its event: 61 columns, of which the 1st is the id, the
      27th to 29th the codes, the 30th the class, the 31st and 35th the scores, the 34th the number of
      articles and the 54th the country. */
  lemma ExportLineReads(f: Forms, cols: seq<string>, e: Event)
    requires Lawful(f) && |cols| == 61 && forall i :: 0 <= i < |cols| ==> TabFree(cols[i])
    requires cols[0] == e.id && cols[26] == e.code && cols[27] == e.base && cols[28] == e.root && cols[53] == e.country
    requires cols[29] == f.whole(e.quad) && cols[33] == f.whole(e.articles)
    requires cols[30] == f.decimal(e.goldstein) && cols[34] == f.decimal(e.tone)
    ensures ParseLine(f, Joined(cols)) == Some(e)
  {
    ColumnsBack(cols);
  }

  /** The texts of an event hold neither a tab nor anything that ends a line. */
  predicate Clean(e: Event) {
    Separable(e.id) && Separable(e.code) && Separable(e.base) && Separable(e.root) && Separable(e.country)
  }

  predicate AllClean(es: seq<Event>) { forall e :: e in es ==> Clean(e) }

  lemma {:induction false} ParsedLinesAreClean(f: Forms, lines: seq<string>)
    requires forall i :: 0 <= i < |lines| ==> Unbroken(lines[i])
    ensures AllClean(ParseLines(f, lines).0)
  {
    if lines == [] {
    } else {
      ParsedLinesAreClean(f, lines[..|lines| - 1]);
      ColumnsSeparable(lines[|lines| - 1]);
    }
  }

  /** Whatever an export file held, the events read from it can be kept as lines. */
  lemma ParsedIsClean(f: Forms, tsv: string)
    ensures AllClean(ParseLines(f, SplitLines(tsv)).0)
  {
    SplitUnbroken(tsv);
    ParsedLinesAreClean(f, SplitLines(tsv));
  }

  // ---------------------------------------------------------------- compact

  predicate StampLe(a: Batch, b: Batch) { a.stamp <= b.stamp }

  ghost predicate InStampOrder(bs: seq<Batch>) { forall i, j :: 0 <= i < j < |bs| ==> bs[i].stamp < bs[j].stamp }

  function EventLine(f: Forms, stamp: int, e: Event): string {
    Joined([f.stamp(stamp), e.id, e.code, e.base, e.root, f.whole(e.quad), f.decimal(e.goldstein),
            f.whole(e.articles), f.decimal(e.tone), e.country])
  }

  function EventLines(f: Forms, stamp: int, es: seq<Event>): seq<string> {
    if es == [] then [] else [EventLine(f, stamp, es[0])] + EventLines(f, stamp, es[1..])
  }

  function BatchLines(f: Forms, b: Batch): seq<string> {
    if b.got.None? then [] else EventLines(f, b.stamp, b.got.value.events)
  }

  function AllLines(f: Forms, bs: seq<Batch>): seq<string> {
    if bs == [] then [] else BatchLines(f, bs[0]) + AllLines(f, bs[1..])
  }

  function Keys(f: Forms, bs: seq<Batch>): (ks: seq<(string, Option<string>)>)
    ensures |ks| == |bs|
    ensures forall i :: 0 <= i < |bs| ==> ks[i].0 == f.stamp(bs[i].stamp)
  {
    if bs == [] then []
    else [(f.stamp(bs[0].stamp), if bs[0].got.None? then None else Some(bs[0].got.value.md5))] + Keys(f, bs[1..])
  }

  function ArchiveText(f: Forms, hourEnd: int, bs: seq<Batch>): string {
    var sorted := Sort(bs, StampLe);
    Unlines([f.header(Header(hourEnd, Keys(f, sorted)))] + AllLines(f, sorted))
  }

  lemma {:induction false} AllLinesSnoc(f: Forms, bs: seq<Batch>, b: Batch)
    ensures AllLines(f, bs + [b]) == AllLines(f, bs) + BatchLines(f, b)
  {
    if bs == [] {
      assert [b][1..] == [] && BatchLines(f, b) + [] == BatchLines(f, b);
    } else {
      assert (bs + [b])[1..] == bs[1..] + [b];
      AllLinesSnoc(f, bs[1..], b);
    }
  }

  lemma {:induction false} EventLinesSnoc(f: Forms, stamp: int, es: seq<Event>, e: Event)
    ensures EventLines(f, stamp, es + [e]) == EventLines(f, stamp, es) + [EventLine(f, stamp, e)]
  {
    if es == [] {
      assert [e][1..] == [];
    } else {
      assert (es + [e])[1..] == es[1..] + [e];
      EventLinesSnoc(f, stamp, es[1..], e);
    }
  }

  method AppendEvents(f: Forms, lines: seq<string>, stamp: int, es: seq<Event>) returns (out: seq<string>)
    ensures out == lines + EventLines(f, stamp, es)
  {
    out := lines;
    for i := 0 to |es|
      invariant out == lines + EventLines(f, stamp, es[..i])
    {
      assert es[..i + 1] == es[..i] + [es[i]];
      EventLinesSnoc(f, stamp, es[..i], es[i]);
      out := out + [EventLine(f, stamp, es[i])];
    }
    assert es[..|es|] == es;
  }

  lemma LinesSoFar(f: Forms, head: seq<string>, bs: seq<Batch>, i: nat)
    requires i < |bs|
    ensures head + AllLines(f, bs[..i + 1]) == head + AllLines(f, bs[..i]) + BatchLines(f, bs[i])
    ensures bs[i].got.None? ==> head + AllLines(f, bs[..i + 1]) == head + AllLines(f, bs[..i])
  {
    assert bs[..i + 1] == bs[..i] + [bs[i]];
    AllLinesSnoc(f, bs[..i], bs[i]);
  }

  /** `compact`. */
  method Compact(f: Forms, hourEnd: int, bs: seq<Batch>) returns (body: string)
    ensures body == ArchiveText(f, hourEnd, bs)
  {
    var sorted := Sort(bs, StampLe);
    var lines := [f.header(Header(hourEnd, Keys(f, sorted)))];
    ghost var head := lines;
    for i := 0 to |sorted|
      invariant lines == head + AllLines(f, sorted[..i])
    {
      var b := sorted[i];
      LinesSoFar(f, head, sorted, i);
      if b.got.None? { continue; }
      lines := AppendEvents(f, lines, b.stamp, b.got.value.events);
    }
    assert sorted[..|sorted|] == sorted;
    return Unlines(lines);
  }

  // ---------------------------------------------------------------- expand

  function ReadEvent(f: Forms, c: seq<string>): Option<Event> {
    if |c| < 10 then None
    else
      var quad :- f.readInt(c[5]);
      var goldstein :- f.readDecimal(c[6]);
      var articles :- f.readInt(c[7]);
      var tone :- f.readDecimal(c[8]);
      Some(Event(c[1], c[2], c[3], c[4], quad, goldstein, articles, tone, c[9]))
  }

  function Position(ks: seq<(string, Option<string>)>, name: string): Option<nat> {
    if ks == [] then None
    else if ks[0].0 == name then Some(0)
    else
      var i :- Position(ks[1..], name);
      Some(i + 1)
  }

  /** The batches a header announces, each still empty, or never published. */
  function Announced(f: Forms, ks: seq<(string, Option<string>)>): Option<seq<Quarter>> {
    if ks == [] then Some([])
    else
      var stamp :- f.readStamp(ks[0].0);
      var rest :- Announced(f, ks[1..]);
      Some([Quarter(stamp, if ks[0].1.None? then None else Some([]))] + rest)
  }

  /** One event line goes to the batch whose stamp it names, which must have been published. */
  function AddLine(f: Forms, ks: seq<(string, Option<string>)>, qs: seq<Quarter>, line: string): Option<seq<Quarter>> {
    var c := Columns(line);
    var i :- Position(ks, c[0]);
    if i >= |qs| || qs[i].events.None? then None
    else
      var e :- ReadEvent(f, c);
      Some(qs[i := Quarter(qs[i].stamp, Some(qs[i].events.value + [e]))])
  }

  function AddLines(f: Forms, ks: seq<(string, Option<string>)>, qs: seq<Quarter>, lines: seq<string>): Option<seq<Quarter>> {
    if lines == [] then Some(qs)
    else
      var init :- AddLines(f, ks, qs, lines[..|lines| - 1]);
      AddLine(f, ks, init, lines[|lines| - 1])
  }

  function Expanded(f: Forms, body: string): Option<(int, seq<Quarter>)> {
    var lines := SplitLines(body);
    if lines == [] then None
    else
      var h :- f.readHeader(lines[0]);
      var blank :- Announced(f, h.batches);
      var qs :- AddLines(f, h.batches, blank, lines[1..]);
      Some((h.hourEnd, qs))
  }

  lemma {:induction false} AddLinesFails(f: Forms, ks: seq<(string, Option<string>)>, qs: seq<Quarter>, lines: seq<string>, n: nat)
    requires n <= |lines| && AddLines(f, ks, qs, lines[..n]).None?
    ensures AddLines(f, ks, qs, lines).None?
    decreases |lines|
  {
    if n < |lines| {
      assert lines[..|lines| - 1][..n] == lines[..n];
      AddLinesFails(f, ks, qs, lines[..|lines| - 1], n);
    } else {
      assert lines[..n] == lines;
    }
  }

  /** `expand`: `None` where the original raises. */
  method Expand(f: Forms, body: string) returns (r: Option<(int, seq<Quarter>)>)
    ensures r == Expanded(f, body)
  {
    var text := SplitLines(body);
    if text == [] { return None; }
    var h := f.readHeader(text[0]);
    if h.None? { return None; }
    var blank := Announced(f, h.value.batches);
    if blank.None? { return None; }
    var qs, lines := blank.value, text[1..];
    for i := 0 to |lines|
      invariant AddLines(f, h.value.batches, blank.value, lines[..i]) == Some(qs)
    {
      assert lines[..i + 1][..i] == lines[..i];
      var next := AddLine(f, h.value.batches, qs, lines[i]);
      if next.None? {
        AddLinesFails(f, h.value.batches, blank.value, lines, i + 1);
        return None;
      }
      qs := next.value;
    }
    assert lines[..|lines|] == lines;
    return Some((h.value.hourEnd, qs));
  }

  // ---------------------------------------------------------------- the round trip

  lemma EventBack(f: Forms, stamp: int, e: Event)
    requires Lawful(f) && WholeSecond(stamp) && Clean(e)
    ensures var line := EventLine(f, stamp, e);
            Unbroken(line) && Columns(line)[0] == f.stamp(stamp) && ReadEvent(f, Columns(line)) == Some(e)
  {
    var cols := [f.stamp(stamp), e.id, e.code, e.base, e.root, f.whole(e.quad), f.decimal(e.goldstein),
                 f.whole(e.articles), f.decimal(e.tone), e.country];
    forall i | 0 <= i < |cols| ensures Separable(cols[i]) {}
    ColumnsBack(cols);
    JoinedUnbroken(cols);
  }

  ghost predicate Keepable(bs: seq<Batch>) {
    && InStampOrder(bs)
    && forall b :: b in bs ==> WholeSecond(b.stamp) && (b.got.Some? ==> AllClean(b.got.value.events))
  }

  lemma KeysInOrder(f: Forms, bs: seq<Batch>)
    requires Lawful(f) && Keepable(bs)
    ensures KeysAscend(Keys(f, bs))
    ensures forall i :: 0 <= i < |bs| ==> Position(Keys(f, bs), f.stamp(bs[i].stamp)) == Some(i)
  {
    var ks := Keys(f, bs);
    forall i, j | 0 <= i < j < |bs| ensures StrLess(ks[i].0, ks[j].0) {
      assert bs[i] in bs && bs[j] in bs;
    }
    forall i | 0 <= i < |bs| ensures Position(ks, f.stamp(bs[i].stamp)) == Some(i) {
      forall j | 0 <= j < i ensures ks[j].0 != ks[i].0 {
        assert StrLess(ks[j].0, ks[i].0);
        StrIrreflexive(ks[i].0);
      }
      FirstPosition(ks, i);
    }
  }

  lemma {:induction false} FirstPosition(ks: seq<(string, Option<string>)>, i: nat)
    requires i < |ks| && forall j :: 0 <= j < i ==> ks[j].0 != ks[i].0
    ensures Position(ks, ks[i].0) == Some(i)
  {
    if i > 0 { FirstPosition(ks[1..], i - 1); }
  }

  function Blank(b: Batch): Quarter { Quarter(b.stamp, if b.got.None? then None else Some([])) }

  function Blanks(bs: seq<Batch>): (qs: seq<Quarter>)
    ensures |qs| == |bs|
    ensures forall i :: 0 <= i < |bs| ==> qs[i] == Blank(bs[i])
  {
    if bs == [] then [] else [Blank(bs[0])] + Blanks(bs[1..])
  }

  lemma {:induction false} AnnouncedBack(f: Forms, bs: seq<Batch>)
    requires Lawful(f) && forall b :: b in bs ==> WholeSecond(b.stamp)
    ensures Announced(f, Keys(f, bs)) == Some(Blanks(bs))
  {
    if bs == [] {
    } else {
      assert bs[0] in bs && Keys(f, bs)[1..] == Keys(f, bs[1..]);
      AnnouncedBack(f, bs[1..]);
    }
  }

  lemma {:induction false} AddLinesConcat(f: Forms, ks: seq<(string, Option<string>)>, qs: seq<Quarter>, a: seq<string>, b: seq<string>)
    requires AddLines(f, ks, qs, a).Some?
    ensures AddLines(f, ks, qs, a + b) == AddLines(f, ks, AddLines(f, ks, qs, a).value, b)
  {
    if b == [] {
      assert a + b == a;
    } else {
      assert (a + b)[..|a + b| - 1] == a + b[..|b| - 1];
      AddLinesConcat(f, ks, qs, a, b[..|b| - 1]);
    }
  }

  /** Every event's line reads back as that event, under that stamp. */
  ghost predicate ReadBack(f: Forms, stamp: int, es: seq<Event>) {
    forall e :: e in es ==> LineReads(f, stamp, e, Columns(EventLine(f, stamp, e)))
  }

  ghost predicate LineReads(f: Forms, stamp: int, e: Event, c: seq<string>) {
    c != [] && c[0] == f.stamp(stamp) && ReadEvent(f, c) == Some(e)
  }

  lemma CleanReadsBack(f: Forms, stamp: int, es: seq<Event>)
    requires Lawful(f) && WholeSecond(stamp) && AllClean(es)
    ensures ReadBack(f, stamp, es)
  {
    forall e | e in es ensures LineReads(f, stamp, e, Columns(EventLine(f, stamp, e))) { EventBack(f, stamp, e); }
  }

  /** The lines of one batch fill that batch and no other. */
  lemma {:induction false} BatchBack(f: Forms, ks: seq<(string, Option<string>)>, qs: seq<Quarter>, i: nat, es: seq<Event>)
    requires i < |qs| && qs[i].events == Some([]) && ReadBack(f, qs[i].stamp, es)
    requires Position(ks, f.stamp(qs[i].stamp)) == Some(i)
    ensures AddLines(f, ks, qs, EventLines(f, qs[i].stamp, es)) == Some(qs[i := Quarter(qs[i].stamp, Some(es))])
  {
    if es == [] {
      assert qs[i := Quarter(qs[i].stamp, Some([]))] == qs;
    } else {
      var stamp, init, e := qs[i].stamp, es[..|es| - 1], es[|es| - 1];
      var was, line := EventLines(f, stamp, init), EventLine(f, stamp, e);
      assert es == init + [e] && LineReads(f, stamp, e, Columns(line));
      BatchBack(f, ks, qs, i, init);
      EventLinesSnoc(f, stamp, init, e);
      OneLine(f, ks, qs, i, init, e, line);
      assert (was + [line])[..|was|] == was;
    }
  }

  lemma OneLine(f: Forms, ks: seq<(string, Option<string>)>, qs: seq<Quarter>, i: nat, es: seq<Event>, e: Event, line: string)
    requires i < |qs| && LineReads(f, qs[i].stamp, e, Columns(line)) && Position(ks, f.stamp(qs[i].stamp)) == Some(i)
    ensures AddLine(f, ks, qs[i := Quarter(qs[i].stamp, Some(es))], line) ==
            Some(qs[i := Quarter(qs[i].stamp, Some(es + [e]))])
  {
    var mid := qs[i := Quarter(qs[i].stamp, Some(es))];
    assert mid[i := Quarter(qs[i].stamp, Some(es + [e]))] == qs[i := Quarter(qs[i].stamp, Some(es + [e]))];
  }

  /** The first `k` batches filled, the others still blank. */
  function Filled(bs: seq<Batch>, k: nat): seq<Quarter>
    requires k <= |bs|
  {
    Bare(bs[..k]) + Blanks(bs[k..])
  }

  lemma {:induction false} BatchesBack(f: Forms, bs: seq<Batch>, k: nat)
    requires Lawful(f) && Keepable(bs) && k <= |bs|
    ensures AddLines(f, Keys(f, bs), Filled(bs, k), AllLines(f, bs[k..])) == Some(Bare(bs))
    decreases |bs| - k
  {
    if k == |bs| {
      assert bs[..k] == bs && Filled(bs, k) == Bare(bs);
    } else {
      assert bs[k..][1..] == bs[k + 1..];
      OneBatch(f, bs, k);
      AddLinesConcat(f, Keys(f, bs), Filled(bs, k), BatchLines(f, bs[k]), AllLines(f, bs[k + 1..]));
      BatchesBack(f, bs, k + 1);
    }
  }

  lemma OneBatch(f: Forms, bs: seq<Batch>, k: nat)
    requires Lawful(f) && Keepable(bs) && k < |bs|
    ensures AddLines(f, Keys(f, bs), Filled(bs, k), BatchLines(f, bs[k])) == Some(Filled(bs, k + 1))
  {
    var b, qs := bs[k], Filled(bs, k);
    assert b in bs;
    KeysInOrder(f, bs);
    NextFilled(bs, k);
    if b.got.Some? {
      CleanReadsBack(f, b.stamp, b.got.value.events);
      BatchBack(f, Keys(f, bs), qs, k, b.got.value.events);
    } else {
      assert qs[k := qs[k]] == qs;
    }
  }

  lemma NextFilled(bs: seq<Batch>, k: nat)
    requires k < |bs|
    ensures Filled(bs, k)[k] == Blank(bs[k]) && Filled(bs, k)[k := Stripped(bs[k])] == Filled(bs, k + 1)
  {
    var was, now := Filled(bs, k)[k := Stripped(bs[k])], Filled(bs, k + 1);
    forall i | 0 <= i < |bs| ensures was[i] == now[i] {}
  }

  lemma {:induction false} LinesUnbroken(f: Forms, bs: seq<Batch>)
    requires Lawful(f) && forall b :: b in bs ==> WholeSecond(b.stamp) && (b.got.Some? ==> AllClean(b.got.value.events))
    ensures forall i :: 0 <= i < |AllLines(f, bs)| ==> Unbroken(AllLines(f, bs)[i])
  {
    if bs == [] {
    } else {
      assert bs[0] in bs;
      LinesUnbroken(f, bs[1..]);
      if bs[0].got.Some? { EventLinesUnbroken(f, bs[0].stamp, bs[0].got.value.events); }
    }
  }

  lemma {:induction false} EventLinesUnbroken(f: Forms, stamp: int, es: seq<Event>)
    requires Lawful(f) && WholeSecond(stamp) && AllClean(es)
    ensures forall i :: 0 <= i < |EventLines(f, stamp, es)| ==> Unbroken(EventLines(f, stamp, es)[i])
  {
    if es == [] {
    } else {
      assert es[0] in es;
      EventBack(f, stamp, es[0]);
      EventLinesUnbroken(f, stamp, es[1..]);
    }
  }

  lemma ExpandedBy(f: Forms, body: string, first: string, rest: seq<string>, h: Header, blank: seq<Quarter>, qs: seq<Quarter>)
    requires SplitLines(body) == [first] + rest && f.readHeader(first) == Some(h)
    requires Announced(f, h.batches) == Some(blank) && AddLines(f, h.batches, blank, rest) == Some(qs)
    ensures Expanded(f, body) == Some((h.hourEnd, qs))
  {
    assert ([first] + rest)[1..] == rest;
  }

  lemma BodyBack(f: Forms, bs: seq<Batch>)
    requires Lawful(f) && Keepable(bs)
    ensures Announced(f, Keys(f, bs)) == Some(Blanks(bs))
    ensures AddLines(f, Keys(f, bs), Blanks(bs), AllLines(f, bs)) == Some(Bare(bs))
  {
    AnnouncedBack(f, bs);
    FromBlank(bs);
    BatchesBack(f, bs, 0);
  }

  lemma FromBlank(bs: seq<Batch>)
    ensures bs[0..] == bs && Filled(bs, 0) == Blanks(bs)
  {}

  lemma ArchiveLinesBack(f: Forms, hourEnd: int, bs: seq<Batch>)
    requires Lawful(f) && Keepable(bs)
    ensures SplitLines(ArchiveText(f, hourEnd, bs)) == [f.header(Header(hourEnd, Keys(f, bs)))] + AllLines(f, bs)
  {
    SortOfSorted(bs, StampLe);
    LinesUnbroken(f, bs);
    LinesBack([f.header(Header(hourEnd, Keys(f, bs)))] + AllLines(f, bs));
  }

  /** Expanding what was compacted gives the hour and its batches, a batch never published as
      `None`. */
  lemma ExpandCompact(f: Forms, hourEnd: int, bs: seq<Batch>)
    requires Lawful(f) && Keepable(bs)
    ensures Expanded(f, ArchiveText(f, hourEnd, bs)) == Some((hourEnd, Bare(bs)))
  {
    var h := Header(hourEnd, Keys(f, bs));
    ArchiveLinesBack(f, hourEnd, bs);
    BodyBack(f, bs);
    assert h.hourEnd == hourEnd && h.batches == Keys(f, bs);
    assert f.readHeader(f.header(h)) == Some(h) by { KeysInOrder(f, bs); }
    ExpandedBy(f, ArchiveText(f, hourEnd, bs), f.header(h), AllLines(f, bs), h, Blanks(bs), Bare(bs));
  }

  /** A live fetch: the hour's four stamps in order, each absent or parsed from its export file. */
  ghost predicate Fetched(f: Forms, hourEnd: int, bs: seq<Batch>) {
    && |bs| == 4
    && (forall i :: 0 <= i < 4 ==> bs[i].stamp == BatchStamps(hourEnd)[i])
    && (forall b :: b in bs && b.got.Some? ==> exists tsv: string :: b.got.value.events == ParseLines(f, SplitLines(tsv)).0)
  }

  /** Replay: the archived hour gives exactly the candidates the fetched hour gives, whatever the
      export files held. */
  lemma ReplayGivesTheSame(f: Forms, hourEnd: int, bs: seq<Batch>)
    requires Lawful(f) && Fetched(f, hourEnd, bs)
    requires hourEnd % 1000 == 0 && TimestampOk(hourEnd) && TimestampOk(hourEnd - HOUR_MS)
    ensures var back := Expanded(f, ArchiveText(f, hourEnd, bs));
            && back == Some((hourEnd, Bare(bs)))
            && CandidatesOf(f, back.value.0, back.value.1) == CandidatesOf(f, hourEnd, Bare(bs))
  {
    FetchedIsKeepable(f, hourEnd, bs);
    ExpandCompact(f, hourEnd, bs);
  }

  lemma FetchedIsKeepable(f: Forms, hourEnd: int, bs: seq<Batch>)
    requires Fetched(f, hourEnd, bs) && WholeSecond(hourEnd) && TimestampOk(hourEnd - HOUR_MS)
    ensures Keepable(bs)
  {
    forall b | b in bs ensures WholeSecond(b.stamp) && (b.got.Some? ==> AllClean(b.got.value.events)) {
      var i :| 0 <= i < 4 && bs[i] == b;
      assert b.stamp == BatchStamps(hourEnd)[i];
      if b.got.Some? {
        var tsv: string :| b.got.value.events == ParseLines(f, SplitLines(tsv)).0;
        ParsedIsClean(f, tsv);
      }
    }
    assert forall i, j :: 0 <= i < j < 4 ==> BatchStamps(hourEnd)[i] < BatchStamps(hourEnd)[j];
  }
}
