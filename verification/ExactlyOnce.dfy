/** A live tail delivers every record once (hubread/journal.py, `JournalTail`; hub/journal.py).

    Writer acts and tail steps interleave freely.  The one hypothesis is that the writer moves
    forward: it never writes to a day of the followed dataset older than one that has a file. */
module ExactlyOnce {
  import opened Ordering
  import opened Records
  import opened Journal
  import opened Protocol
  import opened Tail

  /** Writer and tail together; `delivered` concatenates what the tail has handed out. */
  datatype System = System(store: Store, tail: TailState, delivered: seq<Record>)

  datatype Move = WriterMove(act: Act) | ListDays(days: seq<int>) | ReadFile

  /** The writer does not go back behind an existing day file of `dataset`. */
  ghost predicate Forward(s: Store, r: Record, dataset: string) {
    r.dataset == dataset ==> forall p :: p in s.files && p.dataset == dataset ==> p.day <= PathOf(r).day
  }

  ghost predicate ForwardAct(s: Store, a: Act, dataset: string) {
    match a
    case Append(r) => Forward(s, r, dataset)
    case CrashMidWrite(r, _) => Forward(s, r, dataset)
    case _ => true
  }

  ghost predicate Moves(c: Codec, dataset: string, a: System, m: Move, b: System) {
    match m
    case WriterMove(act) =>
      && Next(c, a.store, act, b.store) && ForwardAct(a.store, act, dataset)
      && b.tail == a.tail && b.delivered == a.delivered
    case ListDays(days) =>
      && ListsDays(a.store.files, dataset, days)
      && b == a.(tail := Refreshed(a.tail, days))
    case ReadFile =>
      && Reading(a.tail)
      && var (t, out) := ReadStep(c, a.store.files, dataset, a.tail);
         b == a.(tail := t, delivered := a.delivered + out)
  }

  ghost predicate IsSystemRun(c: Codec, dataset: string, from: nat, states: seq<System>, moves: seq<Move>) {
    && |states| == |moves| + 1
    && states[0] == System(EMPTY_STORE, Started(from), [])
    && forall i :: 0 <= i < |moves| ==> Moves(c, dataset, states[i], moves[i], states[i + 1])
  }

  /** A run goes on by any move its last state allows. */
  lemma RunGoesOn(c: Codec, dataset: string, from: nat, states: seq<System>, moves: seq<Move>, m: Move, s': System)
    requires IsSystemRun(c, dataset, from, states, moves) && Moves(c, dataset, states[|moves|], m, s')
    ensures IsSystemRun(c, dataset, from, states + [s'], moves + [m])
  {
    var after, all := states + [s'], moves + [m];
    forall i | 0 <= i < |all| ensures Moves(c, dataset, after[i], all[i], after[i + 1]) {
      if i < |moves| { assert Moves(c, dataset, states[i], moves[i], states[i + 1]); }
    }
  }

  // ---------------------------------------------------------------- what has been consumed

  function Day(r: Record): int { DayOf(r.knownAt) }

  ghost predicate DaysAscend(rs: seq<Record>) { forall i, j :: 0 <= i < j < |rs| ==> Day(rs[i]) <= Day(rs[j]) }

  function BeforeDay(d: int): Record -> bool { (r: Record) => Day(r) < d }
  function OnDay(d: int): Record -> bool { (r: Record) => Day(r) == d }

  function CountBefore(rs: seq<Record>, d: int): nat { |Filter(rs, BeforeDay(d))| }
  function DayRecords(rs: seq<Record>, d: int): seq<Record> { Filter(rs, OnDay(d)) }

  /** In a log that moves forward, a day's records stand together. */
  lemma {:induction false} DaySlice(rs: seq<Record>, d: int)
    requires DaysAscend(rs)
    ensures CountBefore(rs, d) + |DayRecords(rs, d)| <= |rs|
    ensures rs[CountBefore(rs, d)..CountBefore(rs, d) + |DayRecords(rs, d)|] == DayRecords(rs, d)
    ensures (forall r :: r in rs ==> Day(r) <= d) ==> CountBefore(rs, d) + |DayRecords(rs, d)| == |rs|
  {
    if rs == [] {
    } else {
      DaySlice(rs[..|rs| - 1], d);
      assert rs == rs[..|rs| - 1] + [rs[|rs| - 1]];
      DaySliceSnoc(rs[..|rs| - 1], rs[|rs| - 1], d);
    }
  }

  lemma DaySliceSnoc(init: seq<Record>, r: Record, d: int)
    requires DaysAscend(init + [r])
    requires CountBefore(init, d) + |DayRecords(init, d)| <= |init|
    requires init[CountBefore(init, d)..CountBefore(init, d) + |DayRecords(init, d)|] == DayRecords(init, d)
    requires (forall q :: q in init ==> Day(q) <= d) ==> CountBefore(init, d) + |DayRecords(init, d)| == |init|
    ensures var rs := init + [r]; var n, k := CountBefore(rs, d), |DayRecords(rs, d)|;
            && n + k <= |rs| && rs[n..n + k] == DayRecords(rs, d)
            && ((forall q :: q in rs ==> Day(q) <= d) ==> n + k == |rs|)
  {
    var rs := init + [r];
    DaySnoc(init, r, d);
    var n, k := CountBefore(init, d), |DayRecords(init, d)|;
    if Day(r) < d {
      NothingYet(init, r, d);
      assert rs[|rs|..|rs|] == [];
    } else if Day(r) == d {
      EarlierInList(init, r);
      SliceGrows(init, r, n, k);
    } else {
      SliceGrows(init, r, n, k);
      assert r in rs;
    }
  }

  lemma SliceGrows<T>(s: seq<T>, x: T, n: nat, k: nat)
    requires n + k <= |s|
    ensures (s + [x])[n..n + k] == s[n..n + k]
    ensures n + k == |s| ==> (s + [x])[n..n + k + 1] == s[n..n + k] + [x]
  {}

  lemma DaySnoc(rs: seq<Record>, r: Record, d: int)
    ensures CountBefore(rs + [r], d) == CountBefore(rs, d) + if Day(r) < d then 1 else 0
    ensures DayRecords(rs + [r], d) == if Day(r) == d then DayRecords(rs, d) + [r] else DayRecords(rs, d)
  {
    FilterConcat(rs, [r], BeforeDay(d));
    FilterConcat(rs, [r], OnDay(d));
    assert DayRecords(rs, d) + [] == DayRecords(rs, d);
  }

  /** Before a day begins, everything is before it and nothing on it. */
  lemma NothingYet(rs: seq<Record>, r: Record, d: int)
    requires DaysAscend(rs + [r]) && Day(r) < d
    ensures CountBefore(rs, d) == |rs| && DayRecords(rs, d) == []
  {
    EarlierInList(rs, r);
    FilterAll(rs, BeforeDay(d));
    FilterNone(rs, OnDay(d));
  }

  lemma EarlierInList(rs: seq<Record>, r: Record)
    requires DaysAscend(rs + [r])
    ensures forall q :: q in rs ==> Day(q) <= Day(r)
  {
    forall q | q in rs ensures Day(q) <= Day(r) {
      var i :| 0 <= i < |rs| && rs[i] == q;
      assert (rs + [r])[i] == q && (rs + [r])[|rs|] == r;
    }
  }

  lemma {:induction false} NextDayCount(rs: seq<Record>, d: int, e: int)
    requires d < e && forall r :: r in rs ==> !(d < Day(r) < e)
    ensures CountBefore(rs, e) == CountBefore(rs, d) + |DayRecords(rs, d)|
  {
    if rs != [] { NextDayCount(rs[1..], d, e); }
  }

  lemma {:induction false} FirstDayCount(rs: seq<Record>, d: int)
    requires forall r :: r in rs ==> d <= Day(r)
    ensures CountBefore(rs, d) == 0
  {
    FilterNone(rs, BeforeDay(d));
  }

  lemma PathRecords(log: seq<Record>, dataset: string, d: int)
    ensures OfPath(log, Path(dataset, d)) == DayRecords(OfDataset(log, dataset), d)
  {
    FilterTwice(log, InDataset(dataset), OnDay(d), AtPath(Path(dataset, d)));
  }

  /** The records with sequence numbers above `from` among the first `m` of a numbered log. */
  function Since(rs: seq<Record>, from: nat, m: nat): seq<Record>
    requires m <= |rs|
  {
    if from <= m then rs[from..m] else []
  }

  // ---------------------------------------------------------------- the invariant

  ghost predicate StoreForward(c: Codec, s: Store, dataset: string) {
    && Inv(c, s)
    && DaysAscend(OfDataset(s.log, dataset))
    && forall p, q :: p in s.files && q in s.files && p.dataset == q.dataset == dataset && p.day < q.day ==>
         s.files[p] == Encoded(c, OfPath(s.log, p))
  }

  /** The tail's list is an initial run of the dataset's day files. */
  ghost predicate DaysOk(s: Store, dataset: string, t: TailState) {
    && (forall i, j :: 0 <= i < j < |t.days| ==> t.days[i] < t.days[j])
    && (forall d :: d in t.days ==> Path(dataset, d) in s.files)
    && (forall d, e :: Path(dataset, d) in s.files && d !in t.days && e in t.days ==> e < d)
    && (t.index == -1 <==> t.days == [])
    && -1 <= t.index < |t.days|
  }

  /** How many records of the dataset lie behind the tail's position, `j` of them on its day. */
  function Behind(rs: seq<Record>, t: TailState, j: nat): nat
    requires t.index < |t.days|
  {
    if t.index < 0 then 0 else CountBefore(rs, t.days[t.index]) + j
  }

  ghost predicate Position(c: Codec, rs: seq<Record>, t: TailState, j: nat) {
    && t.index < |t.days|
    && if t.index < 0 then t.offset == 0 && j == 0
       else var own := DayRecords(rs, t.days[t.index]);
            j <= |own| && t.offset == |Encoded(c, own[..j])|
  }

  ghost predicate TailAt(c: Codec, rs: seq<Record>, sys: System, j: nat) {
    && Position(c, rs, sys.tail, j)
    && Caught(rs, sys.delivered, sys.tail, Behind(rs, sys.tail, j))
  }

  ghost predicate SystemInv(c: Codec, dataset: string, sys: System) {
    && StoreForward(c, sys.store, dataset)
    && DaysOk(sys.store, dataset, sys.tail)
    && exists j :: TailAt(c, OfDataset(sys.store.log, dataset), sys, j)
  }

  // ---------------------------------------------------------------- reading

  ghost predicate Consecutive(rs: seq<Record>, base: nat) {
    forall i :: 0 <= i < |rs| ==> rs[i].seqNo == base + i + 1
  }

  /** Of consecutive records, those above `last`. */
  function Unseen(rs: seq<Record>, base: nat, last: nat): Drained
    requires base <= last
  {
    if last <= base + |rs| then Drained(rs[last - base..], base + |rs|, 0) else Drained([], last, 0)
  }

  lemma NothingToDeliver(c: Codec, last: nat)
    ensures DecodeLenient(c, [""], last) == Drained([], last, 0)
  {
    assert [""][1..] == [];
  }

  lemma UnseenFirst(rs: seq<Record>, base: nat, last: nat)
    requires rs != [] && base <= last && Consecutive(rs, base)
    ensures rs[0].seqNo == base + 1 && Consecutive(rs[1..], base + 1)
    ensures Unseen(rs, base, last) ==
            if base + 1 <= last then Unseen(rs[1..], base + 1, last)
            else var more := Unseen(rs[1..], base + 1, base + 1); more.(out := [rs[0]] + more.out)
  {
    if last <= base + |rs| && base + 1 <= last { assert rs[1..][last - base - 1..] == rs[last - base..]; }
  }

  /** The first of several lines is delivered, or passed over as already seen. */
  lemma DeliverFirst(c: Codec, rs: seq<Record>, last: nat)
    requires Faithful(c) && rs != []
    ensures var lines := LineTexts(c, rs[1..]) + [""];
            DecodeLenient(c, LineTexts(c, rs) + [""], last) ==
            if rs[0].seqNo <= last then DecodeLenient(c, lines, last)
            else var more := DecodeLenient(c, lines, rs[0].seqNo); more.(out := [rs[0]] + more.out)
  {
    var all := LineTexts(c, rs) + [""];
    assert all[1..] == LineTexts(c, rs[1..]) + [""] && all[0] == c.enc(rs[0]);
  }

  /** Records in line order, those not above the last delivered left out. */
  function Passed(rs: seq<Record>, last: nat): Drained {
    if rs == [] then Drained([], last, 0)
    else if rs[0].seqNo <= last then Passed(rs[1..], last)
    else var more := Passed(rs[1..], rs[0].seqNo); more.(out := [rs[0]] + more.out)
  }

  lemma {:induction false} DeliverLines(c: Codec, rs: seq<Record>, last: nat)
    requires Faithful(c)
    ensures DecodeLenient(c, LineTexts(c, rs) + [""], last) == Passed(rs, last)
  {
    if rs == [] {
      assert LineTexts(c, rs) + [""] == [""];
      NothingToDeliver(c, last);
    } else {
      DeliverFirst(c, rs, last);
      DeliverLines(c, rs[1..], if rs[0].seqNo <= last then last else rs[0].seqNo);
    }
  }

  lemma {:induction false} PassedConsecutive(rs: seq<Record>, base: nat, last: nat)
    requires base <= last && Consecutive(rs, base)
    ensures Passed(rs, last) == Unseen(rs, base, last)
  {
    if rs == [] {
    } else {
      UnseenFirst(rs, base, last);
      PassedConsecutive(rs[1..], base + 1, if base + 1 <= last then last else base + 1);
    }
  }

  /** What a read finds behind the offset: the committed lines not yet consumed, whole. */
  ghost predicate ChunkIs(c: Codec, files: Files, dataset: string, t: TailState, own: seq<Record>, j: nat)
    requires Reading(t)
  {
    var chunk := Unread(Content(files, Path(dataset, t.days[t.index])), t.offset);
    var n := CompleteLength(chunk);
    && j <= |own| && chunk[..n] == Encoded(c, own[j..])
    && t.offset + n == |Encoded(c, own)|
    && (HasNextDay(t) ==> n == |chunk|)
  }

  lemma UnreadText(c: Codec, own: seq<Record>, j: nat, fragment: string)
    requires j <= |own|
    ensures Unread(Encoded(c, own) + fragment, |Encoded(c, own[..j])|) == Encoded(c, own[j..]) + fragment
    ensures |Encoded(c, own[..j])| + |Encoded(c, own[j..])| == |Encoded(c, own)|
  {
    assert own == own[..j] + own[j..];
    EncodedConcat(c, own[..j], own[j..]);
    var seen, rest := Encoded(c, own[..j]), Encoded(c, own[j..]);
    assert Encoded(c, own) + fragment == seen + (rest + fragment);
  }

  lemma ChunkShape(c: Codec, s: Store, dataset: string, t: TailState, j: nat)
    requires Faithful(c) && StoreForward(c, s, dataset) && DaysOk(s, dataset, t) && Reading(t)
    requires Position(c, OfDataset(s.log, dataset), t, j)
    ensures ChunkIs(c, s.files, dataset, t, DayRecords(OfDataset(s.log, dataset), t.days[t.index]), j)
  {
    var d := t.days[t.index];
    var p := Path(dataset, d);
    assert d in t.days;
    var own := DayRecords(OfDataset(s.log, dataset), d);
    PathRecords(s.log, dataset, d);
    assert FileOk(c, s, p);
    var text := s.files[p];
    var fragment := text[|Encoded(c, own)|..];
    assert text == Encoded(c, own) + fragment;
    UnreadText(c, own, j, fragment);
    CompletePart(c, own[j..], fragment);
    if HasNextDay(t) {
      assert t.days[t.index + 1] in t.days;
      assert text == Encoded(c, own);
    }
  }

  /** The tail has handed out the owed records among the first `m`, and remembers where it is. */
  ghost predicate Caught(rs: seq<Record>, delivered: seq<Record>, t: TailState, m: nat) {
    && m <= |rs|
    && delivered == Since(rs, t.from, m)
    && t.lastSeq == (if t.from < m then m else t.from)
    && t.skipped == 0
  }

  /** Where one read leaves the tail once it has decoded `got`. */
  function Landed(c: Codec, t: TailState, own: seq<Record>, got: Drained): TailState {
    TailState(t.from, t.days, if HasNextDay(t) then t.index + 1 else t.index,
              if HasNextDay(t) then 0 else |Encoded(c, own)|, got.lastSeq, t.skipped + got.skipped)
  }

  /** One read, given what lies behind the offset. */
  lemma ReadStepShape(c: Codec, files: Files, dataset: string, t: TailState, own: seq<Record>, j: nat)
    requires Reading(t) && ChunkIs(c, files, dataset, t, own, j)
    ensures var got := DecodeLenient(c, Pieces(Encoded(c, own[j..])), t.lastSeq);
            ReadStep(c, files, dataset, t) == (Landed(c, t, own, got), got.out)
  {
    var chunk := Unread(Content(files, Path(dataset, t.days[t.index])), t.offset);
    var n := CompleteLength(chunk);
    assert chunk[..n] == Encoded(c, own[j..]);
  }

  /** Decoding a day's unseen lines catches the tail up with that day. */
  lemma DecodeCatchesUp(c: Codec, rs: seq<Record>, unread: seq<Record>, m0: nat, m: nat, t: TailState, delivered: seq<Record>, got: Drained)
    requires Faithful(c) && m0 <= m <= |rs| && unread == rs[m0..m] && Consecutive(unread, m0)
    requires Caught(rs, delivered, t, m0)
    requires got == DecodeLenient(c, Pieces(Encoded(c, unread)), t.lastSeq)
    ensures Caught(rs, delivered + got.out, t.(lastSeq := got.lastSeq, skipped := t.skipped + got.skipped), m)
  {
    DecodeUnread(c, unread, m0, t.lastSeq);
    CatchUp(rs, t, delivered, m0, m, unread, got);
  }

  lemma CatchUp(rs: seq<Record>, t: TailState, delivered: seq<Record>, m0: nat, m: nat, unread: seq<Record>, got: Drained)
    requires m0 <= m <= |rs| && Caught(rs, delivered, t, m0)
    requires unread == rs[m0..m] && got == Unseen(unread, m0, t.lastSeq)
    ensures Caught(rs, delivered + got.out, t.(lastSeq := got.lastSeq, skipped := t.skipped + got.skipped), m)
  {
    SinceGrows(rs, t.from, m0, m);
  }

  /** What reading a whole file leaves: the tail caught up with that day, on its end or at the
      start of the next. */
  ghost predicate ReadTo(c: Codec, rs: seq<Record>, was: TailState, t: TailState, delivered: seq<Record>)
    requires Reading(was)
  {
    var own := DayRecords(rs, was.days[was.index]);
    && Caught(rs, delivered, t, CountBefore(rs, was.days[was.index]) + |own|)
    && t.from == was.from && t.days == was.days
    && t.index == (if HasNextDay(was) then was.index + 1 else was.index)
    && t.offset == if HasNextDay(was) then 0 else |Encoded(c, own)|
  }

  lemma DayCatchesUp(c: Codec, rs: seq<Record>, d: int, t: TailState, delivered: seq<Record>, j: nat, got: Drained)
    requires Faithful(c) && DaysAscend(rs) && Numbered(rs) && j <= |DayRecords(rs, d)|
    requires Caught(rs, delivered, t, CountBefore(rs, d) + j)
    requires got == DecodeLenient(c, Pieces(Encoded(c, DayRecords(rs, d)[j..])), t.lastSeq)
    ensures CountBefore(rs, d) + |DayRecords(rs, d)| <= |rs|
    ensures Caught(rs, delivered + got.out, t.(lastSeq := got.lastSeq, skipped := t.skipped + got.skipped),
                   CountBefore(rs, d) + |DayRecords(rs, d)|)
  {
    UnreadSlice(rs, d, j);
    DecodeCatchesUp(c, rs, DayRecords(rs, d)[j..], CountBefore(rs, d) + j, CountBefore(rs, d) + |DayRecords(rs, d)|, t, delivered, got);
  }

  lemma LandedIsReadTo(c: Codec, rs: seq<Record>, t: TailState, delivered: seq<Record>, got: Drained)
    requires Reading(t)
    requires Caught(rs, delivered, t.(lastSeq := got.lastSeq, skipped := t.skipped + got.skipped),
                    CountBefore(rs, t.days[t.index]) + |DayRecords(rs, t.days[t.index])|)
    ensures ReadTo(c, rs, t, Landed(c, t, DayRecords(rs, t.days[t.index]), got), delivered)
  {}

  lemma ReadValues(c: Codec, files: Files, dataset: string, rs: seq<Record>, t: TailState, delivered: seq<Record>, j: nat)
    requires Faithful(c) && DaysAscend(rs) && Numbered(rs) && Reading(t)
    requires ChunkIs(c, files, dataset, t, DayRecords(rs, t.days[t.index]), j)
    requires Caught(rs, delivered, t, CountBefore(rs, t.days[t.index]) + j)
    ensures var (t', out) := ReadStep(c, files, dataset, t); ReadTo(c, rs, t, t', delivered + out)
  {
    var d := t.days[t.index];
    var own := DayRecords(rs, d);
    var got := DecodeLenient(c, Pieces(Encoded(c, own[j..])), t.lastSeq);
    DayCatchesUp(c, rs, d, t, delivered, j, got);
    LandedIsReadTo(c, rs, t, delivered + got.out, got);
    ReadStepShape(c, files, dataset, t, own, j);
  }

  /** Reading a file to its end delivers exactly the day's unseen records. */
  lemma ReadDelivers(c: Codec, dataset: string, sys: System)
    requires Faithful(c) && SystemInv(c, dataset, sys) && Reading(sys.tail)
    ensures var (t, out) := ReadStep(c, sys.store.files, dataset, sys.tail);
            ReadTo(c, OfDataset(sys.store.log, dataset), sys.tail, t, sys.delivered + out)
  {
    var rs := OfDataset(sys.store.log, dataset);
    var j :| TailAt(c, rs, sys, j);
    ChunkShape(c, sys.store, dataset, sys.tail, j);
    assert DaysAscend(rs) && Numbered(rs);
    ReadValues(c, sys.store.files, dataset, rs, sys.tail, sys.delivered, j);
  }

  /** The unread records of a day are the next ones of the log, numbered where they stand. */
  lemma UnreadSlice(rs: seq<Record>, d: int, j: nat)
    requires DaysAscend(rs) && Numbered(rs) && j <= |DayRecords(rs, d)|
    ensures var m0, m := CountBefore(rs, d) + j, CountBefore(rs, d) + |DayRecords(rs, d)|;
            && m <= |rs| && DayRecords(rs, d)[j..] == rs[m0..m]
            && Consecutive(DayRecords(rs, d)[j..], m0)
  {
    DaySlice(rs, d);
    var before, own := CountBefore(rs, d), DayRecords(rs, d);
    assert own[j..] == rs[before..before + |own|][j..] == rs[before + j..before + |own|];
  }

  lemma DecodeUnread(c: Codec, unread: seq<Record>, base: nat, last: nat)
    requires Faithful(c) && base <= last
    requires Consecutive(unread, base)
    ensures DecodeLenient(c, Pieces(Encoded(c, unread)), last) == Unseen(unread, base, last)
  {
    PiecesOfEncoded(c, unread, "");
    assert Encoded(c, unread) + "" == Encoded(c, unread);
    DeliverLines(c, unread, last);
    PassedConsecutive(unread, base, last);
  }

  lemma SinceGrows(rs: seq<Record>, from: nat, m0: nat, m: nat)
    requires m0 <= m <= |rs|
    ensures var last := if from < m0 then m0 else from;
            Since(rs, from, m0) + (if last <= m then rs[m0..m][last - m0..] else []) == Since(rs, from, m)
  {
    if from <= m0 {
      Slices(rs, from, m0, m);
      assert rs[m0..m][0..] == rs[m0..m];
    } else if from <= m {
      Slices(rs, m0, from, m);
      assert [] + rs[from..m] == rs[from..m];
    }
  }

  lemma Slices(rs: seq<Record>, a: nat, b: nat, c: nat)
    requires a <= b <= c <= |rs|
    ensures rs[a..c][b - a..] == rs[b..c]
    ensures rs[a..b] + rs[b..c] == rs[a..c]
  {}

  lemma ReadKeepsInv(c: Codec, dataset: string, a: System, b: System)
    requires Faithful(c) && SystemInv(c, dataset, a) && Moves(c, dataset, a, ReadFile, b)
    ensures SystemInv(c, dataset, b)
  {
    ReadDelivers(c, dataset, a);
    ReadToIsTailAt(c, dataset, a, b);
  }

  lemma ReadToIsTailAt(c: Codec, dataset: string, a: System, b: System)
    requires SystemInv(c, dataset, a) && Reading(a.tail)
    requires b.store == a.store && ReadTo(c, OfDataset(a.store.log, dataset), a.tail, b.tail, b.delivered)
    ensures SystemInv(c, dataset, b)
  {
    var rs := OfDataset(a.store.log, dataset);
    if HasNextDay(a.tail) {
      NoDayBetween(c, a.store, dataset, a.tail);
      NextDayCount(rs, a.tail.days[a.tail.index], a.tail.days[a.tail.index + 1]);
      StartOfDay(c, rs, b.tail);
      assert TailAt(c, rs, b, 0);
    } else {
      EndOfDay(c, rs, b.tail);
      assert TailAt(c, rs, b, |DayRecords(rs, a.tail.days[a.tail.index])|);
    }
  }

  lemma StartOfDay(c: Codec, rs: seq<Record>, t: TailState)
    requires Reading(t) && t.offset == 0
    ensures Position(c, rs, t, 0)
  {
    assert DayRecords(rs, t.days[t.index])[..0] == [];
  }

  lemma EndOfDay(c: Codec, rs: seq<Record>, t: TailState)
    requires Reading(t) && t.offset == |Encoded(c, DayRecords(rs, t.days[t.index]))|
    ensures Position(c, rs, t, |DayRecords(rs, t.days[t.index])|)
  {
    var own := DayRecords(rs, t.days[t.index]);
    assert own[..|own|] == own;
  }

  lemma RecordsHaveFiles(c: Codec, s: Store, dataset: string)
    requires Inv(c, s)
    ensures forall r :: r in OfDataset(s.log, dataset) ==> Path(dataset, Day(r)) in s.files
  {
    forall r | r in OfDataset(s.log, dataset)
      ensures Path(dataset, Day(r)) in s.files
    {
      FilterMember(s.log, InDataset(dataset), r);
      assert PathOf(r) in s.files;
    }
  }

  lemma NoDayBetween(c: Codec, s: Store, dataset: string, t: TailState)
    requires Inv(c, s) && DaysOk(s, dataset, t) && Reading(t) && HasNextDay(t)
    ensures forall r :: r in OfDataset(s.log, dataset) ==> !(t.days[t.index] < Day(r) < t.days[t.index + 1])
  {
    RecordsHaveFiles(c, s, dataset);
    var d, e := t.days[t.index], t.days[t.index + 1];
    assert d in t.days && e in t.days;
    forall r | r in OfDataset(s.log, dataset)
      ensures !(d < Day(r) < e)
    {
      if Day(r) in t.days {
        var k :| 0 <= k < |t.days| && t.days[k] == Day(r);
      }
    }
  }

  // ---------------------------------------------------------------- listing

  lemma ListKeepsInv(c: Codec, dataset: string, a: System, days: seq<int>, b: System)
    requires Faithful(c) && SystemInv(c, dataset, a) && Moves(c, dataset, a, ListDays(days), b)
    ensures SystemInv(c, dataset, b)
  {
    var rs := OfDataset(a.store.log, dataset);
    var j :| TailAt(c, rs, a, j);
    OldDaysStayFirst(a.store, dataset, a.tail, days);
    if a.tail.index == -1 && days != [] {
      RecordsHaveFiles(c, a.store, dataset);
      forall r | r in rs ensures days[0] <= Day(r) {
        assert Day(r) in days;
        var k :| 0 <= k < |days| && days[k] == Day(r);
      }
      FirstDayCount(rs, days[0]);
      assert DayRecords(rs, days[0])[..0] == [];
      assert TailAt(c, rs, b, 0);
    } else {
      assert TailAt(c, rs, b, j);
    }
  }

  lemma OldDaysStayFirst(s: Store, dataset: string, t: TailState, days: seq<int>)
    requires DaysOk(s, dataset, t) && ListsDays(s.files, dataset, days)
    ensures |t.days| <= |days| && t.days == days[..|t.days|]
    decreases |t.days|
  {
    AscendingPrefix(t.days, days);
  }

  // ---------------------------------------------------------------- writer acts

  /** Appending forward changes nothing behind the tail. */
  lemma GrowKeepsTail(c: Codec, rs: seq<Record>, r: Record, sys: System, grown: System, j: nat)
    requires TailAt(c, rs, sys, j) && grown.tail == sys.tail && grown.delivered == sys.delivered
    requires sys.tail.index >= 0 ==> sys.tail.days[sys.tail.index] <= Day(r)
    ensures TailAt(c, rs + [r], grown, j)
  {
    var t := sys.tail;
    if t.index >= 0 {
      var d := t.days[t.index];
      FilterConcat(rs, [r], BeforeDay(d));
      FilterConcat(rs, [r], OnDay(d));
      var own := DayRecords(rs, d);
      assert DayRecords(rs + [r], d)[..j] == own[..j];
    }
    var m := Behind(rs, t, j);
    assert Since(rs + [r], t.from, m) == Since(rs, t.from, m);
  }

  lemma WriterKeepsTail(c: Codec, dataset: string, a: System, act: Act, b: System)
    requires Faithful(c) && SystemInv(c, dataset, a) && Moves(c, dataset, a, WriterMove(act), b)
    ensures exists j :: TailAt(c, OfDataset(b.store.log, dataset), b, j)
  {
    var rs := OfDataset(a.store.log, dataset);
    var j :| TailAt(c, rs, a, j);
    if act.Append? {
      DatasetSnoc(a.store.log, act.stamped, dataset);
      if act.stamped.dataset == dataset {
        if a.tail.index >= 0 { assert a.tail.days[a.tail.index] in a.tail.days; }
        GrowKeepsTail(c, rs, act.stamped, a, b, j);
        assert TailAt(c, OfDataset(b.store.log, dataset), b, j);
      } else {
        assert TailAt(c, OfDataset(b.store.log, dataset), b, j);
      }
    } else {
      assert b.store.log == a.store.log;
      assert TailAt(c, OfDataset(b.store.log, dataset), b, j);
    }
  }

  lemma WriterKeepsDays(c: Codec, dataset: string, s: Store, act: Act, s': Store, t: TailState)
    requires Next(c, s, act, s') && ForwardAct(s, act, dataset) && DaysOk(s, dataset, t)
    ensures DaysOk(s', dataset, t)
  {
    forall d, e | Path(dataset, d) in s'.files && d !in t.days && e in t.days
      ensures e < d
    {
      assert Path(dataset, e) in s.files;
      if Path(dataset, d) !in s.files {
        assert act.Append? || act.CrashMidWrite?;
        assert PathOf(act.stamped) == Path(dataset, d);
      }
    }
  }

  lemma WriterKeepsForward(c: Codec, dataset: string, s: Store, act: Act, s': Store)
    requires Faithful(c) && StoreForward(c, s, dataset) && Next(c, s, act, s') && ForwardAct(s, act, dataset)
    ensures StoreForward(c, s', dataset)
  {
    NextKeepsInv(c, s, act, s');
    if act.Append? {
      DatasetSnoc(s.log, act.stamped, dataset);
      RecordsHaveFiles(c, s, dataset);
    }
    forall p, q | p in s'.files && q in s'.files && p.dataset == q.dataset == dataset && p.day < q.day
      ensures s'.files[p] == Encoded(c, OfPath(s'.log, p))
    {
      if s'.open.Some? {
        assert FileOk(c, s', p);
      } else {
        OlderFileWhole(c, dataset, s, act, s', p, q);
      }
    }
  }

  lemma OlderFileWhole(c: Codec, dataset: string, s: Store, act: Act, s': Store, p: Path, q: Path)
    requires Faithful(c) && StoreForward(c, s, dataset) && Next(c, s, act, s') && ForwardAct(s, act, dataset)
    requires s'.open.None?
    requires p in s'.files && q in s'.files && p.dataset == q.dataset == dataset && p.day < q.day
    ensures s'.files[p] == Encoded(c, OfPath(s'.log, p))
  {
    assert s.open.Some?;
    assert act.CrashMidWrite? ==> PathOf(act.stamped) != p;
    assert FileOk(c, s, p);
  }

  lemma MovesKeepInv(c: Codec, dataset: string, a: System, m: Move, b: System)
    requires Faithful(c) && SystemInv(c, dataset, a) && Moves(c, dataset, a, m, b)
    ensures SystemInv(c, dataset, b)
  {
    match m
    case WriterMove(act) =>
      WriterKeepsForward(c, dataset, a.store, act, b.store);
      WriterKeepsDays(c, dataset, a.store, act, b.store, a.tail);
      WriterKeepsTail(c, dataset, a, act, b);
    case ListDays(days) => ListKeepsInv(c, dataset, a, days, b);
    case ReadFile => ReadKeepsInv(c, dataset, a, b);
  }

  lemma {:induction false} RunKeepsSystemInv(c: Codec, dataset: string, from: nat, states: seq<System>, moves: seq<Move>, i: nat)
    requires Faithful(c) && IsSystemRun(c, dataset, from, states, moves) && i < |states|
    ensures SystemInv(c, dataset, states[i]) && states[i].tail.from == from
  {
    if i == 0 {
      var sys := states[0];
      assert forall d :: OfDataset([], d) == [];
      assert TailAt(c, OfDataset(sys.store.log, dataset), sys, 0);
    } else {
      RunKeepsSystemInv(c, dataset, from, states, moves, i - 1);
      MovesKeepInv(c, dataset, states[i - 1], moves[i - 1], states[i]);
    }
  }

  // ---------------------------------------------------------------- exactly once

  /** The committed records of a dataset a tail started at `from` is owed. */
  function Owed(log: seq<Record>, dataset: string, from: nat): seq<Record> {
    var rs := OfDataset(log, dataset);
    Since(rs, from, |rs|)
  }

  lemma SincePrefix(rs: seq<Record>, from: nat, m: nat)
    requires m <= |rs|
    ensures Since(rs, from, m) <= Since(rs, from, |rs|)
  {
    if from <= m { assert rs[from..|rs|][..m - from] == rs[from..m]; }
  }

  /** At every moment of every interleaving, what the tail has delivered is a prefix of the
      committed records above `from`, in order; nothing was skipped and no fragment delivered; and
      the offset stands on the end of a committed line. */
  lemma TailExactlyOnce(c: Codec, dataset: string, from: nat, states: seq<System>, moves: seq<Move>, i: nat)
    requires Faithful(c) && IsSystemRun(c, dataset, from, states, moves) && i < |states|
    ensures var sys := states[i];
            && sys.delivered <= Owed(sys.store.log, dataset, from)
            && sys.tail.skipped == 0
            && (Reading(sys.tail) ==>
                  exists j :: 0 <= j <= |DayRecords(OfDataset(sys.store.log, dataset), sys.tail.days[sys.tail.index])|
                    && sys.tail.offset == |Encoded(c, DayRecords(OfDataset(sys.store.log, dataset), sys.tail.days[sys.tail.index])[..j])|)
  {
    RunKeepsSystemInv(c, dataset, from, states, moves, i);
    var sys := states[i];
    var rs := OfDataset(sys.store.log, dataset);
    var j :| TailAt(c, rs, sys, j);
    var m := Behind(rs, sys.tail, j);
    SincePrefix(rs, from, m);
  }

  /** A poll the writer leaves alone drains everything: afterwards all that is owed is delivered. */
  lemma QuiescentPollDrains(c: Codec, dataset: string, from: nat, states: seq<System>, moves: seq<Move>, days: seq<int>)
    requires Faithful(c) && IsSystemRun(c, dataset, from, states, moves)
    requires ListsDays(states[|moves|].store.files, dataset, days)
    ensures var sys := states[|moves|];
            var out := ReadLoop(c, sys.store.files, dataset, Refreshed(sys.tail, days)).1;
            sys.delivered + out == Owed(sys.store.log, dataset, from)
  {
    var sys := states[|moves|];
    RunKeepsSystemInv(c, dataset, from, states, moves, |moves|);
    var listed := sys.(tail := Refreshed(sys.tail, days));
    ListKeepsInv(c, dataset, sys, days, listed);
    LoopDrains(c, dataset, listed, |listed.tail.days| - listed.tail.index);
  }

  lemma LoopUnfolds(c: Codec, files: Files, dataset: string, t: TailState)
    requires Reading(t)
    ensures var (t', out) := ReadStep(c, files, dataset, t);
            ReadLoop(c, files, dataset, t).1 ==
            if HasNextDay(t) then out + ReadLoop(c, files, dataset, t').1 else out
  {}

  /** Induct over the days left to read. */
  lemma {:induction false} LoopDrains(c: Codec, dataset: string, sys: System, left: nat)
    requires Faithful(c) && SystemInv(c, dataset, sys)
    requires ListsDays(sys.store.files, dataset, sys.tail.days)
    requires left == |sys.tail.days| - sys.tail.index
    ensures sys.delivered + ReadLoop(c, sys.store.files, dataset, sys.tail).1 ==
            Owed(sys.store.log, dataset, sys.tail.from)
    decreases left
  {
    var t := sys.tail;
    if !Reading(t) {
      NothingOwed(c, dataset, sys);
      assert sys.delivered + [] == sys.delivered;
    } else {
      LoopUnfolds(c, sys.store.files, dataset, t);
      var next := ReadStep(c, sys.store.files, dataset, t);
      ReadDelivers(c, dataset, sys);
      if HasNextDay(t) {
        var read := System(sys.store, next.0, sys.delivered + next.1);
        ReadToIsTailAt(c, dataset, sys, read);
        LoopDrains(c, dataset, read, left - 1);
        var rest := ReadLoop(c, sys.store.files, dataset, next.0).1;
        Regroup(sys.delivered, next.1, rest);
      } else {
        LastDayDrains(c, dataset, sys, next.0, sys.delivered + next.1);
      }
    }
  }

  lemma Regroup(a: seq<Record>, b: seq<Record>, c: seq<Record>)
    ensures a + (b + c) == (a + b) + c
  {}

  lemma NothingOwed(c: Codec, dataset: string, sys: System)
    requires SystemInv(c, dataset, sys) && ListsDays(sys.store.files, dataset, sys.tail.days) && !Reading(sys.tail)
    ensures sys.delivered == Owed(sys.store.log, dataset, sys.tail.from)
  {
    var rs := OfDataset(sys.store.log, dataset);
    if rs != [] {
      var first := rs[0];
      assert first in rs;
      RecordsHaveFiles(c, sys.store, dataset);
    }
  }

  /** When every day has its file listed, no record lies after the last listed day. */
  lemma NothingAfterLast(c: Codec, dataset: string, sys: System)
    requires SystemInv(c, dataset, sys) && ListsDays(sys.store.files, dataset, sys.tail.days) && sys.tail.days != []
    ensures forall r :: r in OfDataset(sys.store.log, dataset) ==> Day(r) <= sys.tail.days[|sys.tail.days| - 1]
  {
    RecordsHaveFiles(c, sys.store, dataset);
    forall r | r in OfDataset(sys.store.log, dataset) ensures Day(r) <= sys.tail.days[|sys.tail.days| - 1] {
      LastIsGreatest(sys.tail.days, Day(r));
    }
  }

  lemma LastIsGreatest(days: seq<int>, d: int)
    requires forall i, j :: 0 <= i < j < |days| ==> days[i] < days[j]
    requires d in days
    ensures d <= days[|days| - 1]
  {
    var k :| 0 <= k < |days| && days[k] == d;
  }

  lemma LastDayDrains(c: Codec, dataset: string, sys: System, t: TailState, delivered: seq<Record>)
    requires SystemInv(c, dataset, sys) && ListsDays(sys.store.files, dataset, sys.tail.days)
    requires Reading(sys.tail) && !HasNextDay(sys.tail)
    requires ReadTo(c, OfDataset(sys.store.log, dataset), sys.tail, t, delivered)
    ensures delivered == Owed(sys.store.log, dataset, sys.tail.from)
  {
    NothingAfterLast(c, dataset, sys);
    DaySlice(OfDataset(sys.store.log, dataset), sys.tail.days[sys.tail.index]);
  }
}
