/** The journal as a protocol (hub/journal.py): opens, appends to any day, closes, and crashes
    that may cut a write short, over a whole store.

    `log` is the history variable: every record whose line was completely written, in the order the
    writes completed. */
module Protocol {
  import opened Wrappers
  import opened Ordering
  import opened Records
  import opened Journal

  datatype Writer = Writer(seqs: map<string, nat>, fds: seq<Path>)

  datatype Store = Store(files: Files, open: Option<Writer>, log: seq<Record>)

  datatype Act =
    | OpenWriter
    | Append(stamped: Record)
    | CloseWriter
    | Crash                                   // the process dies between writes
    | CrashMidWrite(stamped: Record, n: nat)  // the process dies with n characters written

  const EMPTY_STORE := Store(map[], None, [])

  function InDataset(dataset: string): Record -> bool { (r: Record) => r.dataset == dataset }
  function OfDataset(log: seq<Record>, dataset: string): seq<Record> { Filter(log, InDataset(dataset)) }

  function AtPath(p: Path): Record -> bool { (r: Record) => PathOf(r) == p }
  function OfPath(log: seq<Record>, p: Path): seq<Record> { Filter(log, AtPath(p)) }

  /** The sequence number the writer gives the next record of `r`'s dataset is `r`'s. */
  ghost predicate StampedNext(c: Codec, s: Store, r: Record)
    requires s.open.Some?
  {
    && r.seqNo > 0
    && if r.dataset in s.open.value.seqs then r.seqNo - 1 == s.open.value.seqs[r.dataset]
       else IsTop(c, s.files, r.dataset, r.seqNo - 1)
  }

  /** The next state of the store for one act. */
  ghost predicate Next(c: Codec, s: Store, a: Act, s': Store) {
    match a
    case OpenWriter => s.open.None? && s' == Store(Repaired(s.files), Some(Writer(map[], [])), s.log)
    case Append(r) =>
      && s.open.Some? && StampedNext(c, s, r)
      && s' == Store(s.files[PathOf(r) := Content(s.files, PathOf(r)) + Line(c, r)],
                     Some(Writer(s.open.value.seqs[r.dataset := r.seqNo],
                                 FdsAfter(s.open.value.fds, PathOf(r)))),
                     s.log + [r])
    case CloseWriter => s.open.Some? && s' == s.(open := None)
    case Crash => s.open.Some? && s' == s.(open := None)
    case CrashMidWrite(r, n) =>
      && s.open.Some? && StampedNext(c, s, r) && n < |Line(c, r)|
      && s' == Store(s.files[PathOf(r) := Content(s.files, PathOf(r)) + Line(c, r)[..n]], None, s.log)
  }

  /** States linked by acts, from the empty store. */
  ghost predicate IsRun(c: Codec, states: seq<Store>, acts: seq<Act>) {
    && |states| == |acts| + 1 && states[0] == EMPTY_STORE
    && forall i :: 0 <= i < |acts| ==> Next(c, states[i], acts[i], states[i + 1])
  }

  /** A run goes on by any act its last state allows. */
  lemma RunGoesOn(c: Codec, states: seq<Store>, acts: seq<Act>, a: Act, s': Store)
    requires IsRun(c, states, acts) && Next(c, states[|acts|], a, s')
    ensures IsRun(c, states + [s'], acts + [a])
  {
    var after, all := states + [s'], acts + [a];
    forall i | 0 <= i < |all| ensures Next(c, after[i], all[i], after[i + 1]) {
      if i < |acts| { assert Next(c, states[i], acts[i], states[i + 1]); }
    }
  }

  // ---------------------------------------------------------------- the invariant

  /** Sequence numbers 1, 2, ..., n with no gap. */
  ghost predicate Numbered(rs: seq<Record>) { forall i :: 0 <= i < |rs| ==> rs[i].seqNo == i + 1 }

  /** A file is the committed lines of its own day, in order, plus at most one fragment while no
      writer is open. */
  ghost predicate FileOk(c: Codec, s: Store, p: Path)
    requires p in s.files
  {
    var committed := Encoded(c, OfPath(s.log, p));
    && |committed| <= |s.files[p]|
    && s.files[p] == committed + s.files[p][|committed|..]
    && NewlineFree(s.files[p][|committed|..])
    && (s.open.Some? ==> s.files[p] == committed)
  }

  ghost predicate WriterOk(s: Store, w: Writer) {
    && FdsOk(w.fds)
    && forall d :: d in w.seqs ==> w.seqs[d] == |OfDataset(s.log, d)|
  }

  ghost predicate Inv(c: Codec, s: Store) {
    && (forall p :: p in s.files ==> FileOk(c, s, p))
    && (forall r :: r in s.log ==> PathOf(r) in s.files)
    && (forall d :: Numbered(OfDataset(s.log, d)))
    && (s.open.Some? ==> WriterOk(s, s.open.value))
  }

  lemma DatasetSnoc(log: seq<Record>, r: Record, d: string)
    ensures OfDataset(log + [r], d) == if r.dataset == d then OfDataset(log, d) + [r] else OfDataset(log, d)
  {
    FilterConcat(log, [r], InDataset(d));
    assert OfDataset(log, d) + [] == OfDataset(log, d);
  }

  lemma PathSnoc(log: seq<Record>, r: Record, p: Path)
    ensures OfPath(log + [r], p) == if PathOf(r) == p then OfPath(log, p) + [r] else OfPath(log, p)
  {
    FilterConcat(log, [r], AtPath(p));
    assert OfPath(log, p) + [] == OfPath(log, p);
  }

  /** With a writer open, what is on disk at a path is exactly what was committed there. */
  lemma DiskIsLog(c: Codec, s: Store, p: Path)
    requires Faithful(c) && Inv(c, s) && s.open.Some? && p in s.files
    ensures ReadDayFile(c, s.files[p]) == Ok(OfPath(s.log, p))
  {
    assert FileOk(c, s, p);
    ReadDayFileReads(c, OfPath(s.log, p), "");
    assert Encoded(c, OfPath(s.log, p)) + "" == s.files[p];
  }

  lemma CommittedIsOnDisk(c: Codec, s: Store, r: Record)
    requires Faithful(c) && Inv(c, s) && s.open.Some?
    ensures r in s.log <==> PathOf(r) in s.files && OnDisk(c, s.files, PathOf(r), r)
  {
    FilterMember(s.log, AtPath(PathOf(r)), r);
    if PathOf(r) in s.files { DiskIsLog(c, s, PathOf(r)); }
  }

  /** Resuming from disk numbers above every committed record: the top is their count. */
  lemma ResumedTopIsCount(c: Codec, s: Store, d: string, top: nat)
    requires Faithful(c) && Inv(c, s) && s.open.Some? && IsTop(c, s.files, d, top)
    ensures top == |OfDataset(s.log, d)|
  {
    var own := OfDataset(s.log, d);
    assert Numbered(own);
    if own != [] {
      var last := own[|own| - 1];
      FilterMember(s.log, InDataset(d), last);
      CommittedIsOnDisk(c, s, last);
      assert last.seqNo <= top;
    }
    if top != 0 {
      var p, r :| p in s.files && p.dataset == d && OnDisk(c, s.files, p, r) && r.seqNo == top;
      DiskIsLog(c, s, p);
      FilterMember(s.log, AtPath(p), r);
      FilterMember(s.log, InDataset(d), r);
      var i :| 0 <= i < |own| && own[i] == r;
    }
  }

  lemma NextNumber(c: Codec, s: Store, r: Record)
    requires Faithful(c) && Inv(c, s) && s.open.Some? && StampedNext(c, s, r)
    ensures r.seqNo == |OfDataset(s.log, r.dataset)| + 1
  {
    if r.dataset !in s.open.value.seqs { ResumedTopIsCount(c, s, r.dataset, r.seqNo - 1); }
  }

  // ---------------------------------------------------------------- preservation

  lemma OpenKeepsInv(c: Codec, s: Store, s': Store)
    requires Inv(c, s) && Next(c, s, OpenWriter, s')
    ensures Inv(c, s')
  {
    forall p | p in s'.files ensures FileOk(c, s', p) {
      assert FileOk(c, s, p);
      var committed := Encoded(c, OfPath(s.log, p));
      CompletePart(c, OfPath(s.log, p), s.files[p][|committed|..]);
      assert s'.files[p] == committed;
      assert committed + committed[|committed|..] == committed;
    }
  }

  lemma AppendKeepsInv(c: Codec, s: Store, r: Record, s': Store)
    requires Faithful(c) && Inv(c, s) && Next(c, s, Append(r), s')
    ensures Inv(c, s')
  {
    NextNumber(c, s, r);
    forall p | p in s'.files ensures FileOk(c, s', p) { AppendKeepsFile(c, s, r, s', p); }
    forall d
      ensures Numbered(OfDataset(s'.log, d))
      ensures d in s'.open.value.seqs ==> s'.open.value.seqs[d] == |OfDataset(s'.log, d)|
    {
      AppendKeepsNumbers(c, s, r, s', d);
    }
    FdsStayBounded(s.open.value.fds, PathOf(r));
  }

  lemma AppendKeepsNumbers(c: Codec, s: Store, r: Record, s': Store, d: string)
    requires Inv(c, s) && Next(c, s, Append(r), s') && r.seqNo == |OfDataset(s.log, r.dataset)| + 1
    ensures Numbered(OfDataset(s'.log, d))
    ensures d in s'.open.value.seqs ==> s'.open.value.seqs[d] == |OfDataset(s'.log, d)|
  {
    DatasetSnoc(s.log, r, d);
    assert Numbered(OfDataset(s.log, d));
  }

  lemma AppendKeepsFile(c: Codec, s: Store, r: Record, s': Store, p: Path)
    requires Faithful(c) && Inv(c, s) && Next(c, s, Append(r), s') && p in s'.files
    ensures FileOk(c, s', p)
  {
    PathSnoc(s.log, r, p);
    if p in s.files {
      assert FileOk(c, s, p);
    } else {
      NothingCommitted(c, s, p);
    }
    if p == PathOf(r) {
      EncodedConcat(c, OfPath(s.log, p), [r]);
      EncodedOne(c, r);
    }
    var committed := Encoded(c, OfPath(s'.log, p));
    assert s'.files[p] == committed;
    assert committed == committed + committed[|committed|..];
  }

  lemma NothingCommitted(c: Codec, s: Store, p: Path)
    requires Inv(c, s) && p !in s.files
    ensures OfPath(s.log, p) == [] && Encoded(c, OfPath(s.log, p)) == ""
  {
    FilterNone(s.log, AtPath(p));
  }

  lemma CrashKeepsInv(c: Codec, s: Store, r: Record, n: nat, s': Store)
    requires Faithful(c) && Inv(c, s) && Next(c, s, CrashMidWrite(r, n), s')
    ensures Inv(c, s')
  {
    forall p | p in s'.files ensures FileOk(c, s', p) {
      if p in s.files { assert FileOk(c, s, p); } else { NothingCommitted(c, s, p); }
      if p == PathOf(r) {
        var committed := Encoded(c, OfPath(s.log, p));
        assert Content(s.files, p) == committed;
        assert s'.files[p][|committed|..] == Line(c, r)[..n];
        assert NewlineFree(c.enc(r));
      }
    }
  }

  lemma NextKeepsInv(c: Codec, s: Store, a: Act, s': Store)
    requires Faithful(c) && Inv(c, s) && Next(c, s, a, s')
    ensures Inv(c, s')
  {
    match a
    case OpenWriter => OpenKeepsInv(c, s, s');
    case Append(r) => AppendKeepsInv(c, s, r, s');
    case CrashMidWrite(r, n) => CrashKeepsInv(c, s, r, n, s');
    case _ => forall p | p in s'.files ensures FileOk(c, s', p) { assert FileOk(c, s, p); }
  }

  lemma {:induction false} RunKeepsInv(c: Codec, states: seq<Store>, acts: seq<Act>, i: nat)
    requires Faithful(c) && IsRun(c, states, acts) && i < |states|
    ensures Inv(c, states[i])
  {
    if i == 0 {
      forall d ensures Numbered(OfDataset([], d)) {}
    } else {
      RunKeepsInv(c, states, acts, i - 1);
      NextKeepsInv(c, states[i - 1], acts[i - 1], states[i]);
    }
  }

  // ---------------------------------------------------------------- sequence integrity

  /** Over every run from an empty store: a dataset's committed records carry exactly the sequence
      numbers 1..n, each line stands in the file of its own day and no file holds any other
      committed line, and at most 128 descriptors are open. */
  lemma SequenceIntegrity(c: Codec, states: seq<Store>, acts: seq<Act>, i: nat)
    requires Faithful(c) && IsRun(c, states, acts) && i < |states|
    ensures var s := states[i];
            && (forall d :: Numbered(OfDataset(s.log, d)))
            && (s.open.Some? ==> |s.open.value.fds| <= 128)
            && (s.open.Some? ==> forall p :: p in s.files ==> ReadDayFile(c, s.files[p]) == Ok(OfPath(s.log, p)))
            && (forall r :: r in s.log ==> PathOf(r) in s.files)
  {
    RunKeepsInv(c, states, acts, i);
    var s := states[i];
    if s.open.Some? {
      forall p | p in s.files ensures ReadDayFile(c, s.files[p]) == Ok(OfPath(s.log, p)) { DiskIsLog(c, s, p); }
    }
  }

  /** A crash never loses a committed record and repair never invents one: opening after any run
      reads back exactly the log. */
  lemma RepairRestoresLog(c: Codec, states: seq<Store>, acts: seq<Act>, s': Store, p: Path)
    requires Faithful(c) && IsRun(c, states, acts)
    requires Next(c, states[|states| - 1], OpenWriter, s') && p in s'.files
    ensures ReadDayFile(c, s'.files[p]) == Ok(OfPath(states[|states| - 1].log, p))
  {
    RunKeepsInv(c, states, acts, |states| - 1);
    OpenKeepsInv(c, states[|states| - 1], s');
    DiskIsLog(c, s', p);
  }

  /** Between a crash and the repair, a strict historical read of the torn file fails or, when only
      the newline was lost, delivers a record the writer never committed. */
  lemma TornFileReads(c: Codec, s: Store, p: Path)
    requires Faithful(c) && Inv(c, s) && p in s.files
    ensures var committed := OfPath(s.log, p);
            var fragment := s.files[p][|Encoded(c, committed)|..];
            ReadDayFile(c, s.files[p]) ==
            if fragment == "" then Ok(committed)
            else match c.dec(fragment) { case None => Err(MalformedRecord) case Some(r) => Ok(committed + [r]) }
  {
    assert FileOk(c, s, p);
    ReadDayFileReads(c, OfPath(s.log, p), s.files[p][|Encoded(c, OfPath(s.log, p))|..]);
  }

  /** After any run, a crash that loses only the newline of a line leaves a file that a strict read takes
      for one record more than was committed. */
  lemma LostNewlineReads(c: Codec, states: seq<Store>, acts: seq<Act>, r: Record, s': Store)
    requires Faithful(c) && IsRun(c, states, acts)
    requires Next(c, states[|states| - 1], CrashMidWrite(r, |Line(c, r)| - 1), s')
    ensures s'.log == states[|states| - 1].log && PathOf(r) in s'.files
    ensures ReadDayFile(c, s'.files[PathOf(r)]) == Ok(OfPath(s'.log, PathOf(r)) + [r])
  {
    var s, p := states[|states| - 1], PathOf(r);
    RunKeepsInv(c, states, acts, |states| - 1);
    assert Line(c, r)[..|Line(c, r)| - 1] == c.enc(r);
    if p in s.files {
      assert FileOk(c, s, p);
    } else {
      NothingCommitted(c, s, p);
    }
    ReadDayFileReads(c, OfPath(s.log, p), c.enc(r));
  }

  // ---------------------------------------------------------------- the writer class takes these steps

  /** The store a disk and its writer make up. */
  ghost function StoreOf(w: JournalWriter, log: seq<Record>): Store
    reads w, w.disk
  {
    Store(w.disk.files, if w.closed then None else Some(Writer(w.seqs, w.fds)), log)
  }

  /** A successful append of the writer is an `Append` step. */
  method AppendIsAStep(w: JournalWriter, record: Record, ghost log: seq<Record>)
    returns (r: Result<Record, WriteError>)
    requires w as object != w.disk && Faithful(w.codec)
    requires Inv(w.codec, StoreOf(w, log))
    modifies w, w.disk`files
    ensures r.Ok? <==> !old(w.closed)
    ensures r.Ok? ==> Next(w.codec, old(StoreOf(w, log)), Append(r.value), StoreOf(w, log + [r.value]))
    ensures r.Ok? ==> Inv(w.codec, StoreOf(w, log + [r.value]))
  {
    ghost var s := StoreOf(w, log);
    if !w.closed {
      forall p | p in w.disk.files && p.dataset == record.dataset
        ensures ReadDayFile(w.codec, w.disk.files[p]).Ok?
      {
        DiskIsLog(w.codec, s, p);
      }
    }
    r := w.Append(record);
    if r.Ok? { AppendKeepsInv(w.codec, s, r.value, StoreOf(w, log + [r.value])); }
  }

  /** Opening over whatever a crash left is an `OpenWriter` step. */
  method OpenIsAStep(codec: Codec, disk: Disk, ghost s: Store) returns (r: Result<JournalWriter, WriteError>)
    requires Faithful(codec) && Inv(codec, s) && s.open.None? && s.files == disk.files && !disk.locked
    modifies disk
    ensures r.Ok? && fresh(r.value) && r.value.disk == disk && r.value.codec == codec
    ensures Next(codec, s, OpenWriter, StoreOf(r.value, s.log)) && Inv(codec, StoreOf(r.value, s.log))
  {
    r := JournalWriter.Open(codec, disk);
    OpenKeepsInv(codec, s, StoreOf(r.value, s.log));
  }
}
