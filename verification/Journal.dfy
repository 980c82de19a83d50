/** The journal: day files, their single writer, and reading them back (hub/journal.py,
    hubread/journal.py).

    A file is its text.  One record is one line; `Codec` is the line format, of which only its
    being invertible and newline-free matters.  A write that a crash cuts short leaves a proper
    prefix of the line: never its newline. */
module Journal {
  import opened Wrappers
  import opened Ordering
  import opened Decimals
  import opened Records

  datatype Codec = Codec(enc: Record -> string, dec: string -> Option<Record>)

  ghost predicate NewlineFree(s: string) { forall i :: 0 <= i < |s| ==> s[i] != '\n' }

  /** A line format: every record has one non-empty line that reads back as that record. */
  ghost predicate Faithful(c: Codec) {
    forall r :: c.enc(r) != "" && NewlineFree(c.enc(r)) && c.dec(c.enc(r)) == Some(r)
  }

  const DAY_MS := 86_400_000

  /** The UTC calendar day of an epoch-ms instant; day names sort as these numbers do. */
  function DayOf(t: int): int { t / DAY_MS }

  datatype Path = Path(dataset: string, day: int)

  function PathOf(r: Record): Path { Path(r.dataset, DayOf(r.knownAt)) }

  type Files = map<Path, string>

  function Content(files: Files, p: Path): string { if p in files then files[p] else "" }

  // ---------------------------------------------------------------- lines

  function Line(c: Codec, r: Record): string { c.enc(r) + "\n" }

  function Encoded(c: Codec, rs: seq<Record>): string {
    if rs == [] then "" else Line(c, rs[0]) + Encoded(c, rs[1..])
  }

  /** `text.split("\n")`. */
  function Pieces(s: string): seq<string> {
    var i := IndexOf(s, '\n', '\n');
    if i == |s| then [s] else [s[..i]] + Pieces(s[i + 1..])
  }

  /** `rfind("\n") + 1`: how much of a text is complete lines. */
  function CompleteLength(s: string): (n: nat)
    ensures n <= |s|
    ensures n == 0 || s[n - 1] == '\n'
    ensures forall i :: n <= i < |s| ==> s[i] != '\n'
  {
    if s == "" then 0
    else if s[|s| - 1] == '\n' then |s|
    else CompleteLength(s[..|s| - 1])
  }

  datatype ReadError = MalformedRecord

  /** Decode each non-empty piece, in order; the first that is not a record stops the read. */
  function DecodeStrict(c: Codec, pieces: seq<string>): Result<seq<Record>, ReadError> {
    if pieces == [] then Ok([])
    else if pieces[0] == "" then DecodeStrict(c, pieces[1..])
    else if c.dec(pieces[0]).None? then Err(MalformedRecord)
    else
      var rest :- DecodeStrict(c, pieces[1..]);
      Ok([c.dec(pieces[0]).value] + rest)
  }

  /** `read_day_file` on a file's text: every piece counts, a last one without newline included. */
  function ReadDayFile(c: Codec, text: string): Result<seq<Record>, ReadError> {
    DecodeStrict(c, Pieces(text))
  }

  lemma {:induction false} EncodedConcat(c: Codec, a: seq<Record>, b: seq<Record>)
    ensures Encoded(c, a + b) == Encoded(c, a) + Encoded(c, b)
  {
    if a == [] {
      assert a + b == b;
    } else {
      assert (a + b)[1..] == a[1..] + b;
      EncodedConcat(c, a[1..], b);
    }
  }

  lemma EncodedOne(c: Codec, r: Record)
    ensures Encoded(c, [r]) == Line(c, r)
  {
    assert [r][1..] == [];
    assert Line(c, r) + "" == Line(c, r);
  }

  function LineTexts(c: Codec, rs: seq<Record>): seq<string> {
    if rs == [] then [] else [c.enc(rs[0])] + LineTexts(c, rs[1..])
  }

  /** Committed lines followed by a fragment split into exactly those lines and the fragment. */
  lemma {:induction false} PiecesOfEncoded(c: Codec, rs: seq<Record>, fragment: string)
    requires Faithful(c) && NewlineFree(fragment)
    ensures Pieces(Encoded(c, rs) + fragment) == LineTexts(c, rs) + [fragment]
  {
    if rs == [] {
      assert "" + fragment == fragment;
      IndexOfAbsent(fragment, '\n', '\n');
    } else {
      var line := c.enc(rs[0]);
      var rest := Encoded(c, rs[1..]) + fragment;
      var s := Encoded(c, rs) + fragment;
      assert s == line + ['\n'] + rest;
      IndexOfAt(line, '\n', rest);
      assert s[..|line|] == line && s[|line| + 1..] == rest;
      PiecesOfEncoded(c, rs[1..], fragment);
    }
  }

  lemma {:induction false} DecodeLines(c: Codec, rs: seq<Record>, rest: seq<string>)
    requires Faithful(c)
    ensures DecodeStrict(c, LineTexts(c, rs) + rest) ==
            match DecodeStrict(c, rest) { case Ok(more) => Ok(rs + more) case Err(e) => Err(e) }
  {
    if rs == [] {
      assert LineTexts(c, rs) + rest == rest;
      match DecodeStrict(c, rest) { case Ok(more) => assert rs + more == more; case Err(_) => }
    } else {
      assert (LineTexts(c, rs) + rest)[1..] == LineTexts(c, rs[1..]) + rest;
      DecodeLines(c, rs[1..], rest);
      match DecodeStrict(c, rest) {
        case Ok(more) => assert [rs[0]] + (rs[1..] + more) == rs + more;
        case Err(_) =>
      }
    }
  }

  /** What the strict reader makes of committed lines and a fragment: the lines alone when there is
      no fragment; otherwise a failure, or, when the crash took only the newline, one record that
      was never committed. */
  lemma ReadDayFileReads(c: Codec, rs: seq<Record>, fragment: string)
    requires Faithful(c) && NewlineFree(fragment)
    ensures ReadDayFile(c, Encoded(c, rs) + fragment) ==
            if fragment == "" then Ok(rs)
            else match c.dec(fragment) { case None => Err(MalformedRecord) case Some(r) => Ok(rs + [r]) }
  {
    PiecesOfEncoded(c, rs, fragment);
    DecodeLines(c, rs, [fragment]);
    assert [fragment][1..] == [];
    assert DecodeStrict(c, [fragment][1..]) == Ok([]);
    assert rs + [] == rs;
    if fragment != "" && c.dec(fragment).Some? {
      assert [c.dec(fragment).value] + [] == [c.dec(fragment).value];
    }
  }

  lemma {:induction false} CompletePart(c: Codec, rs: seq<Record>, fragment: string)
    requires NewlineFree(fragment)
    ensures CompleteLength(Encoded(c, rs) + fragment) == |Encoded(c, rs)|
    decreases |fragment|
  {
    var s := Encoded(c, rs) + fragment;
    if fragment == "" {
      assert s == Encoded(c, rs);
      if rs != [] { EncodedEndsInNewline(c, rs); }
    } else {
      assert s[|s| - 1] == fragment[|fragment| - 1];
      assert s[..|s| - 1] == Encoded(c, rs) + fragment[..|fragment| - 1];
      CompletePart(c, rs, fragment[..|fragment| - 1]);
    }
  }

  lemma {:induction false} EncodedEndsInNewline(c: Codec, rs: seq<Record>)
    requires rs != []
    ensures Encoded(c, rs) != "" && Encoded(c, rs)[|Encoded(c, rs)| - 1] == '\n'
  {
    if |rs| > 1 {
      EncodedEndsInNewline(c, rs[1..]);
    } else {
      assert rs[1..] == [];
    }
  }

  // ---------------------------------------------------------------- the disk

  datatype Discarded = Discarded(path: Path, offset: nat, text: string)

  class Disk {
    var files: Files
    var locked: bool
    var quarantine: seq<Discarded>

    constructor ()
      ensures files == map[] && !locked && quarantine == []
    {
      files, locked, quarantine := map[], false, [];
    }
  }

  /** Every file cut back to its last complete line. */
  function Repaired(files: Files): Files {
    map p | p in files :: files[p][..CompleteLength(files[p])]
  }

  /** The day files of one dataset, oldest first: `list_day_files`. */
  ghost predicate ListsDays(files: Files, dataset: string, days: seq<int>) {
    && (forall i, j :: 0 <= i < j < |days| ==> days[i] < days[j])
    && (forall d :: d in days <==> Path(dataset, d) in files)
  }

  method ListDayFiles(files: Files, dataset: string) returns (days: seq<int>)
    ensures ListsDays(files, dataset, days)
  {
    var rest := set p | p in files && p.dataset == dataset :: p.day;
    ghost var all := rest;
    days := [];
    while rest != {}
      invariant forall i, j :: 0 <= i < j < |days| ==> days[i] < days[j]
      invariant forall d :: d in days <==> d in all && d !in rest
      invariant rest <= all
      invariant forall i, d :: 0 <= i < |days| && d in rest ==> days[i] < d
      decreases rest
    {
      var least := LeastDay(rest);
      days := days + [least];
      rest := rest - {least};
    }
    forall d ensures d in days <==> Path(dataset, d) in files {
      assert d in all <==> Path(dataset, d) in files by {
        if Path(dataset, d) in files { assert Path(dataset, d).day == d; }
      }
    }
  }

  method LeastDay(days: set<int>) returns (least: int)
    requires days != {}
    ensures least in days && forall d :: d in days ==> least <= d
  {
    SomeNumber(days);
    least :| least in days;
    var rest := days - {least};
    while rest != {}
      invariant least in days && rest <= days
      invariant forall d :: d in days && d !in rest ==> least <= d
      decreases rest
    {
      SomeNumber(rest);
      var d :| d in rest;
      if d < least { least := d; }
      rest := rest - {d};
    }
  }

  // ---------------------------------------------------------------- the descriptor cache

  const MAX_OPEN_JOURNAL_FDS := 128

  /** Least recently used first; using a file moves it to the end, opening a new one may evict. */
  function FdsAfter(fds: seq<Path>, p: Path): seq<Path> {
    if p in fds then Without(fds, p) + [p]
    else (if |fds| >= MAX_OPEN_JOURNAL_FDS then fds[1..] else fds) + [p]
  }

  function Without(fds: seq<Path>, p: Path): seq<Path> {
    if fds == [] then [] else if fds[0] == p then fds[1..] else [fds[0]] + Without(fds[1..], p)
  }

  predicate FdsOk(fds: seq<Path>) {
    |fds| <= MAX_OPEN_JOURNAL_FDS && forall i, j :: 0 <= i < j < |fds| ==> fds[i] != fds[j]
  }

  lemma {:induction false} WithoutDrops(fds: seq<Path>, p: Path)
    requires forall i, j :: 0 <= i < j < |fds| ==> fds[i] != fds[j]
    ensures var r := Without(fds, p);
            && (forall i, j :: 0 <= i < j < |r| ==> r[i] != r[j])
            && (forall q :: q in r <==> q in fds && q != p)
            && |r| == if p in fds then |fds| - 1 else |fds|
  {
    if fds == [] {
    } else {
      WithoutDrops(fds[1..], p);
      assert fds == [fds[0]] + fds[1..];
      if fds[0] != p {
        var rest := Without(fds[1..], p);
        forall j | 0 <= j < |rest| ensures rest[j] != fds[0] { assert rest[j] in rest; }
      }
    }
  }

  /** The cache never holds more than 128 descriptors nor one file twice, and the file just asked
      for is open and the most recently used. */
  lemma FdsStayBounded(fds: seq<Path>, p: Path)
    requires FdsOk(fds)
    ensures FdsOk(FdsAfter(fds, p))
    ensures FdsAfter(fds, p)[|FdsAfter(fds, p)| - 1] == p
    ensures forall q :: q in FdsAfter(fds, p) ==> q in fds || q == p
    ensures forall q :: q in fds && q !in FdsAfter(fds, p) ==>
      |fds| == MAX_OPEN_JOURNAL_FDS && p !in fds && q == fds[0]
  {
    WithoutDrops(fds, p);
  }

  // ---------------------------------------------------------------- the highest sequence number

  /** `top` is the highest sequence number on disk for a dataset, 0 when there is none. */
  ghost predicate IsTop(c: Codec, files: Files, dataset: string, top: nat) {
    && (forall p, r :: p in files && p.dataset == dataset && OnDisk(c, files, p, r) ==> r.seqNo <= top)
    && (top == 0 || exists p, r :: p in files && p.dataset == dataset && OnDisk(c, files, p, r) && r.seqNo == top)
  }

  ghost predicate OnDisk(c: Codec, files: Files, p: Path, r: Record)
    requires p in files
  {
    ReadDayFile(c, files[p]).Ok? && r in ReadDayFile(c, files[p]).value
  }

  ghost predicate Readable(c: Codec, files: Files, dataset: string) {
    forall p :: p in files && p.dataset == dataset ==> ReadDayFile(c, files[p]).Ok?
  }

  datatype WriteError = WriterClosed | LockHeld | CannotResume

  // ---------------------------------------------------------------- the writer

  class JournalWriter {
    const codec: Codec
    const disk: Disk
    var seqs: map<string, nat>      // last sequence number given out, per dataset
    var fds: seq<Path>              // open descriptors, least recently used first
    var closed: bool

    constructor (codec: Codec, disk: Disk)
      ensures this.codec == codec && this.disk == disk
      ensures seqs == map[] && fds == [] && !closed
    {
      this.codec, this.disk := codec, disk;
      seqs, fds, closed := map[], [], false;
    }

    /** Open the journal: refuse a held lock, else take it and repair every torn tail, moving what
        is cut off to quarantine. */
    static method Open(codec: Codec, disk: Disk) returns (r: Result<JournalWriter, WriteError>)
      modifies disk
      ensures old(disk.locked) ==> r == Err(LockHeld) && disk.files == old(disk.files) && disk.locked
      ensures !old(disk.locked) ==>
        && r.Ok? && fresh(r.value) && r.value.codec == codec && r.value.disk == disk
        && r.value.seqs == map[] && r.value.fds == [] && !r.value.closed
        && disk.locked && disk.files == Repaired(old(disk.files))
        && forall p :: p in old(disk.files) && disk.files[p] != old(disk.files)[p] ==>
             Quarantined(disk.quarantine, old(disk.files), disk.files, p)
    {
      if disk.locked { return Err(LockHeld); }
      disk.locked := true;
      RepairTornTails(disk);
      var w := new JournalWriter(codec, disk);
      return Ok(w);
    }

    static method RepairTornTails(disk: Disk)
      modifies disk`files, disk`quarantine
      ensures disk.files == Repaired(old(disk.files))
      ensures forall p :: p in old(disk.files) && disk.files[p] != old(disk.files)[p] ==>
        Quarantined(disk.quarantine, old(disk.files), disk.files, p)
    {
      var before := disk.files;
      var todo := before.Keys;
      while todo != {}
        invariant todo <= before.Keys && disk.files.Keys == before.Keys
        invariant forall p :: p in before ==>
          disk.files[p] == if p in todo then before[p] else Repaired(before)[p]
        invariant forall p :: p in before && disk.files[p] != before[p] ==> Quarantined(disk.quarantine, before, disk.files, p)
        decreases todo
      {
        var p :| p in todo;
        RepairTail(disk, p);
        todo := todo - {p};
      }
    }

    ghost static predicate Quarantined(quarantine: seq<Discarded>, before: Files, now: Files, p: Path)
      requires p in before && p in now
    {
      exists q :: q in quarantine && q.path == p && q.offset == |now[p]| && now[p] + q.text == before[p]
    }

    /** Truncate one file to its last complete line, quarantining the fragment. */
    static method RepairTail(disk: Disk, p: Path)
      requires p in disk.files
      modifies disk`files, disk`quarantine
      ensures disk.files == old(disk.files)[p := old(disk.files)[p][..CompleteLength(old(disk.files)[p])]]
      ensures forall q :: q in old(disk.quarantine) ==> q in disk.quarantine
      ensures disk.files[p] != old(disk.files)[p] ==> Quarantined(disk.quarantine, old(disk.files), disk.files, p)
    {
      var data := disk.files[p];
      var goodEnd := CompleteLength(data);
      if data == "" || data[|data| - 1] == '\n' {
        assert data[..goodEnd] == data;
        return;
      }
      var fragment := Discarded(p, goodEnd, data[goodEnd..]);
      disk.files := disk.files[p := data[..goodEnd]];
      disk.quarantine := disk.quarantine + [fragment];
      assert fragment in disk.quarantine && data == data[..goodEnd] + data[goodEnd..];
    }

    /** The highest sequence number of one file, folded into `top`. */
    static method TopOfFile(codec: Codec, text: string, start: nat) returns (top: Result<nat, WriteError>)
      ensures top.Ok? <==> ReadDayFile(codec, text).Ok?
      ensures top.Ok? ==>
        && start <= top.value
        && (forall r :: r in ReadDayFile(codec, text).value ==> r.seqNo <= top.value)
        && (top.value == start || exists r :: r in ReadDayFile(codec, text).value && r.seqNo == top.value)
    {
      var read := ReadDayFile(codec, text);
      if read.Err? { return Err(CannotResume); }
      var rs := read.value;
      var best := start;
      for i := 0 to |rs|
        invariant start <= best
        invariant forall r :: r in rs[..i] ==> r.seqNo <= best
        invariant best == start || exists r :: r in rs[..i] && r.seqNo == best
      {
        assert rs[..i + 1] == rs[..i] + [rs[i]];
        if rs[i].seqNo > best { best := rs[i].seqNo; }
      }
      assert rs[..|rs|] == rs;
      return Ok(best);
    }

    /** The highest sequence number already on disk, over every line of every day file. */
    method ResumeSeq(dataset: string) returns (top: Result<nat, WriteError>)
      ensures top.Ok? <==> Readable(codec, disk.files, dataset)
      ensures top.Ok? ==> IsTop(codec, disk.files, dataset, top.value)
    {
      var files := disk.files;
      var days := ListDayFiles(files, dataset);
      var best: nat := 0;
      for i := 0 to |days|
        invariant forall j :: 0 <= j < i ==> ReadDayFile(codec, files[Path(dataset, days[j])]).Ok?
        invariant forall j, r :: 0 <= j < i && OnDisk(codec, files, Path(dataset, days[j]), r) ==> r.seqNo <= best
        invariant best == 0 || exists j, r :: 0 <= j < i && OnDisk(codec, files, Path(dataset, days[j]), r) && r.seqNo == best
      {
        var p := Path(dataset, days[i]);
        var next := TopOfFile(codec, files[p], best);
        if next.Err? { return Err(CannotResume); }
        if next.value != best {
          ghost var r :| r in ReadDayFile(codec, files[p]).value && r.seqNo == next.value;
          assert OnDisk(codec, files, Path(dataset, days[i]), r);
        }
        best := next.value;
      }
      forall p | p in files && p.dataset == dataset
        ensures ReadDayFile(codec, files[p]).Ok? && forall r :: OnDisk(codec, files, p, r) ==> r.seqNo <= best
      {
        assert p == Path(dataset, p.day) && p.day in days;
      }
      return Ok(best);
    }

    /** Stamp a record with the next sequence number and append its line. */
    method Append(record: Record) returns (r: Result<Record, WriteError>)
      requires this as object != disk
      modifies this, disk`files
      ensures closed == old(closed)
      ensures old(closed) ==> r == Err(WriterClosed)
      ensures r.Err? ==> disk.files == old(disk.files)
      ensures !old(closed) && (record.dataset in old(seqs) || Readable(codec, old(disk.files), record.dataset)) ==> r.Ok?
      ensures r.Ok? ==>
        && r.value == record.(seqNo := r.value.seqNo) && r.value.seqNo > 0
        && (if record.dataset in old(seqs) then r.value.seqNo - 1 == old(seqs)[record.dataset]
            else IsTop(codec, old(disk.files), record.dataset, r.value.seqNo - 1))
        && disk.files == old(disk.files)[PathOf(record) := Content(old(disk.files), PathOf(record)) + Line(codec, r.value)]
        && seqs == old(seqs)[record.dataset := r.value.seqNo]
        && fds == FdsAfter(old(fds), PathOf(record))
    {
      if closed { return Err(WriterClosed); }
      if record.dataset !in seqs {
        var top := ResumeSeq(record.dataset);
        if top.Err? { return Err(top.error); }
        seqs := seqs[record.dataset := top.value];
      }
      var seqNo := seqs[record.dataset] + 1;
      var stamped := record.(seqNo := seqNo);
      FdFor(PathOf(stamped));
      disk.files := disk.files[PathOf(stamped) := Content(disk.files, PathOf(stamped)) + Line(codec, stamped)];
      seqs := seqs[record.dataset := seqNo];
      return Ok(stamped);
    }

    method FdFor(p: Path)
      modifies this`fds
      ensures fds == FdsAfter(old(fds), p)
    {
      if p in fds {
        fds := Without(fds, p) + [p];
        return;
      }
      if |fds| >= MAX_OPEN_JOURNAL_FDS { fds := fds[1..]; }
      fds := fds + [p];
    }

    /** Safe to call twice. */
    method Close()
      requires this as object != disk
      modifies this, disk`locked
      ensures closed && (!old(closed) ==> fds == [] && !disk.locked)
      ensures old(closed) ==> disk.locked == old(disk.locked)
    {
      if closed { return; }
      fds := [];
      disk.locked := false;
      closed := true;
    }
  }
}
