/** Following a journal as it grows (hubread/journal.py, `JournalTail`).

    A poll lists the day files and then reads them one after another by byte offset.  The writer
    may act between any two of those steps, so the system interleaves writer acts with single
    tail steps: one listing, or one file read. */
module Tail {
  import opened Records
  import opened Journal

  datatype TailState = TailState(from: nat, days: seq<int>, index: int, offset: nat, lastSeq: nat, skipped: nat)

  function Started(from: nat): TailState { TailState(from, [], -1, 0, from, 0) }

  datatype Drained = Drained(out: seq<Record>, lastSeq: nat, skipped: nat)

  /** Deliver the records among some lines that the tail has not seen, counting bad lines. */
  function DecodeLenient(c: Codec, pieces: seq<string>, lastSeq: nat): Drained {
    if pieces == [] then Drained([], lastSeq, 0)
    else if pieces[0] == "" then DecodeLenient(c, pieces[1..], lastSeq)
    else match c.dec(pieces[0])
      case None =>
        var rest := DecodeLenient(c, pieces[1..], lastSeq);
        rest.(skipped := rest.skipped + 1)
      case Some(r) =>
        if r.seqNo <= lastSeq then DecodeLenient(c, pieces[1..], lastSeq)
        else
          var rest := DecodeLenient(c, pieces[1..], r.seqNo);
          rest.(out := [r] + rest.out)
  }

  function Unread(text: string, offset: nat): string {
    if offset <= |text| then text[offset..] else ""
  }

  predicate Reading(t: TailState) { 0 <= t.index < |t.days| }

  predicate HasNextDay(t: TailState) { t.index + 1 < |t.days| }

  /** Read the current day file from the offset; move on when a later day file is known. */
  function ReadStep(c: Codec, files: Files, dataset: string, t: TailState): (TailState, seq<Record>)
    requires Reading(t)
  {
    var chunk := Unread(Content(files, Path(dataset, t.days[t.index])), t.offset);
    var n := CompleteLength(chunk);
    var got := DecodeLenient(c, Pieces(chunk[..n]), t.lastSeq);
    var read := t.(offset := t.offset + n, lastSeq := got.lastSeq, skipped := t.skipped + got.skipped);
    if HasNextDay(t)
    then (read.(skipped := read.skipped + if n < |chunk| then 1 else 0, index := t.index + 1, offset := 0), got.out)
    else (read, got.out)
  }

  function Refreshed(t: TailState, days: seq<int>): TailState {
    if days == t.days then t
    else t.(days := days, index := if t.index == -1 && days != [] then 0 else t.index)
  }

  /** The reads of one poll over files that do not change meanwhile. */
  function ReadLoop(c: Codec, files: Files, dataset: string, t: TailState): (TailState, seq<Record>)
    decreases |t.days| - t.index
  {
    if !Reading(t) then (t, [])
    else
      var (t', out) := ReadStep(c, files, dataset, t);
      if !HasNextDay(t) then (t', out)
      else
        var (t'', more) := ReadLoop(c, files, dataset, t');
        (t'', out + more)
  }

  // ---------------------------------------------------------------- the class

  class JournalTail {
    const codec: Codec
    const disk: Disk
    const dataset: string
    const from: nat
    var lastSeq: nat
    var skipped: nat
    var days: seq<int>
    var index: int
    var offset: nat

    constructor (codec: Codec, disk: Disk, dataset: string, from: nat)
      ensures this.codec == codec && this.disk == disk && this.dataset == dataset
      ensures State() == Started(from)
    {
      this.codec, this.disk, this.dataset, this.from := codec, disk, dataset, from;
      lastSeq, skipped, days, index, offset := from, 0, [], -1, 0;
    }

    function State(): TailState
      reads this
    {
      TailState(from, days, index, offset, lastSeq, skipped)
    }

    method RefreshDays()
      requires this as object != disk
      modifies this
      ensures ListsDays(disk.files, dataset, days)
      ensures State() == Refreshed(old(State()), days)
    {
      var listed := ListDayFiles(disk.files, dataset);
      if listed != days {
        days := listed;
        if index == -1 && listed != [] { index := 0; }
      }
    }

    /** Deliver some complete lines, one at a time. */
    method DeliverLines(pieces: seq<string>) returns (out: seq<Record>)
      modifies this`lastSeq, this`skipped
      ensures var got := DecodeLenient(codec, pieces, old(lastSeq));
              out == got.out && lastSeq == got.lastSeq && skipped == old(skipped) + got.skipped
    {
      out := [];
      for i := 0 to |pieces|
        invariant var got := DecodeLenient(codec, pieces, old(lastSeq));
                  var rest := DecodeLenient(codec, pieces[i..], lastSeq);
                  got.out == out + rest.out && got.lastSeq == rest.lastSeq
                  && old(skipped) + got.skipped == skipped + rest.skipped
      {
        assert pieces[i..][1..] == pieces[i + 1..];
        if pieces[i] != "" {
          var r := codec.dec(pieces[i]);
          if r.None? {
            skipped := skipped + 1;
          } else if r.value.seqNo > lastSeq {
            out := out + [r.value];
            lastSeq := r.value.seqNo;
          }
        }
      }
    }

    /** Read the current day file from the offset, moving on when a later one is known. */
    method ReadCurrent() returns (out: seq<Record>)
      requires this as object != disk && Reading(State())
      modifies this`offset, this`lastSeq, this`skipped, this`index
      ensures (State(), out) == ReadStep(codec, disk.files, dataset, old(State()))
    {
      var chunk := Unread(Content(disk.files, Path(dataset, days[index])), offset);
      var n := CompleteLength(chunk);
      offset := offset + n;
      out := DeliverLines(Pieces(chunk[..n]));
      if index + 1 < |days| {
        if n < |chunk| { skipped := skipped + 1; }
        index := index + 1;
        offset := 0;
      }
    }

    /** One poll: list the day files, then read each from where the last poll stopped. */
    method Poll() returns (out: seq<Record>)
      requires this as object != disk
      modifies this
      ensures ListsDays(disk.files, dataset, days)
      ensures (State(), out) == ReadLoop(codec, disk.files, dataset, Refreshed(old(State()), days))
    {
      RefreshDays();
      out := [];
      ghost var listed := days;
      ghost var whole := ReadLoop(codec, disk.files, dataset, State());
      assert [] + whole.1 == whole.1;
      while 0 <= index < |days|
        invariant days == listed
        invariant var rest := ReadLoop(codec, disk.files, dataset, State());
                  whole == (rest.0, out + rest.1)
        decreases |days| - index
      {
        var hasNextDay := index + 1 < |days|;
        var got := ReadCurrent();
        if !hasNextDay { return out + got; }
        ghost var rest := ReadLoop(codec, disk.files, dataset, State());
        assert out + (got + rest.1) == out + got + rest.1;
        out := out + got;
      }
      assert out + [] == out;
    }
  }
}
