/** A gzip reader and its checkpoints as the pool behind ReadAt sees them. */
module Readers {
  import opened Bits
  import opened Canonical
  import opened HuffmanTable
  import opened Window
  import opened Deflate
  import opened Input
  import opened BlockCodes
  import opened Inflate
  import opened Checkpoints
  import opened Members
  import opened Gzip

  // Readers

  /** A gzip reader as others see it: where it began and what it has to deliver from there, its
      Offset, and the error it is stuck with. */
  datatype Rd = Rd(begin: int, plain: Decoded, pos: int, err: Err)

  ghost function View(z: GzipReader): Rd
    requires z.decompressor != null
    reads z, z.decompressor
  {
    Rd(z.begin, z.plain, z.Offset(), z.err)
  }

  /** A read of at most len bytes takes a reader from rd to rd'. */
  ghost predicate Reads(rd: Rd, len: nat, bytes: seq<byte>, rd': Rd) {
    && rd'.begin == rd.begin && rd'.plain == rd.plain && rd'.pos == rd.pos + |bytes| && |bytes| <= len
    && 0 <= rd.pos - rd.begin && rd'.pos - rd.begin <= |rd.plain.out|
    && bytes == rd.plain.out[rd.pos - rd.begin..rd'.pos - rd.begin]
    && (rd'.err == Ok ==> |bytes| > 0 || len == 0)
    && (rd'.err == Eof ==> rd.plain.ok && rd'.pos - rd.begin == |rd.plain.out|)
    && (rd'.err !in {Ok, Eof} ==> !rd.plain.ok)
    && (rd.err != Ok ==> rd' == rd)
  }

  /** Reading a gzip reader is such a step. */
  method ReadView(z: GzipReader, p: array<byte>) returns (n: nat, e: Err)
    requires z.Valid() && p != z.buf && p !in z.decompressor.Repr()
    modifies z, z.buf, z.r, z.updates, p, z.decompressor.Repr()
    ensures z.Valid() && n <= p.Length && e == z.err && Reads(old(View(z)), p.Length, p[..n], View(z))
    ensures forall o | o in z.decompressor.Repr() :: o in old(z.decompressor.Repr()) || fresh(o)
    ensures Extends(old(z.Channelled()), z.Channelled())
    ensures old(z.err) != Ok ==> z.Channelled() == old(z.Channelled())
  {
    hide GzipReader.Valid, GzipReader.Torn, Decompressor.Repr, Decompressor.Footprint;
    z.Standing();
    n, e := z.Read(p);
    z.Standing();
  }

  // Checkpoints

  /** The span of the first reader of a pool. */
  const SPAN: nat := 0x40_0000

  /** A checkpoint as ReadAt uses it: its position, whether it was taken at the end of the last block
      of a member, and what a reader that continues from it delivers. */
  datatype Entry = Entry(out: int, final: bool, rest: Decoded)

  ghost predicate Sorted(log: seq<Entry>) {
    forall i, j | 0 <= i < j < |log| :: log[i].out <= log[j].out
  }

  /** What is known of the checkpoints sent while reading a good file. */
  ghost predicate LogOk(log: seq<Entry>, plain: seq<byte>) {
    && Sorted(log) && 0 < |log| && log[0].out == 0
    && (forall i | 0 <= i < |log| :: 0 <= log[i].out <= |plain|)
    && (forall i | 0 <= i < |log| && !log[i].final :: log[i].rest == Decoded(plain[log[i].out..], true))
    && (forall i | 0 <= i < |log| - 1 && log[i].final :: !log[i + 1].final && log[i + 1].out == log[i].out)
    && (forall i | 0 <= i < |log| && log[i].final :: 0 < i && log[i].out - log[i - 1].out > SPAN)
  }

  /** When the whole file has been read, the last checkpoint is a start of a block or the very end. */
  ghost predicate LogDone(log: seq<Entry>, plain: seq<byte>) {
    0 < |log| && log[|log| - 1].final ==> log[|log| - 1].out == |plain|
  }

  /** As long as a checkpoint at the end of a member is the last one, the reader that has sent it stands
      before its position, by no more than a window. */
  ghost predicate Behind(log: seq<Entry>, pos: int) {
    0 < |log| && log[|log| - 1].final ==> pos < log[|log| - 1].out <= pos + WINDOW_SIZE
  }

  /** No member ends before the end of the file. */
  ghost predicate OneEnd(log: seq<Entry>, plain: seq<byte>) {
    forall i | 0 <= i < |log| && log[i].final :: log[i].out == |plain|
  }

  /** A reader that continues at the end of a member before the end of the file delivers nothing and
      fails. */
  ghost predicate EndsFail(log: seq<Entry>, plain: seq<byte>) {
    forall i | 0 <= i < |log| && log[i].final && log[i].out < |plain| :: log[i].rest == Decoded([], false)
  }

  /** How the log grows when the first reader is read, and so goes from rd to rd'. */
  ghost predicate LogStep(log: seq<Entry>, log': seq<Entry>, file: Decoded, rd: Rd, rd': Rd) {
    && log <= log' && (rd.err != Ok ==> log' == log)
    && (file.ok ==>
          && LogOk(log', file.out) && (rd'.err == Eof ==> LogDone(log', file.out))
          && (rd'.err == Ok ==> Behind(log', rd'.pos)))
  }

  function EntryOf(d: seq<byte>, cp: Checkpoint, note: Note, clean: bool): Entry
    requires WellFormed(d, cp)
  {
    Entry(cp.out, note.cfg.mode.Done?, Remaining(d, cp, clean))
  }

  ghost predicate AllFormed(d: seq<byte>, sent: seq<Checkpoint>) {
    forall i | 0 <= i < |sent| :: WellFormed(d, sent[i])
  }

  ghost function LogOf(d: seq<byte>, sent: seq<Checkpoint>, notes: seq<Note>, clean: bool): (log: seq<Entry>)
    requires |sent| == |notes| && AllFormed(d, sent)
    ensures |log| == |sent| && forall i | 0 <= i < |log| :: log[i] == EntryOf(d, sent[i], notes[i], clean)
  {
    seq(|sent|, i requires 0 <= i < |sent| => EntryOf(d, sent[i], notes[i], clean))
  }

  /** A reader that sends checkpoints, as the first reader of a pool does. */
  ghost predicate Sending(z: GzipReader)
    reads z.updates
  {
    && z.updates != null && z.span == SPAN
    && |z.updates.sent| == |z.updates.notes| && AllFormed(z.r.data, z.updates.sent)
  }

  /** The log of the checkpoints it has sent. */
  ghost function Log(z: GzipReader): seq<Entry>
    requires Sending(z)
    reads z.updates
  {
    LogOf(z.r.data, z.updates.sent, z.updates.notes, z.Clean())
  }

  lemma LogGrows(d: seq<byte>, s: seq<Checkpoint>, n: seq<Note>, s': seq<Checkpoint>, n': seq<Note>, clean: bool)
    requires |s| == |n| && |s'| == |n'| && s <= s' && n <= n' && AllFormed(d, s')
    ensures AllFormed(d, s) && LogOf(d, s, n, clean) <= LogOf(d, s', n', clean)
  {
    hide WellFormed, EntryOf;
    assert forall i | 0 <= i < |s| :: s[i] == s'[i] && n[i] == n'[i];
  }

  lemma RecordFormed(d: seq<byte>, sent: seq<Checkpoint>, notes: seq<Note>, plain: Decoded, clean: bool, to: int)
    requires Record(d, sent, notes, plain, clean, to, SPAN)
    ensures |sent| == |notes| && AllFormed(d, sent)
  {
    hide WellFormed, Remaining, InSequence, OneMember;
  }

  lemma LogOfRecord(d: seq<byte>, sent: seq<Checkpoint>, notes: seq<Note>, plain: Decoded, clean: bool, to: int)
    requires Record(d, sent, notes, plain, clean, to, SPAN) && plain.ok && sent != [] && sent[0].out == 0
    ensures |sent| == |notes| && AllFormed(d, sent) && LogOk(LogOf(d, sent, notes, clean), plain.out)
    ensures var log := LogOf(d, sent, notes, clean);
            log[|log| - 1].final == AtEnd(notes) && log[|log| - 1].out == sent[|log| - 1].out + notes[|log| - 1].lag
  {
    hide Faithful, WellFormed, Remaining;
    forall i | 0 <= i < |sent|
      ensures WellFormed(d, sent[i]) && 0 <= sent[i].out + notes[i].lag <= |plain.out|
      ensures !notes[i].cfg.mode.Done? ==>
                Remaining(d, sent[i], clean) == Decoded(plain.out[sent[i].out + notes[i].lag..], true)
    {
      FaithfulParts(d, sent[i], notes[i], plain, clean);
    }
  }

  lemma FaithfulParts(d: seq<byte>, cp: Checkpoint, note: Note, plain: Decoded, clean: bool)
    requires Faithful(d, cp, note, plain, clean) && plain.ok
    ensures WellFormed(d, cp) && 0 <= cp.out + note.lag <= |plain.out|
    ensures !note.cfg.mode.Done? ==>
              Remaining(d, cp, clean) == Decoded(plain.out[cp.out + note.lag..], true)
  {
    hide WellFormed, Remaining, From;
  }

  /** In a file of one member, the checkpoint at the end of its data is at the end of the output: all
      that is left after it is the trailer. */
  lemma EndOfOneMember(d: seq<byte>, sent: seq<Checkpoint>, notes: seq<Note>, plain: Decoded, clean: bool, to: int)
    requires Record(d, sent, notes, plain, clean, to, SPAN) && plain.ok && OneMember(d)
    ensures |sent| == |notes| && AllFormed(d, sent) && OneEnd(LogOf(d, sent, notes, clean), plain.out)
  {
    hide WellFormed, Remaining, OneMember, Last, HeaderEnd;
    forall i | 0 <= i < |sent| && notes[i].cfg.mode.Done? ensures sent[i].out == |plain.out| {
      assert Faithful(d, sent[i], notes[i], plain, clean);
      assert sent[i].input + 8 == |d| && notes[i].lag == 0;
      assert plain.out[sent[i].out..] == [];
    }
  }

  /** Where no block starts after the end of a member, a reader that continues there fails. */
  lemma EndsFailOnTrailers(d: seq<byte>, sent: seq<Checkpoint>, notes: seq<Note>, plain: Decoded, clean: bool, to: int)
    requires Record(d, sent, notes, plain, clean, to, SPAN)
    requires forall i | 0 <= i < |sent| && 0 <= 8 * sent[i].input - sent[i].nb && notes[i].cfg.mode.Done? ::
               BlockStep(d, 8 * sent[i].input - sent[i].nb) == None
    ensures |sent| == |notes| && AllFormed(d, sent) && EndsFail(LogOf(d, sent, notes, clean), plain.out)
  {
    hide Remaining, InSequence, OneMember, BlockStep, From;
    RecordFormed(d, sent, notes, plain, clean, to);
    forall i | 0 <= i < |sent| && notes[i].cfg.mode.Done? ensures Remaining(d, sent[i], clean) == Decoded([], false) {
      assert Faithful(d, sent[i], notes[i], plain, clean);
      ContinuesAtTrailer(d, sent[i], clean);
    }
  }

  /** The checkpoints the first reader has sent form a log as described, if the file is good. */
  lemma LogOfReader(z: GzipReader)
    requires z.Valid() && z.updates != null && z.span == SPAN
    ensures Sending(z)
    ensures z.plain.ok ==> LogOk(Log(z), z.plain.out)
    ensures z.plain.ok && z.err == Eof ==> LogDone(Log(z), z.plain.out)
    ensures z.plain.ok && z.err == Ok ==> Behind(Log(z), z.Offset())
    ensures z.plain.ok && OneMember(z.r.data) ==> OneEnd(Log(z), z.plain.out)
  {
    hide WellFormed, Remaining, Record, LogOk, OneMember, OneEnd, GzipReader.Valid;
    z.Standing();
    z.Recording();
    z.StandsBefore();
    RecordFormed(z.r.data, z.updates.sent, z.updates.notes, z.plain, z.Clean(), z.Woffset());
    if z.plain.ok {
      LogOfRecord(z.r.data, z.updates.sent, z.updates.notes, z.plain, z.Clean(), z.Woffset());
      if z.err == Ok && AtEnd(z.updates.notes) {
        var end := z.updates.sent[|z.updates.sent| - 1].out + z.updates.notes[|z.updates.notes| - 1].lag;
        assert Log(z)[|Log(z)| - 1].out == end && z.Offset() < end <= z.Offset() + WINDOW_SIZE;
      }
      if OneMember(z.r.data) {
        EndOfOneMember(z.r.data, z.updates.sent, z.updates.notes, z.plain, z.Clean(), z.Woffset());
      }
    }
  }

  /** Reading the first reader is such a step, and grows the log. */
  method ReadFrontier(z: GzipReader, p: array<byte>) returns (n: nat, e: Err)
    requires z.Valid() && p != z.buf && p !in z.decompressor.Repr() && Sending(z)
    modifies z, z.buf, z.r, z.updates, p, z.decompressor.Repr()
    ensures z.Valid() && n <= p.Length && e == z.err && Reads(old(View(z)), p.Length, p[..n], View(z))
    ensures forall o | o in z.decompressor.Repr() :: o in old(z.decompressor.Repr()) || fresh(o)
    ensures Sending(z) && LogStep(old(Log(z)), Log(z), z.plain, old(View(z)), View(z))
    ensures z.plain.ok && OneMember(z.r.data) ==> OneEnd(Log(z), z.plain.out)
  {
    hide GzipReader.Valid, LogOk, LogDone, OneEnd, OneMember, WellFormed, EntryOf, Reads, Behind;
    ghost var sent, notes := z.updates.sent, z.updates.notes;
    n, e := ReadView(z, p);
    LogOfReader(z);
    LogGrows(z.r.data, sent, notes, z.updates.sent, z.updates.notes, z.Clean());
  }

  /** The first reader of a file, as a pool is opened with: it has sent one checkpoint. */
  method OpenFrontier(r: CountReader, fixed: HuffmanDecoder, updates: Channel) returns (z: GzipReader?, e: Err)
    requires r.Valid() && r.start == r.pos == 0 && IsFixed(fixed) && updates.sent == [] && updates.notes == []
    modifies r, updates
    ensures z == null <==> r.data == [] || HeaderEnd(r.data, 0).None?
    ensures z == null ==> r.data == [] || !From(r.data, 0, true, r.atEnd == Eof).ok
    ensures z != null ==> z.Valid() && fresh(z) && fresh(z.buf) && fresh(z.decompressor.Repr())
    ensures z != null ==>
              && z.updates == updates && z.r == r && Sending(z) && |Log(z)| == 1
              && z.plain == From(r.data, 0, true, r.atEnd == Eof) && View(z) == Rd(0, z.plain, 0, Ok)
              && (z.plain.ok ==> LogOk(Log(z), z.plain.out))
  {
    hide IsFixed, From, GzipReader.Valid, LogOk, WellFormed, HeaderEnd;
    HeaderOfGood(r.data, r.atEnd == Eof);
    z, e := GzipReader.Open(r, fixed, SPAN, None, updates);
    if z != null {
      LogOfReader(z);
    }
  }

  /** A file without a header at its start gives nothing. */
  lemma HeaderOfGood(d: seq<byte>, clean: bool)
    ensures From(d, 0, true, clean).ok && d != [] ==> HeaderEnd(d, 0).Some?
    ensures HeaderEnd(d, 0).None? ==> From(d, 0, true, clean).out == []
  {
    hide HeaderEnd, Rest, Run;
  }

  /** A reader that continues from a checkpoint. */
  method OpenAt(r: CountReader, fixed: HuffmanDecoder, cp: Checkpoint) returns (z: GzipReader)
    requires r.Valid() && r.start == r.pos == cp.input && IsFixed(fixed) && WellFormed(r.data, cp)
    modifies r
    ensures z.Valid() && View(z) == Rd(cp.out, Remaining(r.data, cp, r.atEnd == Eof), cp.out, Ok)
  {
    hide IsFixed, Remaining, GzipReader.Valid, WellFormed;
    var made, e := GzipReader.Open(r, fixed, 0, Some(cp), null);
    z := made;
  }

  /** A reader for a whole file, if there is one. */
  method OpenFile(d: seq<byte>) returns (z: GzipReader?, e: Err)
    ensures z == null <==> d == [] || HeaderEnd(d, 0).None?
    ensures d == [] ==> e == Eof
    ensures z == null && d != [] ==> e !in {Ok, Eof}
    ensures z != null ==> z.Valid() && z.err == Ok && z.plain == From(d, 0, true, true) && z.begin == 0 == z.Offset()
    ensures z != null ==> fresh(z) && fresh(z.buf) && fresh(z.decompressor.Repr()) && fresh(z.r) && z.updates == null
  {
    hide From, GzipReader.Valid, HeaderEnd;
    var r := new CountReader(d, 0, Eof);
    var fixed := FixedHuffmanDecoder();
    z, e := GzipReader.Open(r, fixed, 0, None, null);
  }

  /** Reads a reader to its end, by way of p. */
  method Drain(z: GzipReader, p: array<byte>) returns (out: seq<byte>)
    requires z.Valid() && z.Offset() == z.begin && z.err == Ok && p != z.buf && p !in z.decompressor.Repr()
    requires 0 < p.Length
    modifies z, z.buf, z.r, z.updates, p, z.decompressor.Repr()
    ensures z.Valid() && z.err != Ok && 0 <= z.Offset() - z.begin <= |z.plain.out|
    ensures out == z.plain.out[..z.Offset() - z.begin]
  {
    hide GzipReader.Valid, GzipReader.Torn, GzipReader.Offset, GzipReader.Channelled, Extends;
    hide Decompressor.Repr, Decompressor.Footprint;
    z.Standing();
    out := [];
    while z.err == Ok
      invariant z.Valid() && z.decompressor != null && p !in z.decompressor.Repr()
      invariant forall o | o in z.decompressor.Repr() :: o in old(z.decompressor.Repr()) || fresh(o)
      invariant 0 <= z.Offset() - z.begin <= |z.plain.out| && out == z.plain.out[..z.Offset() - z.begin]
      decreases z.begin + |z.plain.out| - z.Offset(), z.err == Ok
    {
      ghost var at := z.Offset() - z.begin;
      var n, e := z.Read(p);
      More(z.plain.out, at, n, p[..n]);
      out := out + p[..n];
      z.Standing();
    }
  }

  lemma More(out: seq<byte>, at: nat, n: nat, part: seq<byte>)
    requires at + n <= |out| && part == out[at..at + n]
    ensures out[..at] + part == out[..at + n]
  {
  }

  /** Reading a whole file: one that is good gives all of its output, and one that is not gives an
      error, after a part of it. */
  method ReadAll(d: seq<byte>) returns (out: seq<byte>, e: Err)
    ensures out <= From(d, 0, true, true).out
    ensures d != [] ==> (e == Ok <==> From(d, 0, true, true).ok)
    ensures d == [] ==> e == Eof
    ensures e == Ok ==> out == From(d, 0, true, true).out
  {
    hide From, GzipReader.Valid, HeaderEnd, Decompressor.Repr, Decompressor.Footprint;
    HeaderOfGood(d, true);
    var p := new byte[512];
    var z;
    z, e := OpenFile(d);
    if z == null {
      return [], e;
    }
    z.Standing();
    out := Drain(z, p);
    z.Standing();
    e := if z.err == Eof then Ok else z.err;
  }

  /** Reads the first reader to its end, by way of p. */
  method DrainFrontier(z: GzipReader, p: array<byte>) returns (out: seq<byte>)
    requires z.Valid() && View(z) == Rd(0, z.plain, 0, Ok) && p != z.buf && p !in z.decompressor.Repr()
    requires 0 < p.Length && Sending(z)
    modifies z, z.buf, z.r, z.updates, p, z.decompressor.Repr()
    ensures z.Valid() && z.err != Ok && Sending(z) && old(Log(z)) <= Log(z)
    ensures out <= z.plain.out && View(z).pos == |out|
    ensures z.plain.ok ==> z.err == Eof && out == z.plain.out
    ensures z.plain.ok ==> LogOk(Log(z), z.plain.out) && LogDone(Log(z), z.plain.out)
  {
    hide GzipReader.Valid, GzipReader.Torn, GzipReader.Offset, Decompressor.Repr, Decompressor.Footprint;
    hide LogOk, LogDone, Behind;
    hide WellFormed, LogOf, AllFormed;
    z.Standing();
    out := [];
    while z.err == Ok
      invariant z.Valid() && z.decompressor != null && p !in z.decompressor.Repr() && Sending(z)
      invariant forall o | o in z.decompressor.Repr() :: o in old(z.decompressor.Repr()) || fresh(o)
      invariant old(Log(z)) <= Log(z)
      invariant 0 <= z.Offset() <= |z.plain.out| && out == z.plain.out[..z.Offset()]
      decreases |z.plain.out| - z.Offset(), z.err == Ok
    {
      ghost var at := z.Offset();
      var n, e := ReadFrontier(z, p);
      z.Standing();
      More(z.plain.out, at, n, p[..n]);
      out := out + p[..n];
    }
    z.Standing();
    LogOfReader(z);
  }

  /** A first pass over a file, as a pool makes it: a good file is read to its end, and the checkpoints
      sent are those of the whole file. */
  method FirstPass(d: seq<byte>) returns (z: GzipReader?, out: seq<byte>)
    ensures z == null ==> d == [] || !From(d, 0, true, true).ok
    ensures z != null ==> fresh(z) && z.Valid() && Sending(z) && z.r.data == d && z.plain == From(d, 0, true, true)
    ensures z != null ==> out <= z.plain.out && z.err != Ok
    ensures z != null && z.plain.ok ==>
              out == z.plain.out && LogOk(Log(z), z.plain.out) && LogDone(Log(z), z.plain.out)
  {
    hide From, GzipReader.Valid, HeaderEnd, Decompressor.Repr, Decompressor.Footprint, LogOk, LogDone;
    hide WellFormed, LogOf, Sending;
    var p := new byte[512];
    var r := new CountReader(d, 0, Eof);
    var fixed := FixedHuffmanDecoder();
    var updates := new Channel();
    out := [];
    var e;
    z, e := OpenFrontier(r, fixed, updates);
    if z != null {
      out := DrainFrontier(z, p);
    }
  }
}
