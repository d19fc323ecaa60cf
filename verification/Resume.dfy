/** What a decoder that continues from a checkpoint delivers. */
module Resume {
  import opened Bits
  import opened Canonical
  import opened Window
  import opened Deflate
  import opened Input
  import opened BlockCodes
  import opened Checkpoints
  import opened Inflate

  /** How many of the bytes a decoder starts with it does not hand out, because they were handed
      out before the checkpoint. */
  function Skipped(cp: Checkpoint): nat
    requires cp.rdPos <= cp.wrPos < WINDOW_SIZE
  {
    |Reach(cp)| - (cp.wrPos - cp.rdPos)
  }

  /** What a decoder that continues from cp hands out. */
  function Delivered(d: seq<byte>, cp: Checkpoint): seq<byte>
    requires WellFormed(d, cp)
  {
    Run(d, Resumed(cp)).out[Skipped(cp)..]
  }

  /** The saved window is as good as the whole output. */
  lemma ResumedWindow(d: seq<byte>, cp: Checkpoint, note: Note, base: int)
    requires Pictures(d, cp, note, base) && note.cfg.mode.Block?
    ensures SameWindow(note.cfg, Resumed(cp))
    ensures var n := cp.wrPos - cp.rdPos;
            Reach(cp)[Skipped(cp)..] == note.cfg.out[|note.cfg.out| - n..]
  {
    hide Num, Kept, Padded;
    var n, out := cp.wrPos - cp.rdPos, note.cfg.out;
    assert Reach(cp) == Last(out, WINDOW_SIZE);
    assert Last(out, WINDOW_SIZE)[|Last(out, WINDOW_SIZE)| - n..] == out[|out| - n..];
  }

  /** Continuing from a checkpoint taken at the end of a block that is not the last delivers the
      plaintext from the position `out` plus the lag on, and stops at the same place in the file. */
  lemma ResumeFrom(d: seq<byte>, cp: Checkpoint, note: Note, base: int)
    requires Pictures(d, cp, note, base) && note.cfg.mode.Block?
    ensures var goal, r := Run(d, note.cfg), Run(d, Resumed(cp));
            && r.mode == goal.mode && r.p == goal.p
            && 0 <= cp.out + note.lag - base <= |goal.out|
            && Delivered(d, cp) == goal.out[cp.out + note.lag - base..]
  {
    hide Num, Kept, Padded, Run, SameWindow;
    ResumedWindow(d, cp, note, base);
    SameWindowRun(d, note.cfg, Resumed(cp));
    TailParts(note.cfg.out[..|note.cfg.out| - (cp.wrPos - cp.rdPos)], note.cfg.out, Run(d, note.cfg).out);
    TailParts(Reach(cp)[..Skipped(cp)], Reach(cp), Run(d, Resumed(cp)).out);
  }

  /** The plaintext starts at `out` itself exactly if nothing was handed out uncounted. */
  lemma ResumeExactly(d: seq<byte>, cp: Checkpoint, note: Note, base: int)
    requires Pictures(d, cp, note, base) && note.cfg.mode.Block? && base <= cp.out
    ensures cp.out - base <= |Run(d, note.cfg).out|
    ensures Delivered(d, cp) == Run(d, note.cfg).out[cp.out - base..] <==> note.lag == 0
  {
    hide Run, Delivered, Resumed, Reach;
    ResumeFrom(d, cp, note, base);
  }

  /** A stored block of length zero is next, and there is output to hand out. */
  ghost predicate Flushes(f: Decompressor)
    reads f, f.in_, f.in_.r, f.dict
  {
    f.step == AtBlock && StoresNothing(f.in_.r.data, f.in_.P()) && f.dict.rdPos < f.dict.wrPos
  }

  /** Whether continuing from a checkpoint delivers the goal's output from its position on; nothing is
      said of a checkpoint at the end of the last block. */
  ghost predicate Continues(d: seq<byte>, cp: Checkpoint, note: Note, base: int, goal: Config, exactly: bool) {
    && Pictures(d, cp, note, base) && Run(d, note.cfg) == goal
    && (note.cfg.mode.Block? ==>
          && 0 <= cp.out - base <= |goal.out|
          && (Delivered(d, cp) == goal.out[cp.out - base..] <==> exactly))
  }

  /** A step of a decoder sends a checkpoint exactly if it ends a block and more than a span has been
      handed out since the last one, not counting what a stored block of length zero hands out.
      Continuing from it, unless it is at the end of the last block, delivers the plaintext from its
      position on exactly if the step was not such a block with output to hand out. With a span that
      is not negative, such a block never sends one. */
  method StepExactly(f: Decompressor) returns (ghost sends: bool)
    requires f.Valid() && f.err == Ok && f.lo == f.hi && f.updates != null
    modifies f, f.in_, f.in_.r, f.dict, f.dict.hist, f.updates, f.buf, f.codes.Repr()
    ensures var skipped := if old(Flushes(f)) then old(f.dict.wrPos - f.dict.rdPos) else 0;
            sends <==> f.Ended() && f.woffset + (f.hi - f.lo) - skipped - old(f.last) > f.span
    ensures |f.Sent()| == |old(f.Sent())| + if sends then 1 else 0
    ensures f.woffset == old(f.woffset)
    ensures old(Flushes(f)) ==> f.Ended() && f.hi - f.lo == old(f.dict.wrPos - f.dict.rdPos)
    ensures sends ==> f.Notes() != [] && f.Sent()[|f.Sent()| - 1].out == f.last
    ensures sends && old(Flushes(f)) ==>
              f.Notes()[|f.Notes()| - 1].lag == old(f.dict.wrPos - f.dict.rdPos) && f.last == f.woffset
    ensures sends ==> Continues(f.in_.r.data, f.Sent()[|f.Sent()| - 1], f.Notes()[|f.Notes()| - 1], f.base, f.goal,
                                !old(Flushes(f)))
    ensures old(Flushes(f)) && 0 <= f.span ==> !sends
  {
    hide Decompressor.Valid, Decompressor.Parts, Decompressor.Outcome, Decompressor.Live, Decompressor.Quiet;
    hide Run, Continues, StoresNothing, SentOne, Decompressor.Counted;
    Standing(f);
    ghost var lag := if f.step == AtBlock then f.EmptyLag(f.in_.P()) else 0;
    ghost var books := f.Books();
    f.LagBound(lag);
    f.DoStep();
    ghost var w := f.woffset + (f.hi - f.lo) - lag;
    sends := f.Ended() && w - books.last > f.span;
    if sends {
      Sent(f, books, w, lag);
    }
  }

  lemma Standing(f: Decompressor)
    requires f.Valid() && f.err == Ok && f.lo == f.hi
    ensures f.Parts() && f.Counted() && f.Live() && Run(f.in_.r.data, f.Cfg()) == f.goal
            && (f.step == AtBlock ==> f.Quiet())
    ensures f.base <= f.woffset && f.dict.rdPos <= f.dict.wrPos
  {
    hide Decompressor.Tables, Holds, Run, Decompressor.Live;
  }

  lemma Sent(f: Decompressor, books: Book, w: int, lag: nat)
    requires SentOne(f.in_.r.data, books, f.Books(), f.base, f.goal, w, lag, f.err == Eof) && f.base <= w
    ensures |f.Sent()| == |books.sent| + 1 && |f.Notes()| == |books.notes| + 1
    ensures f.Sent()[|f.Sent()| - 1].out == w == f.last && f.Notes()[|f.Notes()| - 1].lag == lag
    ensures Continues(f.in_.r.data, f.Sent()[|f.Sent()| - 1], f.Notes()[|f.Notes()| - 1], f.base, f.goal, lag == 0)
  {
    hide Pictures, Run, Delivered;
    var cp, note := f.Sent()[|f.Sent()| - 1], f.Notes()[|f.Notes()| - 1];
    assert Pictures(f.in_.r.data, cp, note, f.base) && Run(f.in_.r.data, note.cfg) == f.goal;
    if note.cfg.mode.Block? {
      ResumeExactly(f.in_.r.data, cp, note, f.base);
    }
  }

  // A stream on which the position saved is wrong

  /** A stored block that starts on a byte boundary. */
  lemma StoredBlock(d: seq<byte>, q: nat, n: nat, final: bool, out: seq<byte>)
    requires q + 5 + n <= |d| && d[q] == (if final then 1 else 0)
    requires Word(d, q + 1) == n && Word(d, q + 3) == 0xFFFF - n
    ensures Run(d, Config(Block, 8 * q, out))
         == Run(d, Config(EndBlock(final), 8 * (q + 5 + n), out + d[q + 5..q + 5 + n]))
  {
    hide Run, Num, FixedLit, FixedDist, NextByte, StoredLen, Word;
    StoredHeader(d, q);
    StoredLength(d, q, n);
    RunStored(d, Config(Block, 8 * q, out));
    RunRaw(d, n, final, q + 5, out, n);
    RunRawEnd(d, final, 8 * (q + 5 + n), out + d[q + 5..q + 5 + n]);
  }

  lemma StoredLength(d: seq<byte>, q: nat, n: nat)
    requires q + 5 <= |d| && Word(d, q + 1) == n && Word(d, q + 3) == 0xFFFF - n
    ensures StoredLen(d, 8 * q + 3) == Some(n) && NextByte(8 * q + 3) == q + 1
  {
    assert NextByte(8 * q + 3) == q + 1;
  }

  lemma StoredHeader(d: seq<byte>, q: nat)
    requires q < |d| && d[q] <= 1
    ensures Num(d, 8 * q, 1) == d[q] && Num(d, 8 * q + 1, 2) == 0
  {
    hide Num;
    Pow2Values();
    NumByte(d, q);
    NumSplit(d, 8 * q, 1, 7);
    NumSplit(d, 8 * q + 1, 2, 5);
  }

  /** One byte, a flush, one byte, a flush, and one byte in the last block. */
  const FLUSHED: seq<byte> := [0, 1, 0, 0xFE, 0xFF, 65, 0, 0, 0, 0xFF, 0xFF,
                               0, 1, 0, 0xFE, 0xFF, 66, 0, 0, 0, 0xFF, 0xFF,
                               1, 1, 0, 0xFE, 0xFF, 67]

  lemma FlushedByte(q: nat, x: byte, out: seq<byte>)
    requires (q == 0 && x == 65) || (q == 11 && x == 66)
    ensures Run(FLUSHED, Config(Block, 8 * q, out)) == Run(FLUSHED, Config(Block, 8 * (q + 11), out + [x]))
  {
    hide Run;
    var d := FLUSHED;
    assert d[q + 5] == x;
    StoredBlock(d, q, 1, false, out);
    assert out + d[q + 5..q + 6] == out + [x];
    StoredBlock(d, q + 6, 0, false, out + [x]);
    assert out + [x] + d[q + 11..q + 11] == out + [x];
  }

  lemma FlushedRun(out: seq<byte>)
    ensures Run(FLUSHED, Config(Block, 0, [])) == Run(FLUSHED, Config(Block, 8 * 22, [65, 66]))
    ensures Run(FLUSHED, Config(Block, 8 * 22, out)) == Config(Done, 8 * 28, out + [67])
  {
    hide Run;
    FlushedByte(0, 65, []);
    FlushedByte(11, 66, [65]);
    assert [] + [65] == [65] && [65] + [66] == [65, 66];
    assert FLUSHED[27] == 67;
    StoredBlock(FLUSHED, 22, 1, true, out);
    assert FLUSHED[27..28] == [67];
    RunStopped(FLUSHED, Config(Done, 8 * 28, out + [67]));
  }

  /** The checkpoint a decoder with a negative span sends at the end of the third block: 1 byte has
      been counted and 2 have been written. It is a good one. */
  const BEFORE_FLUSH: Checkpoint := Checkpoint(17, 1, 0, 0, Padded([65, 66]), 2, 1, false)

  lemma BeforeFlushPictured()
    ensures Resumed(BEFORE_FLUSH) == Config(Block, 8 * 17, [65, 66]) && |Reach(BEFORE_FLUSH)| == 2
    ensures Pictures(FLUSHED, BEFORE_FLUSH, Note(Config(Block, 8 * 17, [65, 66]), 0), 0)
  {
    assert Reach(BEFORE_FLUSH) == [65, 66];
    assert Num(FLUSHED, 8 * 17, 0) == 0;
  }

  lemma BeforeFlush()
    ensures Run(FLUSHED, Config(Block, 0, [])) == Config(Done, 8 * 28, [65, 66, 67])
    ensures Pictures(FLUSHED, BEFORE_FLUSH, Note(Config(Block, 8 * 17, [65, 66]), 0), 0)
    ensures Resumed(BEFORE_FLUSH) == Config(Block, 8 * 17, [65, 66])
    ensures Run(FLUSHED, Resumed(BEFORE_FLUSH)) == Config(Done, 8 * 28, [65, 66, 67])
    ensures StoresNothing(FLUSHED, 8 * 17) && WellFormed(FLUSHED, BEFORE_FLUSH) && |Reach(BEFORE_FLUSH)| == 2
  {
    hide Run, Padded, Kept, Last, Reach, Resumed;
    BeforeFlushPictured();
    FlushedRun([65, 66]);
    assert [65, 66] + [67] == [65, 66, 67];
    StoredBlock(FLUSHED, 17, 0, false, [65, 66]);
    assert [65, 66] + FLUSHED[22..22] == [65, 66];
    StoredHeader(FLUSHED, 17);
    StoredLength(FLUSHED, 17, 0);
  }

  /** The decoder that continues from there, again with a negative span. */
  method BeforeFlushDecoder() returns (f: Decompressor)
    ensures f.Valid() && f.err == Ok && f.lo == f.hi && f.updates != null && f.span == -1
    ensures fresh(f) && fresh(f.in_) && fresh(f.in_.r) && fresh(f.dict) && fresh(f.dict.hist) && fresh(f.updates)
    ensures fresh(f.buf) && fresh(f.codes.Repr())
    ensures f.in_.r.data == FLUSHED && f.base == 0 && f.goal == Config(Done, 8 * 28, [65, 66, 67])
    ensures Flushes(f) && f.dict.wrPos - f.dict.rdPos == 1 && f.woffset == f.last == 1
  {
    hide Run, Pictures, Padded, StoresNothing, Resumed, Reach, Decompressor.Valid;
    BeforeFlush();
    var r := new CountReader(FLUSHED, 17, Eof);
    var fixed := FixedHuffmanDecoder();
    var updates := new Channel();
    f := new Decompressor.Continue(r, fixed, BEFORE_FLUSH, -1, updates);
  }

  /** It sends another checkpoint at the end of the next block, a stored block of length zero: it has
      the same position, but the byte there has been handed out, and continuing from it loses that
      byte. */
  method LosesByte() returns (cp: Checkpoint)
    ensures WellFormed(FLUSHED, cp) && cp.out == 1
    ensures Run(FLUSHED, Config(Block, 0, [])).out == [65, 66, 67]
    ensures Delivered(FLUSHED, cp) == [67] != [65, 66, 67][cp.out..]
  {
    hide Run, Delivered, Flushes, Continues, WellFormed, Decompressor.Valid;
    BeforeFlush();
    var f := BeforeFlushDecoder();
    ghost var sends := StepExactly(f);
    cp := f.updates.sent[|f.updates.sent| - 1];
    LagsBehind(cp, f.Notes()[|f.Notes()| - 1]);
  }

  lemma LagsBehind(cp: Checkpoint, note: Note)
    requires Continues(FLUSHED, cp, note, 0, Config(Done, 8 * 28, [65, 66, 67]), false) && cp.out == 1 == note.lag
    ensures WellFormed(FLUSHED, cp) && Delivered(FLUSHED, cp) == [67]
  {
    hide Run, Reach, Delivered;
    if note.cfg.mode.Done? {
      RunStopped(FLUSHED, note.cfg);
      assert false;
    }
    ResumeFrom(FLUSHED, cp, note, 0);
  }
}
