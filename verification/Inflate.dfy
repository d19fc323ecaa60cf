/** The resumable inflater. Its state stands for a configuration of the machine in Deflate: a bit
    position, everything written so far, and what is to be read next. */
module Inflate {
  import opened Bits
  import opened Canonical
  import opened HuffmanTable
  import opened Window
  import opened Deflate
  import opened Embedding
  import opened Input
  import opened BitReader
  import opened BlockCodes
  import opened Matches
  import opened Checkpoints

  datatype StepFn = AtBlock | AtHuffman | AtData
  datatype StepState = StateInit | StateDict

  /** What follows a symbol of a block: the next one, a copy, or the end of the step. */
  datatype Next = ReadOn | DoCopy | Return

  /** The next step fails, whatever follows the data. */
  ghost predicate Hopeless(d: seq<byte>, c: Config) {
    forall x | d <= x :: Step(x, c).mode.Bad?
  }

  /** Why a decoder stops in a state with error e. Corrupt data is bad whatever follows. Otherwise the
      next step fails, or a symbol is next and there is no room left for the end of the block. */
  ghost predicate Halts(d: seq<byte>, c: Config, e: Err) {
    if e == Corrupt then Hopeless(d, c)
    else Step(d, c).mode.Bad? || (c.mode.Symbols? && 8 * |d| < c.p + EndBits(c.mode.lit))
  }

  /** On the way to the goal, which is an error, a decoder stops with error e after this output. */
  ghost predicate Cut(d: seq<byte>, goal: Config, out: seq<byte>, e: Err) {
    goal.mode.Bad? && exists c :: Run(d, c) == goal && c.out == out && Halts(d, c, e)
  }

  /** The shared decoder for fixed blocks. */
  ghost predicate IsFixed(h: HuffmanDecoder)
    reads h, h.chunks
  {
    h.Valid() && h.lens == FixedLit() && h.min == 7
  }

  class Decompressor {
    const in_: BitReader
    const codes: HuffmanCodes
    /** The shared decoder for fixed blocks. */
    const fixed: HuffmanDecoder
    const dict: DictDecoder
    const buf: array<byte>
    const updates: Channel?
    const span: int

    /** Bytes handed out, over all members. */
    var woffset: int
    /** Where the last checkpoint was sent. */
    var last: int

    var step: StepFn
    var stepState: StepState
    var final: bool
    var err: Err
    /** Output not yet taken by the caller, as a range of the window buffer. */
    var lo: nat
    var hi: nat
    var hl: HuffmanDecoder
    var hd: HuffmanDecoder?
    var copyLen: nat
    var copyDist: nat

    /** Position in the data where the member starts. */
    ghost const base: int
    /** Where the machine stops. */
    ghost const goal: Config

    /** A reader of the member that starts at the current position of r. */
    constructor WithSpans(r: CountReader, fixed: HuffmanDecoder, span: int, start: int, updates: Channel?)
      requires r.Valid() && IsFixed(fixed)
      requires updates != null ==> updates.Valid() && start == r.pos
      ensures fresh(Repr()) && in_.r == r && this.fixed == fixed && this.updates == updates && this.span == span
      ensures Valid() && err == Ok && goal == Run(r.data, Config(Block, 8 * r.pos, []))
      ensures woffset == 0 && base == 0 && Given() == 0 && lo == hi && last == start
    {
      hide IsFixed, HuffmanDecoder.Consistent, HuffmanCodes.Consistent, Holds, BitReader.InStep, Run, Last;
      hide Decompressor.Valid;
      assert Num(r.data, 8 * r.pos, 0) == 0;
      in_ := new BitReader(r, start, 0, 0);
      codes := new HuffmanCodes();
      this.fixed := fixed;
      dict := new DictDecoder(WINDOW_SIZE, []);
      buf := new byte[4](_ => 0);
      this.updates, this.span := updates, span;
      woffset, last := 0, start;
      step, stepState, final, err := AtBlock, StateInit, false, Ok;
      lo, hi, copyLen, copyDist := 0, 0, 0, 0;
      hl, hd := fixed, null;
      base := 0;
      goal := Run(r.data, Config(Block, 8 * r.pos, []));
      new;
      Begins();
    }

    /** A reader that continues from a checkpoint, with r at the next byte. */
    constructor Continue(r: CountReader, fixed: HuffmanDecoder, from: Checkpoint, span: int, updates: Channel?)
      requires r.Valid() && IsFixed(fixed) && WellFormed(r.data, from) && r.pos == from.input
      requires updates != null ==> updates.Valid()
      ensures fresh(Repr()) && in_.r == r && this.fixed == fixed && this.updates == updates && this.span == span
      ensures Valid() && err == Ok && goal == Run(r.data, Resumed(from))
      ensures woffset == from.out && Given() == |Reach(from)| - (from.wrPos - from.rdPos) && base == from.out - Given()
      ensures lo == hi && last == from.out && step == AtBlock && in_.P() == 8 * from.input - from.nb
      ensures dict.wrPos == from.wrPos && dict.rdPos == from.rdPos
    {
      hide IsFixed, HuffmanDecoder.Consistent, HuffmanCodes.Consistent, Holds, BitReader.InStep, Run, Last;
      hide Decompressor.Valid, HuffmanCodes.Valid, Num, CountReader.Valid, Channel.Valid;
      in_ := new BitReader(r, from.input, from.b, from.nb);
      codes := new HuffmanCodes();
      this.fixed := fixed;
      dict := new DictDecoder.Restore(WINDOW_SIZE, from.hist, from.wrPos, from.rdPos, from.full);
      buf := new byte[4](_ => 0);
      this.updates, this.span := updates, span;
      woffset, last := from.out, from.out;
      step, stepState, final, err := AtBlock, StateInit, false, Ok;
      lo, hi, copyLen, copyDist := 0, 0, 0, 0;
      hl, hd := fixed, null;
      base := from.out - |Reach(from)| + (from.wrPos - from.rdPos);
      goal := Run(r.data, Resumed(from));
      new;
      assert dict.hist[..] == Padded(from.hist);
      Begins();
    }

    /** What f becomes when it is reset to read the next member, from the current position on: the
        count of the output goes on. */
    constructor AfterReset(f: Decompressor, roffset: int)
      requires f.in_.r.Valid() && IsFixed(f.fixed)
      requires f.updates != null ==> f.updates.Valid() && roffset == f.in_.r.pos
      ensures fresh(Repr()) && in_.r == f.in_.r && fixed == f.fixed && updates == f.updates && span == f.span
      ensures Valid() && err == Ok && goal == Run(in_.r.data, Config(Block, 8 * in_.r.pos, []))
      ensures woffset == base == f.woffset && Given() == 0 && lo == hi && last == f.woffset
    {
      hide IsFixed, HuffmanDecoder.Consistent, HuffmanCodes.Consistent, Holds, BitReader.InStep, Run, Last;
      hide Decompressor.Valid;
      assert Num(f.in_.r.data, 8 * f.in_.r.pos, 0) == 0;
      in_ := new BitReader(f.in_.r, roffset, 0, 0);
      codes := new HuffmanCodes();
      fixed := f.fixed;
      dict := new DictDecoder(WINDOW_SIZE, []);
      buf := new byte[4](_ => 0);
      updates, span := f.updates, f.span;
      woffset, last := f.woffset, f.woffset;
      step, stepState, final, err := AtBlock, StateInit, false, Ok;
      lo, hi, copyLen, copyDist := 0, 0, 0, 0;
      hl, hd := f.fixed, null;
      base := f.woffset;
      goal := Run(f.in_.r.data, Config(Block, 8 * f.in_.r.pos, []));
      new;
      Begins();
    }

    lemma Begins()
      requires Tables() && in_.Valid() && in_.nb < 8 && dict.Valid() && dict.hist.Length == WINDOW_SIZE
      requires buf.Length == 4 && buf != dict.hist && (updates != null ==> updates.Valid() && in_.Drift() == 0)
      requires lo == hi == 0 && step == AtBlock && stepState == StateInit && copyLen == 0 && err == Ok
      requires dict.wrPos < dict.hist.Length && dict.rdPos <= dict.wrPos && dict.AvailRead() <= |dict.total|
      requires woffset + dict.AvailRead() == base + |dict.total| && goal == Run(in_.r.data, BlockCfg()) && Quiet()
      requires updates != null ==> woffset <= last
      ensures Valid()
    {
      hide Tables, BitReader.InStep, Holds, Run;
    }

    /** The objects this decoder alone uses. */
    ghost function Repr(): set<object> {
      {this, in_, dict, dict.hist, buf} + codes.Repr()
    }

    /** All objects the state of this decoder depends on. */
    ghost function Footprint(): set<object?>
      reads this
    {
      Repr() + {in_.r, updates, hl, hd, fixed, fixed.chunks}
    }

    /** The decoders and scratch space. */
    ghost predicate Tables()
      reads codes, codes.h1, codes.h1.chunks, codes.h2, codes.h2.chunks, fixed, fixed.chunks
    {
      && codes.Valid() && IsFixed(fixed)
      && fixed !in codes.Repr() && fixed.chunks !in codes.Repr()
    }

    ghost predicate Parts()
      reads `lo, `hi, in_, in_.r, dict, dict.hist, updates
      reads codes, codes.h1, codes.h1.chunks, codes.h2, codes.h2.chunks, fixed, fixed.chunks
    {
      && Tables()
      && in_.Valid() && dict.Valid() && dict.hist.Length == WINDOW_SIZE && buf.Length == 4 && buf != dict.hist
      && (updates != null ==> updates.Valid() && in_.Drift() == 0)
      && lo <= hi && dict.rdPos <= dict.wrPos
      && Fetched()
    }

    /** The range handed out is the part of the output that ends where the window has not been
        handed out yet. */
    ghost predicate Fetched()
      reads `lo, `hi, dict, dict.hist
    {
      && lo <= hi <= dict.hist.Length && dict.rdPos <= dict.wrPos
      && dict.AvailRead() + (hi - lo) <= |dict.total|
      && dict.hist[..][lo..hi]
         == dict.total[|dict.total| - dict.AvailRead() - (hi - lo)..|dict.total| - dict.AvailRead()]
    }

    /** While a step runs, what it has handed out is not in woffset yet. */
    ghost predicate Counted()
      reads `woffset, `lo, `hi, dict
      requires dict.rdPos <= dict.wrPos && lo <= hi
    {
      woffset + (hi - lo) + dict.AvailRead() == base + |dict.total|
    }

    ghost function Sent(): seq<Checkpoint>
      reads updates
    {
      if updates == null then [] else updates.sent
    }

    ghost function Notes(): seq<Note>
      reads updates
    {
      if updates == null then [] else updates.notes
    }

    ghost function Books(): Book
      reads `last, updates
    {
      Book(Sent(), Notes(), last)
    }

    /** The step that has just been made, or is being made, has come to the end of a block. */
    ghost predicate Ended()
      reads `err, `step
    {
      err == Eof || (err == Ok && step == AtBlock)
    }

    /** At the end of a block, a checkpoint is sent if there has been more than a span of output since
        the one before. It leads to the goal, and leaves uncounted the `skipped` bytes that the block
        has handed out before. Otherwise nothing is sent. */
    ghost predicate Saves(was: Book, goal: Config, skipped: nat)
      reads `woffset, `lo, `hi, `err, `step, `last, updates
    {
      var w := woffset + (hi - lo) - skipped;
      && lo <= hi
      && if updates != null && Ended() && w - was.last > span
         then skipped <= hi - lo && SentOne(in_.r.data, was, Books(), base, goal, w, skipped, err == Eof)
         else Books() == was
    }

    /** The bytes handed out by a stored block of length zero before it saves its state. */
    ghost function EmptyLag(p: nat): nat
      reads dict
      requires dict.rdPos <= dict.wrPos
    {
      if StoresNothing(in_.r.data, p) then dict.AvailRead() else 0
    }

    // What the state stands for

    ghost function SymbolsCfg(): Config
      reads `hl, `hd, `final, in_, in_.r, dict, hl, hd
    {
      Config(Symbols(hl.lens, DistCode(hd), final), in_.P(), dict.total)
    }

    ghost function CopyCfg(): Config
      reads `hl, `hd, `final, `copyDist, `copyLen, in_, in_.r, dict, hl, hd
    {
      Config(Copy(copyDist, copyLen, hl.lens, DistCode(hd), final), in_.P(), dict.total)
    }

    ghost function HuffmanCfg(): Config
      reads `stepState, `hl, `hd, `final, `copyDist, `copyLen, in_, in_.r, dict, hl, hd
    {
      if stepState == StateInit then SymbolsCfg() else CopyCfg()
    }

    ghost function RawCfg(): Config
      reads `copyLen, `final, in_, in_.r, dict
    {
      Config(Raw(copyLen, final), in_.P(), dict.total)
    }

    ghost function BlockCfg(): Config
      reads in_, in_.r, dict
    {
      Config(Block, in_.P(), dict.total)
    }

    ghost function Cfg(): Config
      reads `step, `stepState, `final, `hl, `hd, `copyLen, `copyDist, in_, in_.r, dict, hl, hd
    {
      match step
      case AtBlock => BlockCfg()
      case AtHuffman => HuffmanCfg()
      case AtData => RawCfg()
    }

    /** The decoders in use are those of the block, and reading for them does not go past the block. */
    ghost predicate Selected()
      reads `hl, `hd, hl, codes.h2, in_
    {
      && ((hl == fixed && hd == null) || (hl == codes.h1 && hd == codes.h2 && codes.h2.MinIsLeast()))
      && hl.min <= EndBits(hl.lens)
      && in_.nb < 8 + EndBits(hl.lens)
    }

    ghost predicate Reachable()
      reads `copyDist, dict
    {
      0 < copyDist <= Min(|dict.total|, WINDOW_SIZE)
    }

    /** Between two steps, as long as there is no error. */
    ghost predicate Live()
      reads `step, `stepState, `hl, `hd, `copyLen, `copyDist, in_, dict, hl, codes.h2
    {
      && dict.wrPos < dict.hist.Length
      && (stepState == StateDict ==> Reachable())
      && match step
         case AtBlock => in_.nb < 8 && copyLen == 0
         case AtHuffman => Selected() && (stepState == StateInit ==> copyLen == 0)
         case AtData => in_.nb == 0
    }

    /** How a step ends: on the way to the same goal, at the goal, or short of a goal that is an error. */
    ghost predicate Outcome(goal: Config)
      reads this, in_, in_.r, dict, hl, hd, codes.h2
    {
      && Heads(goal) && (err != Ok ==> lo == hi || dict.rdPos == dict.wrPos)
      && (err == Ok && step == AtBlock ==> Quiet())
    }

    /** No checkpoint is due, as long as not all is handed out. */
    ghost predicate Quiet()
      reads `woffset, `last, `lo, `hi, dict
    {
      updates != null && 0 <= span ==> dict.rdPos == dict.wrPos || (lo == hi && woffset - last <= span)
    }

    ghost predicate Heads(goal: Config)
      reads `step, `stepState, `final, `err, `hl, `hd, `copyLen, `copyDist
      reads in_, in_.r, dict, hl, hd, codes.h2
    {
      match err
      case Ok => Live() && Run(in_.r.data, Cfg()) == goal
      case Eof => goal == Config(Done, in_.P(), dict.total) && in_.nb < 8 && dict.rdPos == dict.wrPos
      case Corrupt => Cut(in_.r.data, goal, dict.total, Corrupt)
      case _ => Cut(in_.r.data, goal, dict.total, err) && in_.Exhausted(err)
    }

    // Steps

    /** Hands out what is in the window. */
    method Flush()
      requires Parts() && Counted() && lo == hi
      modifies `lo, `hi, dict
      ensures Parts() && Counted() && dict.AvailRead() == 0 && dict.wrPos < dict.hist.Length
      ensures dict.total == old(dict.total) && hi - lo == old(dict.AvailRead())
    {
      hide Tables, BitReader.Valid, HuffmanCodes.Valid, Holds, Last, Kept;
      var l, h := dict.ReadFlush();
      TailSlice(dict.total, h - l);
      lo, hi := l, h;
    }

    /** Saves the state at the end of a block. */
    method Snapshot(w: int) returns (cp: Checkpoint, ghost note: Note)
      requires Parts() && Counted() && in_.nb < 8 && in_.Drift() == 0 && (final ==> dict.rdPos == dict.wrPos)
      requires dict.wrPos < dict.hist.Length && woffset <= w <= woffset + (hi - lo)
      ensures note.cfg == Config(EndBlock(final), in_.P(), dict.total)
      ensures cp.out == w && note.lag == woffset + (hi - lo) - w && Pictures(in_.r.data, cp, note, base)
    {
      hide Num, Tables, Fetched;
      cp := Checkpoint(in_.roffset, w, in_.b, in_.nb, dict.hist[..], dict.wrPos, dict.rdPos, dict.full);
      note := Note(Config(EndBlock(final), in_.P(), dict.total), woffset + (hi - lo) - w);
      assert Padded(cp.hist) == dict.hist[..];
    }

    /** Sends a checkpoint if there has been enough output since the one before. */
    method SendDue(w: int)
      requires Parts() && Counted() && in_.nb < 8 && (final ==> err == Eof && dict.rdPos == dict.wrPos)
      requires dict.wrPos < dict.hist.Length && woffset <= w <= woffset + (hi - lo)
      modifies `last, updates
      ensures Parts() && Counted()
      ensures if updates != null && w - old(last) > span
              then SentOne(in_.r.data, old(Books()), Books(), base,
                           Run(in_.r.data, Config(EndBlock(final), in_.P(), dict.total)),
                           w, woffset + (hi - lo) - w, err == Eof)
              else Books() == old(Books())
      ensures last == if updates != null && w - old(last) > span then w else old(last)
    {
      hide Tables, Fetched, Holds, Pictures, BitReader.InStep, Run;
      if updates != null && w - last > span {
        var cp;
        ghost var note;
        cp, note := Snapshot(w);
        updates.Send(cp, note);
        last := cp.out;
      }
    }

    lemma SavesDue(was: Book, goal: Config, w: int, lag: nat)
      requires Ended() && lag <= hi - lo && w == woffset + (hi - lo) - lag
      requires if updates != null && w - was.last > span
               then SentOne(in_.r.data, was, Books(), base, goal, w, lag, err == Eof)
               else Books() == was
      ensures Saves(was, goal, lag)
    {
      hide SentOne;
    }

    lemma EndOutcome(goal: Config)
      requires err == (if final then Eof else Ok) && step == AtBlock && in_.nb < 8 && copyLen == 0
      requires if final then dict.rdPos == dict.wrPos else Quiet()
      requires dict.wrPos < dict.hist.Length && (stepState == StateDict ==> Reachable())
      requires goal == Run(in_.r.data, Config(EndBlock(final), in_.P(), dict.total))
      ensures Outcome(goal)
    {
    }

    /** At the end of the last block, hands out the rest. */
    method FlushLast() returns (w: int)
      requires Parts() && Counted() && err == Ok && dict.wrPos < dict.hist.Length && (lo == hi || dict.AvailRead() == 0)
      modifies `lo, `hi, `err, dict
      ensures Parts() && Counted() && dict.wrPos < dict.hist.Length && dict.total == old(dict.total)
      ensures err == if final then Eof else Ok
      ensures if final then dict.rdPos == dict.wrPos
              else lo == old(lo) && hi == old(hi) && dict.AvailRead() == old(dict.AvailRead())
      ensures w == woffset + if final && old(lo == hi) then hi - lo else 0
      ensures woffset <= w <= woffset + (hi - lo) && woffset + (hi - lo) - w == old(hi - lo)
      ensures old(dict.AvailRead()) == 0 ==> lo == old(lo) && hi == old(hi)
    {
      hide Tables, Fetched, Holds, BitReader.InStep, Last;
      w := woffset;
      if final {
        if dict.AvailRead() > 0 {
          Flush();
          w := w + (hi - lo);
        }
        err := Eof;
      }
    }

    /** The state of the machine at the end of the block. */
    ghost function EndCfg(): Config
      reads `final, in_, in_.r, dict
    {
      Config(EndBlock(final), in_.P(), dict.total)
    }

    /** At the end of a block, when it is all written: sends a checkpoint if one is due. */
    method SendEnd(w: int, ghost was: Book, ghost lag: nat)
      requires Parts() && Counted() && in_.nb < 8 && dict.wrPos < dict.hist.Length && copyLen == 0
      requires err == (if final then Eof else Ok) && (final ==> dict.rdPos == dict.wrPos)
      requires was == Books() && w == woffset + (hi - lo) - lag && woffset <= w <= woffset + (hi - lo)
      requires !final ==> lo == hi || dict.AvailRead() == 0
      requires stepState == StateDict ==> Reachable()
      modifies `last, `step, updates
      ensures Parts() && Counted() && step == AtBlock
      ensures Outcome(Run(in_.r.data, EndCfg())) && Saves(was, Run(in_.r.data, EndCfg()), lag)
    {
      hide Tables, Fetched, Holds, BitReader.InStep, Run, EndBlock, Outcome, Num, BitReader.Valid;
      hide SentOne, Saves, Parts;
      SendDue(w);
      step := AtBlock;
      SavesDue(was, Run(in_.r.data, EndCfg()), w, lag);
      EndOutcome(Run(in_.r.data, EndCfg()));
    }

    /** Ends a block: hands out the rest at the end of the last one, and sends a checkpoint when
        enough output has gone by since the one before. */
    method FinishBlock()
      requires Parts() && Counted() && err == Ok && in_.nb < 8 && copyLen == 0
      requires dict.wrPos < dict.hist.Length && (lo == hi || dict.AvailRead() == 0)
      requires stepState == StateDict ==> Reachable()
      modifies this, dict, updates
      ensures Parts() && Counted() && woffset == old(woffset)
      ensures err == (if final then Eof else Ok) && step == AtBlock
      ensures Outcome(Run(in_.r.data, EndCfg())) && Saves(old(Books()), Run(in_.r.data, EndCfg()), old(hi - lo))
      ensures dict.total == old(dict.total) && in_.P() == old(in_.P()) && final == old(final)
      ensures old(dict.AvailRead()) == 0 ==> lo == old(lo) && hi == old(hi)
    {
      hide Tables, Fetched, Holds, BitReader.InStep, Run, Outcome, Num, BitReader.Valid, Saves, Parts, EndCfg;
      ghost var was, lag := Books(), hi - lo;
      var w := FlushLast();
      SendEnd(w, was, lag);
    }

    // Huffman blocks

    lemma SelectedValid()
      requires Tables() && Selected()
      ensures hl.Valid() && (hd != null ==> hd.Valid() && hd.MinIsLeast())
    {
      hide HuffmanDecoder.Consistent, FixedLit;
    }

    /** Reads the rest of a match whose symbol v has been read; c0 is the state before that symbol. */
    method ReadMatch(v: nat, ghost c0: Config) returns (ok: bool)
      requires Tables() && in_.Valid() && Selected() && 257 <= v < MAX_NUM_LIT && err == Ok
      requires dict.Valid() && dict.hist.Length == WINDOW_SIZE
      requires c0 == SymbolsCfg().(p := c0.p) && c0.p < in_.P() <= 8 * |in_.r.data|
      modifies `err, `copyLen, `copyDist, in_, in_.r
      ensures in_.Valid() && in_.Drift() == old(in_.Drift())
      ensures ok ==> err == Ok && Selected() && Reachable() && MatchStep(in_.r.data, c0, old(in_.P()), v) == CopyCfg()
      ensures ok ==> old(in_.P()) <= in_.P()
      ensures !ok ==> err !in {Ok, Eof} && MatchStep(in_.r.data, c0, old(in_.P()), v).mode.Bad?
      ensures !ok ==> if err == Corrupt then NoMatchStep(in_.r.data, c0, old(in_.P()), v) else in_.Exhausted(err)
    {
      hide HuffmanCodes.Valid, HuffmanDecoder.Consistent, NoMatchAt, NoMatchStep;
      hide Tables, BitReader.InStep, Holds, MatchAt, MatchStep, DistCode, Last, Run;
      MatchStepIs(in_.r.data, c0, in_.P(), v);
      MatchDist(in_.r.data, in_.P(), v, DistCode(hd));
      SelectedValid();
      var length, dist;
      ghost var p := in_.P();
      length, dist, err := ReadLengthDist(in_, hd, v);
      if err != Ok {
        NoMatchSteps(in_.r.data, c0, p, v);
        return false;
      }
      var size := dict.HistSize();
      if dist > size {
        FarMatchSteps(in_.r.data, c0, p, v, length, dist, in_.P());
        err := Corrupt;
        return false;
      }
      copyLen, copyDist := length, dist;
      return true;
    }

    /** Writes a literal; a full window is handed out. */
    method PutByte(c: byte) returns (paused: bool)
      requires Parts() && Counted() && lo == hi && dict.wrPos < dict.hist.Length
      modifies `lo, `hi, dict, dict.hist
      ensures Parts() && Counted() && dict.total == old(dict.total) + [c] && dict.wrPos < dict.hist.Length
      ensures paused == (lo < hi)
    {
      hide Tables, BitReader.InStep, Holds;
      dict.WriteByte(c);
      EmptyFetched();
      paused := dict.AvailWrite() == 0;
      if paused {
        Flush();
      }
    }

    lemma EmptyFetched()
      requires lo == hi && dict.Valid()
      requires hi <= dict.hist.Length
      ensures Fetched()
    {
      hide Last;
    }

    /** Copies within the window, fast if possible. */
    method CopyFits(dist: nat, length: nat) returns (cnt: nat)
      requires dict.Valid() && 0 < dist <= Min(|dict.total|, dict.hist.Length)
      modifies dict, dict.hist
      ensures dict.Valid() && dict.rdPos == old(dict.rdPos) && dict.wrPos == old(dict.wrPos) + cnt
      ensures cnt <= length && dict.wrPos <= dict.hist.Length && (cnt < length ==> dict.wrPos == dict.hist.Length)
      ensures dict.total == CopyBytes(old(dict.total), dist, cnt)
    {
      hide CopyBytes, Last, Kept;
      cnt := dict.TryWriteCopy(dist, length);
      if cnt == 0 {
        CopyNothing(dict.total, dist);
        cnt := dict.WriteCopy(dist, length);
      }
    }

    /** Performs the pending copy as far as there is room; a full window is handed out. */
    method PutCopy() returns (paused: bool)
      requires Parts() && Counted() && lo == hi && dict.wrPos < dict.hist.Length && Reachable()
      modifies `copyLen, `lo, `hi, dict, dict.hist
      ensures Parts() && Counted() && dict.wrPos < dict.hist.Length && Reachable()
      ensures copyLen <= old(copyLen) && paused == (lo < hi) && (!paused ==> copyLen == 0)
      ensures dict.total == CopyBytes(old(dict.total), copyDist, old(copyLen) - copyLen)
    {
      hide Tables, BitReader.InStep, Holds, CopyBytes;
      var cnt := CopyFits(copyDist, copyLen);
      copyLen := copyLen - cnt;
      EmptyFetched();
      paused := dict.AvailWrite() == 0 || copyLen > 0;
      if paused {
        Flush();
      }
    }

    /** In a block between two symbols or copies. */
    ghost predicate InBlock()
      reads `err, `lo, `hi, `stepState, `copyDist, `hl, `hd, hl, codes.h2, in_, dict
    {
      && err == Ok && lo == hi && Selected() && dict.wrPos < dict.hist.Length
      && (stepState == StateDict ==> Reachable())
    }

    /** Goes on with the pending copy. */
    method CopyHistory() returns (paused: bool)
      requires Parts() && Counted() && InBlock() && Reachable()
      modifies `copyLen, `lo, `hi, `step, `stepState, dict, dict.hist
      ensures Parts() && Counted()
      ensures !paused ==> InBlock() && copyLen == 0
      ensures !paused ==> Run(in_.r.data, SymbolsCfg()) == Run(in_.r.data, old(CopyCfg()))
      ensures paused ==> lo < hi && !Ended() && Outcome(Run(in_.r.data, old(CopyCfg())))
    {
      hide Tables, BitReader.InStep, Holds, CopyBytes, Run, Fetched, FixedDist, EndBits, Counted;
      ghost var d, c, len, out := in_.r.data, CopyCfg(), copyLen, dict.total;
      paused := PutCopy();
      RunCopied(d, copyDist, len, copyLen, hl.lens, DistCode(hd), final, in_.P(), out, dict.total);
      if paused {
        step := AtHuffman; // this work goes on
        stepState := StateDict;
        return true;
      }
      RunCopyEnd(d, copyDist, hl.lens, DistCode(hd), final, in_.P(), dict.total);
      return false;
    }

    lemma LiteralOutcome(goal: Config)
      requires err == Ok && step == AtHuffman && stepState == StateInit && Selected() && copyLen == 0
      requires dict.wrPos < dict.hist.Length && goal == Run(in_.r.data, SymbolsCfg())
      ensures Outcome(goal)
    {
      hide Run;
    }

    /** A literal has been read; c is the state before it. */
    method Literal(v: byte, ghost c: Config) returns (next: Next)
      requires Parts() && Counted() && InBlock() && copyLen == 0
      requires Run(in_.r.data, c) == Run(in_.r.data, SymbolsCfg().(out := dict.total + [v]))
      modifies `lo, `hi, `step, `stepState, dict, dict.hist
      ensures Parts() && Counted() && next != DoCopy
      ensures next == ReadOn ==> InBlock() && Run(in_.r.data, SymbolsCfg()) == Run(in_.r.data, c)
      ensures next == Return ==> lo < hi && Outcome(Run(in_.r.data, c)) && Saves(Books(), Run(in_.r.data, c), 0)
    {
      hide HuffmanCodes.Valid, Last, Outcome, Selected;
      hide Tables, BitReader.InStep, Holds, Run, Fetched, FixedDist, EndBits;
      var paused := PutByte(v);
      if paused {
        step := AtHuffman;
        stepState := StateInit;
        LiteralOutcome(Run(in_.r.data, c));
        SavesNone(Run(in_.r.data, c), 0);
        return Return;
      }
      return ReadOn;
    }

    /** The end-of-block symbol has been read; c is the state before it. */
    method EndOfBlock(ghost c: Config)
      requires Parts() && Counted() && InBlock() && copyLen == 0 && in_.nb < 8
      requires Run(in_.r.data, c) == Run(in_.r.data, Config(EndBlock(final), in_.P(), dict.total))
      modifies this, dict, updates
      ensures Parts() && Counted() && woffset == old(woffset) && in_.P() == old(in_.P())
      ensures Outcome(Run(in_.r.data, c)) && Saves(old(Books()), Run(in_.r.data, c), 0)
    {
      hide Tables, BitReader.InStep, Holds, Run, Fetched, FixedDist, EndBits, Selected, SentOne, Outcome, Parts;
      hide Counted;
      FinishBlock();
    }

    /** The symbol of a match has been read; c is the state before it. */
    method Match(v: nat, ghost c: Config) returns (next: Next)
      requires Parts() && Counted() && InBlock() && 257 <= v < MAX_NUM_LIT
      requires c == SymbolsCfg().(p := c.p) && c.p < in_.P() <= 8 * |in_.r.data|
      requires HasRead(c, v)
      requires Run(in_.r.data, c) == Run(in_.r.data, MatchStep(in_.r.data, c, in_.P(), v))
      modifies `err, `copyLen, `copyDist, in_, in_.r
      ensures Parts() && Counted() && next != ReadOn
      ensures next == DoCopy ==> InBlock() && Reachable() && old(in_.P()) <= in_.P()
      ensures next == DoCopy ==> Run(in_.r.data, CopyCfg()) == Run(in_.r.data, c)
      ensures next == Return ==>
                err !in {Ok, Eof} && Outcome(Run(in_.r.data, c)) && Saves(Books(), Run(in_.r.data, c), 0)
    {
      hide Tables, BitReader.InStep, Holds, Run, Fetched, FixedDist, EndBits, MatchStep, Selected, BitReader.Valid;
      hide SymbolAt, NoMatchStep, Halts;
      ghost var p := in_.P();
      ghost var stop := MatchStep(in_.r.data, c, p, v);
      var ok := ReadMatch(v, c);
      if ok {
        return DoCopy;
      }
      RunStopped(in_.r.data, stop);
      MatchHalts(in_.r.data, c, p, v, err);
      Fails(c, 0);
      return Return;
    }

    /** The number of pending bits stays within what the end of the block allows. */
    lemma StillSelected(was: nat, len: nat)
      requires hl.min <= EndBits(hl.lens) && was < 8 + EndBits(hl.lens) && len < MAX_CODE_LEN
      requires in_.nb + len == was || in_.nb < 8 || in_.nb + len < hl.min + 8
      ensures in_.nb < 8 + EndBits(hl.lens)
      ensures END_OF_BLOCK < |hl.lens| && 0 < len == hl.lens[END_OF_BLOCK] ==> in_.nb < 8
    {
    }

    /** Reads one literal/length symbol, and what goes with it. */
    method ReadLiteral() returns (next: Next)
      requires Parts() && Counted() && InBlock() && copyLen == 0
      modifies this, in_, in_.r, dict, dict.hist, updates
      ensures Parts() && Counted() && woffset == old(woffset)
      ensures next == ReadOn ==> InBlock() && copyLen == 0 && old(in_.P()) < in_.P()
      ensures next == ReadOn ==> Run(in_.r.data, SymbolsCfg()) == Run(in_.r.data, old(SymbolsCfg()))
      ensures next == DoCopy ==> InBlock() && Reachable() && old(in_.P()) < in_.P()
      ensures next == DoCopy ==> Run(in_.r.data, CopyCfg()) == Run(in_.r.data, old(SymbolsCfg()))
      ensures next == Return ==> Outcome(Run(in_.r.data, old(SymbolsCfg())))
      ensures next == Return && err == Ok && lo == hi ==> old(in_.P()) < in_.P()
      ensures next != Return ==> Books() == old(Books())
      ensures next == Return ==> Saves(old(Books()), Run(in_.r.data, old(SymbolsCfg())), 0)
    {
      hide Tables, BitReader.InStep, Holds, Run, Fetched, FixedDist, EndBits, Selected, MatchStep, Outcome, DistCode;
      hide Parts, Counted, SymbolAt, Halts, Saves, HasRead;
      ghost var c := SymbolsCfg();
      var v;
      v, err := NextSymbol(c);
      if err == Ok {
        next := TakeSymbol(v, c);
      } else {
        next := Return;
        Fails(c, 0);
      }
    }

    /** Symbol v has been read; c is the state before it. */
    method TakeSymbol(v: nat, ghost c: Config) returns (next: Next)
      requires Parts() && Counted() && InBlock() && copyLen == 0 && c == SymbolsCfg().(p := c.p)
      requires HasRead(c, v) && c.p < in_.P() <= 8 * |in_.r.data| && (v == END_OF_BLOCK ==> in_.nb < 8)
      modifies this, in_, in_.r, dict, dict.hist, updates
      ensures Parts() && Counted() && woffset == old(woffset)
      ensures next == ReadOn ==> InBlock() && copyLen == 0 && Run(in_.r.data, SymbolsCfg()) == Run(in_.r.data, c)
      ensures next == DoCopy ==> InBlock() && Reachable() && Run(in_.r.data, CopyCfg()) == Run(in_.r.data, c)
      ensures next == Return ==> Outcome(Run(in_.r.data, c)) && Saves(old(Books()), Run(in_.r.data, c), 0)
      ensures next != Return ==> c.p < in_.P() && Books() == old(Books())
      ensures next == Return && err == Ok && lo == hi ==> c.p < in_.P()
    {
      hide Tables, BitReader.InStep, Holds, Run, Fetched, FixedDist, EndBits, Selected, MatchStep, Outcome, DistCode;
      hide Parts, Counted, SymbolAt, Halts, Saves;
      RunSymbol(in_.r.data, c, v, in_.P());
      if v < 256 {
        next := Literal(v, c);
      } else if v == END_OF_BLOCK {
        EndOfBlock(c);
        next := Return;
      } else if v < MAX_NUM_LIT {
        next := Match(v, c);
      } else {
        ReservedSymbol(v, c);
        next := Return;
      }
    }

    /** A symbol without meaning has been read; c is the state before it. */
    method ReservedSymbol(v: nat, ghost c: Config)
      requires Parts() && Counted() && InBlock() && c == SymbolsCfg().(p := c.p) && MAX_NUM_LIT <= v
      requires HasRead(c, v) && c.p <= 8 * |in_.r.data|
      requires Run(in_.r.data, c).mode.Bad?
      modifies `err
      ensures Parts() && Counted() && Outcome(Run(in_.r.data, c)) && Saves(Books(), Run(in_.r.data, c), 0)
    {
      hide Tables, BitReader.InStep, Holds, Run, Fetched, Outcome, Saves, SymbolAt, DistCode, Halts;
      ReservedHalts(in_.r.data, c, v);
      err := Corrupt;
      Fails(c, 0);
    }

    /** Symbol v has been read; c is the state before it. */
    ghost predicate HasRead(c: Config, v: nat)
      requires c.mode.Symbols?
      reads in_, in_.r
    {
      SymbolAt(c.mode.lit, in_.r.data, c.p) == Some(v) && in_.P() == c.p + c.mode.lit[v]
    }

    /** Reads a literal/length symbol; c is the state before it. */
    method NextSymbol(ghost c: Config) returns (v: nat, e: Err)
      requires Parts() && Counted() && InBlock() && c == SymbolsCfg()
      modifies in_, in_.r
      ensures Parts() && Counted() && (e !in {Ok, Corrupt} ==> in_.Exhausted(e))
      ensures e != Ok ==> Run(in_.r.data, c).mode.Bad? && Halts(in_.r.data, c, e)
      ensures e == Ok ==> HasRead(c, v) && InBlock() && c.p < in_.P() <= 8 * |in_.r.data|
      ensures e == Ok && v == END_OF_BLOCK ==> in_.nb < 8
    {
      hide HuffmanCodes.Valid, Last, Tables, BitReader.InStep, Holds, Run, Fetched, FixedDist, EndBits, AfterSymbol;
      hide SymbolAt, MatchStep, DistCode, Dead, Halts;
      ghost var d, was := in_.r.data, in_.nb;
      SelectedValid();
      v, e := in_.HuffSym(hl);
      if e != Ok {
        EndBitsBound(hl.lens, hl.min);
        RunNoSymbol(d, c, hl.min);
        NoSymbolHalts(d, c, hl.min, e);
      } else {
        StillSelected(was, hl.lens[v]);
      }
    }

    /** The decoder stops in state c. */
    lemma ShortOutcome(goal: Config, c: Config)
      requires err != Ok && err != Eof && goal.mode.Bad? && lo == hi && goal == Run(in_.r.data, c)
      requires c.out == dict.total && Halts(in_.r.data, c, err) && (err != Corrupt ==> in_.Exhausted(err))
      ensures Outcome(goal)
    {
      hide Run, Halts;
    }

    /** Decodes a block of symbols until it ends or a full window has to be handed out. */
    method HuffmanBlock()
      requires Parts() && Counted() && InBlock() && (stepState == StateInit ==> copyLen == 0)
      modifies this, in_, in_.r, dict, dict.hist, updates
      ensures Parts() && Counted() && woffset == old(woffset)
      ensures Outcome(Run(in_.r.data, old(HuffmanCfg())))
      ensures err == Ok && lo == hi ==> old(in_.P()) < in_.P()
      ensures Saves(old(Books()), Run(in_.r.data, old(HuffmanCfg())), 0)
    {
      hide Tables, BitReader.InStep, Holds, Run, Fetched, FixedDist, EndBits, Selected, Outcome, DistCode, Counted;
      ghost var d, goal, p := in_.r.data, Run(in_.r.data, HuffmanCfg()), in_.P();
      var next := if stepState == StateInit then ReadOn else DoCopy;
      while true
        invariant Parts() && Counted() && InBlock() && next != Return && woffset == old(woffset)
        invariant if next == ReadOn then copyLen == 0 else Reachable()
        invariant Run(d, if next == ReadOn then SymbolsCfg() else CopyCfg()) == goal
        invariant Books() == old(Books()) && p <= in_.P() <= 8 * |d|
        decreases 8 * |d| - in_.P(), if next == DoCopy then 1 else 0
      {
        if next == DoCopy {
          var paused := CopyHistory();
          if paused {
            return;
          }
          next := ReadOn;
        } else {
          next := ReadLiteral();
          if next == Return {
            return;
          }
        }
      }
    }

    // Stored blocks

    /** Reads bytes of a stored block into the window, as many as fit. */
    method StoreBytes() returns (e: Err)
      requires Parts() && Counted() && lo == hi && in_.nb == 0 && dict.wrPos < dict.hist.Length
      modifies `copyLen, in_, in_.r, dict, dict.hist
      ensures Parts() && Counted() && in_.nb == 0 && dict.wrPos <= dict.hist.Length && old(dict.rdPos) == dict.rdPos
      ensures dict.wrPos - old(dict.wrPos) == old(copyLen) - copyLen >= 0
      ensures in_.r.pos == old(in_.r.pos) + (old(copyLen) - copyLen) && in_.P() == 8 * in_.r.pos
      ensures dict.total == old(dict.total) + in_.r.data[old(in_.r.pos)..in_.r.pos]
      ensures e == Ok ==> copyLen == 0 || dict.wrPos == dict.hist.Length
      ensures e != Ok ==> e != Eof && 0 < copyLen && in_.Exhausted(e)
    {
      hide Tables, BitReader.InStep, Holds, Last;
      var n := Min(dict.AvailWrite(), copyLen);
      var cnt;
      cnt, e := in_.ReadBytes(dict.hist, dict.wrPos, n);
      copyLen := copyLen - cnt;
      dict.StoreLoads(cnt);
      dict.WriteMark(cnt);
      EmptyFetched();
    }

    /** Copies bytes of a stored block to the output, until it ends or a full window has to be handed
        out. */
    method CopyData()
      requires Parts() && Counted() && err == Ok && lo == hi && in_.nb == 0 && dict.wrPos < dict.hist.Length
      requires stepState == StateDict ==> Reachable()
      modifies this, in_, in_.r, dict, dict.hist, updates
      ensures Parts() && Counted() && woffset == old(woffset)
      ensures Outcome(Run(in_.r.data, old(RawCfg())))
      ensures err == Ok && lo == hi ==> old(in_.P()) <= in_.P() && step == AtBlock
      ensures Saves(old(Books()), Run(in_.r.data, old(RawCfg())), 0)
    {
      hide Tables, BitReader.InStep, Holds, Run, Fetched, Selected, Outcome, Saves, Counted, Halts;
      ghost var d, len, q, out := in_.r.data, copyLen, in_.r.pos, dict.total;
      err := StoreBytes();
      RunRaw(d, len, final, q, out, len - copyLen);
      if err != Ok {
        DataMissing();
      } else if dict.AvailWrite() == 0 || copyLen > 0 {
        PauseData();
      } else {
        RunRawEnd(d, final, in_.P(), dict.total);
        FinishBlock();
      }
    }

    /** The data of a stored block is not all there. */
    lemma DataMissing()
      requires err !in {Ok, Eof} && lo == hi && 0 < copyLen && in_.P() == 8 * in_.r.pos && in_.Exhausted(err)
      ensures Outcome(Run(in_.r.data, RawCfg())) && Saves(Books(), Run(in_.r.data, RawCfg()), 0)
    {
      hide Run, Halts, Outcome, Saves;
      RunRawShort(in_.r.data, copyLen, final, in_.r.pos, dict.total);
      RawHalts(in_.r.data, copyLen, final, in_.r.pos, dict.total, err);
      Fails(RawCfg(), 0);
    }

    /** Hands out the window in the middle of a stored block. */
    method PauseData()
      requires Parts() && Counted() && err == Ok && lo == hi && in_.nb == 0
      requires dict.rdPos < dict.wrPos && (stepState == StateDict ==> Reachable())
      modifies `lo, `hi, `step, dict
      ensures Parts() && Counted() && lo < hi && Outcome(Run(in_.r.data, old(RawCfg())))
      ensures Saves(Books(), Run(in_.r.data, old(RawCfg())), 0)
    {
      hide Tables, BitReader.InStep, Holds, Run, Fetched, Outcome;
      Flush();
      step := AtData;
      DataOutcome(Run(in_.r.data, RawCfg()));
    }

    lemma SavesNone(goal: Config, lag: nat)
      requires lo <= hi && !Ended()
      ensures Saves(Books(), goal, lag)
    {
    }

    lemma DataOutcome(goal: Config)
      requires err == Ok && step == AtData && in_.nb == 0 && dict.wrPos < dict.hist.Length
      requires (stepState == StateDict ==> Reachable()) && goal == Run(in_.r.data, RawCfg())
      ensures Outcome(goal)
    {
      hide Run;
    }

    /** Reads the length of a stored block. */
    method ReadStoredLen() returns (n: nat, e: Err)
      requires Parts() && Counted() && lo == hi && in_.nb < 8
      modifies in_, in_.r, buf
      ensures Parts() && Counted() && in_.nb == 0
      ensures e == Ok ==> StoredLen(in_.r.data, old(in_.P())) == Some(n)
      ensures e == Ok ==> in_.P() == 8 * (NextByte(old(in_.P())) + 4)
      ensures e != Ok ==> e != Eof && StoredLen(in_.r.data, old(in_.P())) == None
      ensures if e == Corrupt then NextByte(old(in_.P())) + 4 <= |in_.r.data| else e == Ok || in_.Exhausted(e)
    {
      hide Tables, BitReader.InStep, Holds, Fetched;
      in_.Align();
      ghost var q := in_.r.pos;
      n := 0;
      var nr;
      nr, e := in_.ReadBytes(buf, 0, 4);
      if e != Ok {
        return;
      }
      HeaderBytes(buf[..], in_.r.data, q);
      n := buf[0] as int + 256 * buf[1] as int;
      var nn := buf[2] as int + 256 * buf[3] as int;
      if nn != 0xFFFF - n {
        e := Corrupt;
      }
    }

    /** Reads a stored block, from the end of its three header bits on; c is the state before them. */
    method DataBlock(ghost c: Config)
      requires InHeader(c) && Num(in_.r.data, c.p + 1, 2) == 0
      modifies this, in_, in_.r, dict, dict.hist, updates, buf
      ensures Parts() && Counted() && woffset == old(woffset)
      ensures Outcome(Run(in_.r.data, c))
      ensures Saves(old(Books()), Run(in_.r.data, c), old(EmptyLag(c.p)))
      ensures err == Ok && lo == hi ==> c.p < in_.P() && step == AtBlock
      ensures StoresNothing(in_.r.data, c.p) ==> Ended() && hi - lo == old(EmptyLag(c.p))
    {
      hide Parts, Counted, InHeader, Outcome, Saves, Run, StoresNothing, Quiet, Last;
      var n := BeginData(c);
      if err == Ok {
        if n == 0 {
          EmptyBlock(c);
        } else {
          copyLen := n;
          CopyData();
        }
      }
    }

    /** Reads the length of a stored block; c is the state before its header. */
    method BeginData(ghost c: Config) returns (n: nat)
      requires InHeader(c) && Num(in_.r.data, c.p + 1, 2) == 0
      modifies `err, in_, in_.r, buf
      ensures Parts() && Counted() && dict.rdPos <= dict.wrPos < dict.hist.Length
      ensures err == Ok ==> lo == hi && in_.nb == 0 && copyLen == 0 && (stepState == StateDict ==> Reachable())
      ensures err == Ok ==> Quiet() && c.p < in_.P() && StoresNothing(in_.r.data, c.p) == (n == 0)
      ensures err == Ok ==> Run(in_.r.data, c) == Run(in_.r.data, Config(Raw(n, final), in_.P(), dict.total))
      ensures err != Ok ==> Outcome(Run(in_.r.data, c)) && Saves(Books(), Run(in_.r.data, c), old(EmptyLag(c.p)))
      ensures err != Ok ==> !StoresNothing(in_.r.data, c.p)
    {
      hide Tables, BitReader.InStep, Holds, Run, Fetched, Outcome, Saves, StoredLen, Num, Last;
      RunStored(in_.r.data, c);
      n, err := ReadStoredLen();
      if err != Ok {
        SavesNone(Run(in_.r.data, c), old(EmptyLag(c.p)));
        StoredHalts(in_.r.data, c, err);
        ShortOutcome(Run(in_.r.data, c), c);
      }
    }

    /** A stored block of length zero hands out the window; c is the state before its header. */
    method EmptyBlock(ghost c: Config)
      requires Parts() && Counted() && err == Ok && dict.rdPos <= dict.wrPos < dict.hist.Length
      requires lo == hi && in_.nb == 0 && copyLen == 0 && (stepState == StateDict ==> Reachable()) && Quiet()
      requires StoresNothing(in_.r.data, c.p)
      requires Run(in_.r.data, c) == Run(in_.r.data, Config(Raw(0, final), in_.P(), dict.total))
      modifies this, dict, updates
      ensures Parts() && Counted() && woffset == old(woffset) && in_.P() == old(in_.P())
      ensures Outcome(Run(in_.r.data, c)) && Ended() && hi - lo == old(dict.AvailRead())
      ensures Saves(old(Books()), Run(in_.r.data, c), old(EmptyLag(c.p)))
    {
      hide Outcome, Saves, Run, StoresNothing, Tables, BitReader.InStep, Holds, Fetched, Last;
      Flush();
      RunRawEnd(in_.r.data, final, in_.P(), dict.total);
      FinishBlock();
    }

    // Blocks

    /** The decoders of a fixed block. */
    method UseFixed()
      requires Parts() && Counted() && err == Ok && lo == hi && in_.nb < 8 && dict.wrPos < dict.hist.Length
      requires stepState == StateDict ==> Reachable()
      modifies `hl, `hd
      ensures Parts() && Counted() && InBlock() && hl.lens == FixedLit() && DistCode(hd) == FixedDist()
    {
      hide BitReader.InStep, Holds, Fetched, FixedLit, FixedDist, HuffmanCodes.Valid, HuffmanDecoder.Valid;
      hl, hd := fixed, null;
      FixedLitEnd();
    }

    /** Reads and uses the decoders of a dynamic block. */
    method UseDynamic() returns (e: Err)
      requires Parts() && Counted() && err == Ok && lo == hi && in_.nb < 8 && dict.wrPos < dict.hist.Length
      requires stepState == StateDict ==> Reachable()
      modifies `hl, `hd, in_, in_.r, codes.Repr()
      ensures Parts() && Counted()
      ensures e == Ok ==> InBlock() && DynamicCodes(in_.r.data, old(in_.P())) == Some((hl.lens, DistCode(hd), in_.P()))
      ensures e != Ok ==> e != Eof && DynamicCodes(in_.r.data, old(in_.P())) == None
      ensures if e == Corrupt then NoCodes(in_.r.data, old(in_.P())) else e == Ok || in_.Exhausted(e)
    {
      hide BitReader.InStep, Holds, Fetched, FixedLit, FixedDist, HuffmanDecoder.Consistent, HuffmanCodes.Consistent;
      hide DynamicCodes, NoCodes;
      e := codes.ReadHuffman(in_);
      if e == Ok {
        hl, hd := codes.h1, codes.h2;
      }
    }

    /** A copy left over from an earlier block is finished, so that starting with it does nothing. */
    lemma StaleCopy()
      requires copyLen == 0 && (stepState == StateDict ==> Reachable())
      ensures Run(in_.r.data, HuffmanCfg()) == Run(in_.r.data, SymbolsCfg())
    {
      hide Run, DistCode;
      if stepState == StateDict {
        RunCopyEnd(in_.r.data, copyDist, hl.lens, DistCode(hd), final, in_.P(), dict.total);
      }
    }

    /** Reads a block of symbols; c is the state before its header. */
    method SymbolBlock(ghost c: Config)
      requires Parts() && Counted() && InBlock() && copyLen == 0 && c.p < in_.P()
      requires Run(in_.r.data, c) == Run(in_.r.data, SymbolsCfg())
      modifies this, in_, in_.r, dict, dict.hist, updates
      ensures Parts() && Counted() && woffset == old(woffset)
      ensures Outcome(Run(in_.r.data, c)) && Saves(old(Books()), Run(in_.r.data, c), 0)
      ensures err == Ok && lo == hi ==> c.p < in_.P()
    {
      hide Tables, BitReader.InStep, Holds, Run, Fetched, Outcome, Saves, Selected, DistCode, Parts, Counted;
      StaleCopy();
      HuffmanBlock();
    }

    /** Reads a fixed block, from the end of its three header bits on; c is the state before them. */
    method FixedBlock(ghost c: Config)
      requires InHeader(c) && Num(in_.r.data, c.p + 1, 2) == 1
      modifies this, in_, in_.r, dict, dict.hist, updates
      ensures Parts() && Counted() && woffset == old(woffset)
      ensures Outcome(Run(in_.r.data, c)) && Saves(old(Books()), Run(in_.r.data, c), 0)
      ensures err == Ok && lo == hi ==> c.p < in_.P()
    {
      hide Tables, BitReader.InStep, Holds, Run, Fetched, Outcome, Saves, Selected, DistCode, Num, FixedLit;
      hide FixedDist, Parts, Counted;
      RunFixed(in_.r.data, c);
      UseFixed();
      SymbolBlock(c);
    }

    /** Reads a dynamic block, from the end of its three header bits on; c is the state before them. */
    method DynamicBlock(ghost c: Config)
      requires InHeader(c) && Num(in_.r.data, c.p + 1, 2) == 2
      modifies this, in_, in_.r, dict, dict.hist, updates, codes.Repr()
      ensures Parts() && Counted() && woffset == old(woffset)
      ensures Outcome(Run(in_.r.data, c)) && Saves(old(Books()), Run(in_.r.data, c), 0)
      ensures err == Ok && lo == hi ==> c.p < in_.P()
    {
      hide Tables, BitReader.InStep, Holds, Run, Fetched, Outcome, Saves, Selected, DistCode, Num, InHeader, Parts;
      hide InBlock;
      DynamicCode(c);
      if err == Ok {
        SymbolBlock(c);
      }
    }

    /** Reads the code of a dynamic block; c is the state before its header. */
    method DynamicCode(ghost c: Config)
      requires InHeader(c) && Num(in_.r.data, c.p + 1, 2) == 2
      modifies `err, `hl, `hd, in_, in_.r, codes.Repr()
      ensures Parts() && Counted()
      ensures err == Ok ==> InBlock() && copyLen == 0 && c.p < in_.P()
      ensures err == Ok ==> Run(in_.r.data, c) == Run(in_.r.data, SymbolsCfg())
      ensures err != Ok ==> Outcome(Run(in_.r.data, c))
      ensures err != Ok ==> Saves(old(Books()), Run(in_.r.data, c), 0)
    {
      hide Tables, BitReader.InStep, Holds, Run, Fetched, Outcome, Saves, Selected, DistCode, DynamicCodes, Num;
      hide HuffmanCodes.Valid, HuffmanDecoder.Valid, Last, Parts, Counted, Live;
      RunDynamic(in_.r.data, c);
      err := UseDynamic();
      if err != Ok {
        DynamicHalts(in_.r.data, c, err);
        Fails(c, 0);
      }
    }

    /** The three header bits of a block have been read; c is the state before them. */
    ghost predicate InHeader(c: Config)
      reads this, in_, in_.r, dict, dict.hist, updates
      reads codes, codes.h1, codes.h1.chunks, codes.h2, codes.h2.chunks, fixed, fixed.chunks
    {
      && Parts() && Counted() && err == Ok && lo == hi && in_.nb < 8 && copyLen == 0
      && dict.wrPos < dict.hist.Length && (stepState == StateDict ==> Reachable())
      && c == Config(Block, c.p, dict.total) && in_.P() == c.p + 3 && Has(in_.r.data, c.p, 3)
      && final == (Num(in_.r.data, c.p, 1) == 1) && Quiet()
    }

    /** Reads the three bits a block starts with; c is the state before them. */
    method BeginBlock(ghost c: Config) returns (typ: nat)
      requires Parts() && Counted() && err == Ok && lo == hi && step == AtBlock && Live() && Quiet() && c == BlockCfg()
      modifies `final, `err, in_, in_.r
      ensures Parts() && Counted()
      ensures err == Ok ==> InHeader(c) && typ == Num(in_.r.data, c.p + 1, 2) < 4
      ensures err != Ok ==> Outcome(Run(in_.r.data, c)) && Saves(Books(), Run(in_.r.data, c), old(EmptyLag(c.p)))
      ensures err != Ok ==> !StoresNothing(in_.r.data, c.p)
    {
      hide Tables, BitReader.InStep, Holds, Run, Fetched, Outcome, Saves, Num, Last;
      var f;
      f, typ, err := in_.ReadBlockHeader();
      if err == Ok {
        final := f;
      } else {
        RunNoHeader(in_.r.data, c);
        HeaderHalts(in_.r.data, c, err);
        Fails(c, old(EmptyLag(c.p)));
      }
    }

    /** A block of the reserved type; c is the state before its header. */
    method ReservedBlock(ghost c: Config)
      requires InHeader(c) && 3 <= Num(in_.r.data, c.p + 1, 2)
      modifies `err
      ensures Parts() && Counted() && Outcome(Run(in_.r.data, c)) && err == Corrupt
      ensures Saves(Books(), Run(in_.r.data, c), old(EmptyLag(c.p)))
    {
      hide Tables, BitReader.InStep, Holds, Run, Fetched, Outcome, Saves, Num, Last;
      RunReserved(in_.r.data, c);
      ReservedBlockHalts(in_.r.data, c);
      err := Corrupt;
      Fails(c, old(EmptyLag(c.p)));
    }

    /** Reads a block. */
    method NextBlock()
      requires Parts() && Counted() && err == Ok && lo == hi && step == AtBlock && Live() && Quiet()
      modifies this, in_, in_.r, dict, dict.hist, updates, buf, codes.Repr()
      ensures Parts() && Counted() && woffset == old(woffset)
      ensures Outcome(Run(in_.r.data, old(BlockCfg())))
      ensures Saves(old(Books()), Run(in_.r.data, old(BlockCfg())), old(EmptyLag(in_.P())))
      ensures err == Ok && lo == hi ==> old(in_.P()) < in_.P()
      ensures old(StoresNothing(in_.r.data, in_.P())) ==> Ended() && hi - lo == old(EmptyLag(in_.P()))
    {
      hide Parts, Counted, InHeader, Run, Outcome, Saves, Num, HuffmanCodes.Valid, Live;
      ghost var c := BlockCfg();
      var typ := BeginBlock(c);
      if err == Ok {
        match typ {
          case 0 =>
            DataBlock(c);
          case 1 =>
            FixedBlock(c);
          case 2 =>
            DynamicBlock(c);
          case _ =>
            ReservedBlock(c);
        }
      }
    }

    lemma Fails(c: Config, lag: nat)
      requires err != Ok && err != Eof && Run(in_.r.data, c).mode.Bad? && c.out == dict.total && lo == hi
      requires Halts(in_.r.data, c, err) && (err != Corrupt ==> in_.Exhausted(err))
      ensures Outcome(Run(in_.r.data, c)) && Saves(Books(), Run(in_.r.data, c), lag)
    {
      hide Run, Halts;
    }

    // Reading

    /** Between two calls of Read: everything handed out is counted. */
    ghost predicate Valid()
      reads this, in_, in_.r, dict, dict.hist, updates, hl, hd
      reads codes, codes.h1, codes.h1.chunks, codes.h2, codes.h2.chunks, fixed, fixed.chunks
    {
      && Parts() && woffset + dict.AvailRead() == base + |dict.total|
      && Heads(goal) && (err != Ok ==> dict.rdPos == dict.wrPos) && (err == Ok && step == AtBlock ==> Quiet())
      && Timely(0)
    }

    /** At the end of a block, the last checkpoint is not further back than a span and a window. */
    ghost predicate Timely(pending: nat)
      reads `err, `step, `woffset, `last
    {
      updates != null && Ended() ==> woffset + pending - last <= (if span < 0 then 0 else span) + WINDOW_SIZE
    }

    /** How much of the machine's output the callers of Read have got. */
    ghost function Given(): nat
      reads `lo, `hi, dict
    {
      var left := dict.wrPos - dict.rdPos + (hi - lo);
      if left <= |dict.total| then |dict.total| - left else 0
    }

    /** The position counted is the position of the first byte not yet handed out: nothing is lost or
        counted twice by a flush. */
    lemma PositionIsGiven()
      requires Valid()
      ensures woffset - (hi - lo) == base + Given() && Given() <= |goal.out|
    {
      hide Tables, BitReader.InStep, Holds, Run, Live;
    }

    /** At the end all output is counted. */
    lemma EndCounted()
      requires Valid()
      ensures err == Eof ==> woffset == base + |goal.out|
    {
      hide Parts, Run;
    }

    lemma ValidParts()
      requires Valid()
      ensures in_.Valid() && IsFixed(fixed) && (updates != null ==> updates.Valid())
      ensures lo <= hi && hi - lo <= WINDOW_SIZE
    {
    }

    lemma GivenIs()
      requires Parts()
      ensures Given() == |dict.total| - dict.AvailRead() - (hi - lo)
    {
      hide Tables, BitReader.InStep, Holds;
    }

    /** How far a step can still go. */
    ghost function StepsLeft(): nat
      reads `step
    {
      if step == AtBlock then 0 else 1
    }

    /** One step of the decompression. */
    method DoStep()
      requires Parts() && Counted() && err == Ok && lo == hi && Live() && Run(in_.r.data, Cfg()) == goal
      requires step == AtBlock ==> Quiet()
      modifies this, in_, in_.r, dict, dict.hist, updates, buf, codes.Repr()
      ensures Parts() && Counted() && woffset == old(woffset) && Outcome(goal)
      ensures Saves(old(Books()), goal, if old(step) == AtBlock then old(EmptyLag(in_.P())) else 0)
      ensures old(step == AtBlock && StoresNothing(in_.r.data, in_.P())) ==>
                Ended() && hi - lo == old(EmptyLag(in_.P()))
      ensures err == Ok && lo == hi ==>
                old(in_.P()) < in_.P() || (old(in_.P()) == in_.P() && StepsLeft() < old(StepsLeft()))
    {
      hide Tables, BitReader.InStep, Holds, Run, Fetched, Outcome, Saves, Selected, DistCode, Parts;
      match step {
        case AtBlock =>
          NextBlock();
        case AtHuffman =>
          HuffmanBlock();
        case AtData =>
          CopyData();
      }
    }

    /** Counts what a step has handed out; after an error, all the rest is handed out. */
    method Settle()
      requires Parts() && Counted() && Outcome(goal) && Timely(hi - lo)
      modifies `woffset, `lo, `hi, dict
      ensures Valid() && Given() == old(Given())
      ensures old(lo < hi) ==> lo < hi
      ensures old(woffset + (hi - lo)) <= woffset
    {
      hide Tables, BitReader.InStep, Holds, Run, Fetched, Decompressor.Live, Decompressor.Cfg, Cut;
      hide BitReader.Exhausted;
      woffset := woffset + (hi - lo);
      if err != Ok && lo == hi {
        Flush(); // what is left in case of error
        woffset := woffset + (hi - lo);
      }
    }

    /** Copies to b what has been fetched for it. */
    method CopyOut(b: array<byte>) returns (n: nat)
      requires Valid() && b != dict.hist && b != buf
      modifies `lo, b
      ensures Valid() && n == Min(b.Length, old(hi - lo)) && hi - lo == old(hi - lo) - n
      ensures Given() == old(Given()) + n <= |goal.out| && b[..n] == goal.out[old(Given())..Given()]
      ensures forall i | n <= i < b.Length :: b[i] == old(b[i])
    {
      hide Decompressor.Valid, Decompressor.Given;
      n := PendingUpTo(b.Length);
      Upcoming(n);
      ghost var part := goal.out[Given()..Given() + n];
      forall i | 0 <= i < n {
        b[i] := dict.hist[lo + i];
      }
      Filled(b, n);
      assert b[..n] == part;
      Taken(n);
      assert b[..n] == part;
    }

    lemma Filled(b: array<byte>, n: nat)
      requires n <= b.Length && lo + n <= dict.hist.Length && forall i | 0 <= i < n :: b[i] == dict.hist[lo + i]
      ensures b[..n] == dict.hist[lo..lo + n]
    {
    }

    method PendingUpTo(m: nat) returns (n: nat)
      requires Valid()
      ensures n == Min(m, hi - lo) && lo + n <= hi <= dict.hist.Length
    {
      hide Tables, BitReader.InStep, Holds, Run, Decompressor.Heads;
      n := Min(m, hi - lo);
    }

    method Taken(n: nat)
      requires Valid() && lo + n <= hi
      modifies `lo
      ensures Valid() && lo == old(lo) + n && Given() == old(Given()) + n
    {
      hide Tables, BitReader.InStep, Holds, Run, Decompressor.Heads, Timely, Last;
      Upcoming(n);
      lo := lo + n;
    }

    lemma Upcoming(n: nat)
      requires Valid() && n <= hi - lo
      ensures Given() + n <= |goal.out| && dict.hist[lo..lo + n] == goal.out[Given()..Given() + n]
      ensures dict.hist[..][lo + n..hi]
           == dict.total[|dict.total| - dict.AvailRead() - (hi - lo - n)..|dict.total| - dict.AvailRead()]
    {
      hide Tables, BitReader.InStep, Holds, Run, Selected, DistCode;
      PartOf(dict.hist[..], lo, hi, n, dict.total, Given(), goal.out);
    }

    static lemma PartOf(h: seq<byte>, lo: nat, hi: nat, n: nat, t: seq<byte>, k: nat, out: seq<byte>)
      requires lo + n <= hi <= |h| && k + (hi - lo) <= |t| && h[lo..hi] == t[k..k + hi - lo] && t <= out
      ensures h[lo..lo + n] == out[k..k + n] && h[lo + n..hi] == t[k + n..k + hi - lo]
    {
      assert h[lo..hi][..n] == h[lo..lo + n] && h[lo..hi][n..] == h[lo + n..hi];
    }

    /** Reads decompressed bytes. Each call hands out the next part of the machine's output: whatever
        the sizes of the buffers, all of it is handed out once and in order. The end is reported when
        all is handed out, and with it how far the compressed data goes; an error only when the
        stream is bad. */
    method Read(b: array<byte>) returns (n: nat, e: Err)
      requires Valid() && b != dict.hist && b != buf
      modifies this, in_, in_.r, dict, dict.hist, updates, buf, codes.Repr(), b
      ensures Valid()
      ensures n <= b.Length && Given() == old(Given()) + n <= |goal.out| && b[..n] == goal.out[old(Given())..Given()]
      ensures forall i | n <= i < b.Length :: b[i] == old(b[i])
      ensures e == Ok ==> (0 < n || b.Length == 0) && (err == Ok || lo < hi)
      ensures e == Eof ==> goal == Config(Done, in_.P(), dict.total) && Given() == |goal.out| && in_.nb < 8 && lo == hi
      ensures e !in {Ok, Eof} ==> Cut(in_.r.data, goal, goal.out[..Given()], e) && (e != Corrupt ==> in_.Exhausted(e))
      ensures old(err) != Ok ==> err == old(err) && woffset == old(woffset) && Books() == old(Books())
      ensures SentSome(in_.r.data, old(Books()), Books(), base, goal, old(woffset), woffset, span, err == Eof)
      ensures Spaced(old(Books()), Books(), span)
    {
      hide Tables, BitReader.InStep, Holds, Run, Fetched, Selected, DistCode, SentSome, SentOne, Spaced, Halts, Cut;
      hide Hopeless, BitReader.Exhausted, Decompressor.Live;
      SentNone(in_.r.data, Books(), base, goal, woffset, span, err == Eof);
      while true
        invariant Valid() && Given() == old(Given()) && b[..] == old(b[..])
        invariant old(err) != Ok ==> err == old(err) && woffset == old(woffset) && Books() == old(Books())
        invariant SentSome(in_.r.data, old(Books()), Books(), base, goal, old(woffset), woffset, span, err == Eof)
        invariant Spaced(old(Books()), Books(), span)
        decreases if err == Ok && lo == hi then 1 else 0, 8 * |in_.r.data| - in_.P(), StepsLeft()
      {
        if lo < hi {
          n := CopyOut(b);
          e := if lo == hi then err else Ok;
          CutShort();
          return;
        }
        if err != Ok {
          CutShort();
          return 0, err;
        }
        Advance(old(Books()), old(woffset));
      }
    }

    /** After an error, all the decoder has written has been handed out. */
    lemma CutShort()
      requires Valid()
      ensures err !in {Ok, Eof} && lo == hi ==>
                && Given() <= |goal.out| && Cut(in_.r.data, goal, goal.out[..Given()], err)
                && (err != Corrupt ==> in_.Exhausted(err))
    {
      hide Tables, BitReader.InStep, Holds, Run, Fetched, Halts;
      assert err !in {Ok, Eof} ==> goal.out[..|dict.total|] == dict.total;
    }

    /** A step, and what Read does after it. */
    method Advance(ghost was: Book, ghost from: int)
      requires Valid() && err == Ok && lo == hi
      requires SentSome(in_.r.data, was, Books(), base, goal, from, woffset, span, false) && Spaced(was, Books(), span)
      modifies this, in_, in_.r, dict, dict.hist, updates, buf, codes.Repr()
      ensures Valid() && Given() == old(Given())
      ensures SentSome(in_.r.data, was, Books(), base, goal, from, woffset, span, err == Eof)
              && Spaced(was, Books(), span)
      ensures err == Ok && lo == hi ==>
                old(in_.P()) < in_.P() || (old(in_.P()) == in_.P() && StepsLeft() < old(StepsLeft()))
    {
      hide Tables, BitReader.InStep, Holds, Run, Fetched, Selected, DistCode, SentSome, SentOne, Live, Spaced;
      ghost var mid, at := Books(), woffset;
      ghost var lag := if step == AtBlock then EmptyLag(in_.P()) else 0;
      GivenIs();
      LagBound(lag);
      DoStep();
      GivenIs();
      Recorded(was, mid, from, at, lag);
      ghost var to := woffset + (hi - lo);
      Settle();
      SentLater(in_.r.data, was, Books(), base, goal, from, to, woffset, span, err == Eof, err == Eof);
    }

    lemma LagBound(lag: nat)
      requires Valid() && err == Ok && lo == hi
      requires lag == if step == AtBlock then EmptyLag(in_.P()) else 0
      ensures lag <= WINDOW_SIZE && (0 < lag && updates != null && 0 <= span ==> woffset - last <= span)
    {
      hide Tables, BitReader.InStep, Run, Fetched, Live, StoresNothing;
    }

    /** What a step has sent is one more checkpoint, or none was due. A checkpoint is only due after
        more than a span of output, so that the end of the block before has saved what a stored block
        of length zero hands out. */
    lemma Recorded(was: Book, mid: Book, from: int, at: int, lag: nat)
      requires SentSome(in_.r.data, was, mid, base, goal, from, at, span, false) && Spaced(was, mid, span)
      requires woffset == at && Parts() && Saves(mid, goal, lag) && lag <= WINDOW_SIZE
      requires 0 < lag ==> hi - lo == lag && (updates != null && 0 <= span ==> at - mid.last <= span)
      ensures SentSome(in_.r.data, was, Books(), base, goal, from, woffset + (hi - lo), span, err == Eof)
      ensures Spaced(was, Books(), span) && Timely(hi - lo)
    {
      hide Tables, BitReader.InStep, Holds, Run, SentSome, Spaced;
      var w, to := woffset + (hi - lo) - lag, woffset + (hi - lo);
      if updates != null && Ended() && w - mid.last > span {
        SentMore(in_.r.data, was, mid, Books(), base, goal, from, at, w, lag, to, span, err == Eof);
      } else {
        SentLater(in_.r.data, was, mid, base, goal, from, at, to, span, false, err == Eof);
      }
    }
  }

  // Why decoders stop

  lemma NoSymbolHalts(d: seq<byte>, c: Config, min: nat, e: Err)
    requires c.mode.Symbols? && min <= EndBits(c.mode.lit)
    requires SymbolAt(c.mode.lit, d, c.p) == None || 8 * |d| < c.p + min
    requires e == Corrupt ==> Dead(c.mode.lit, d, c.p)
    ensures Halts(d, c, e)
  {
    hide SymbolAt, EndBits;
  }

  lemma ReservedHalts(d: seq<byte>, c: Config, v: nat)
    requires c.mode.Symbols? && c.p <= 8 * |d| && SymbolAt(c.mode.lit, d, c.p) == Some(v) && MAX_NUM_LIT <= v
    ensures Halts(d, c, Corrupt)
  {
    hide SymbolAt;
    forall x | d <= x ensures Step(x, c).mode.Bad? {
      SymbolMoved(x, d, 0, c.mode.lit, c.p);
    }
  }

  /** The match whose symbol v ends at p is bad, whatever follows the data. */
  ghost predicate NoMatchStep(d: seq<byte>, c: Config, p: nat, v: nat)
    requires c.mode.Symbols? && 257 <= v < MAX_NUM_LIT && c.p < p <= 8 * |d|
  {
    forall x | d <= x :: MatchStep(x, c, p, v).mode.Bad?
  }

  lemma NoMatchSteps(d: seq<byte>, c: Config, p: nat, v: nat)
    requires c.mode.Symbols? && 257 <= v < MAX_NUM_LIT && c.p < p <= 8 * |d|
    ensures NoMatchAt(d, p, v, c.mode.dist) ==> NoMatchStep(d, c, p, v)
  {
    hide MatchAt, MatchStep;
    if NoMatchAt(d, p, v, c.mode.dist) {
      forall x | d <= x ensures MatchStep(x, c, p, v).mode.Bad? {
        MatchStepIs(x, c, p, v);
      }
    }
  }

  lemma FarMatchSteps(d: seq<byte>, c: Config, p: nat, v: nat, length: nat, dist: nat, q: nat)
    requires c.mode.Symbols? && 257 <= v < MAX_NUM_LIT && c.p < p <= 8 * |d|
    requires MatchAt(d, p, v, c.mode.dist) == Some((length, dist, q)) && dist > Min(|c.out|, WINDOW_SIZE)
    ensures NoMatchStep(d, c, p, v)
  {
    hide LengthAt, DistAt, MatchStep;
    forall x | d <= x ensures MatchStep(x, c, p, v).mode.Bad? {
      LengthMoved(x, d, 0, p, v);
      DistMoved(x, d, 0, LengthAt(d, p, v).value.1, c.mode.dist);
      MatchStepIs(x, c, p, v);
    }
  }

  lemma MatchHalts(d: seq<byte>, c: Config, p: nat, v: nat, e: Err)
    requires c.mode.Symbols? && 257 <= v < MAX_NUM_LIT && c.p < p <= 8 * |d|
    requires SymbolAt(c.mode.lit, d, c.p) == Some(v) && p == c.p + c.mode.lit[v] && MatchStep(d, c, p, v).mode.Bad?
    requires e == Corrupt ==> NoMatchStep(d, c, p, v)
    ensures Halts(d, c, e)
  {
    hide SymbolAt, MatchStep;
    if e == Corrupt {
      forall x | d <= x ensures Step(x, c).mode.Bad? {
        SymbolMoved(x, d, 0, c.mode.lit, c.p);
      }
    }
  }

  lemma RawHalts(d: seq<byte>, len: nat, final: bool, q: nat, out: seq<byte>, e: Err)
    requires 0 < len && |d| <= q && e != Corrupt
    ensures Halts(d, Config(Raw(len, final), 8 * q, out), e)
  {
    assert 8 * q / 8 == q;
  }

  lemma StoredHalts(d: seq<byte>, c: Config, e: Err)
    requires c.mode.Block? && Has(d, c.p, 3) && Num(d, c.p + 1, 2) == 0 && StoredLen(d, c.p + 3) == None
    requires e == Corrupt ==> NextByte(c.p + 3) + 4 <= |d|
    ensures Halts(d, c, e)
  {
    hide Num, StoredLen, FixedLit, FixedDist, DynamicCodes, NextByte;
    if e == Corrupt {
      forall x | d <= x ensures Step(x, c).mode.Bad? {
        NumMoved(x, d, 0, c.p + 1, 2);
        StoredLenMoved(x, d, 0, c.p + 3);
      }
    }
  }

  lemma DynamicHalts(d: seq<byte>, c: Config, e: Err)
    requires c.mode.Block? && Has(d, c.p, 3) && Num(d, c.p + 1, 2) == 2 && DynamicCodes(d, c.p + 3) == None
    requires e == Corrupt ==> NoCodes(d, c.p + 3)
    ensures Halts(d, c, e)
  {
    hide Num, FixedLit, FixedDist, DynamicCodes, StoredLen;
    if e == Corrupt {
      forall x | d <= x ensures Step(x, c).mode.Bad? {
        NumMoved(x, d, 0, c.p + 1, 2);
      }
    }
  }

  lemma HeaderHalts(d: seq<byte>, c: Config, e: Err)
    requires c.mode.Block? && !Has(d, c.p, 3) && e != Corrupt
    ensures Halts(d, c, e)
  {
  }

  lemma ReservedBlockHalts(d: seq<byte>, c: Config)
    requires c.mode.Block? && Has(d, c.p, 3) && 3 <= Num(d, c.p + 1, 2)
    ensures Halts(d, c, Corrupt)
  {
    hide Num, FixedLit, FixedDist, DynamicCodes, StoredLen;
    forall x | d <= x ensures Step(x, c).mode.Bad? {
      NumMoved(x, d, 0, c.p + 1, 2);
    }
  }

  lemma EndBitsBound(l: seq<nat>, m: nat)
    requires m <= EndBits(l)
    ensures END_OF_BLOCK < |l| && 0 < l[END_OF_BLOCK] ==> m <= l[END_OF_BLOCK]
  {
  }

  lemma FixedLitEnd()
    ensures EndBits(FixedLit()) == 7
  {
  }

  lemma HeaderBytes(b: seq<byte>, d: seq<byte>, q: nat)
    requires |b| == 4 && q + 4 <= |d| && b[0..0 + 4] == d[q..q + 4]
    ensures b[0] as int + 256 * b[1] as int == Word(d, q)
    ensures b[2] as int + 256 * b[3] as int == Word(d, q + 2)
  {
    assert forall i | 0 <= i < 4 :: b[0..0 + 4][i] == b[i] && d[q..q + 4][i] == d[q + i];
  }

  lemma CopyNothing(h: seq<byte>, dist: nat)
    requires 0 < dist <= |h|
    ensures CopyBytes(h, dist, 0) == h
  {
  }

  lemma TailSlice(t: seq<byte>, n: nat)
    requires n <= |t|
    ensures t[|t| - 0 - n..|t| - 0] == t[|t| - n..]
  {
  }
}
