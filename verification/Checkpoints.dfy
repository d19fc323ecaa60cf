/** Checkpoints: what the inflater saves at the end of a block, and the channel it sends them on. */
module Checkpoints {
  import opened Bits
  import opened Window
  import opened Deflate

  datatype Checkpoint = Checkpoint(
    /** Offset of the next byte to read from the compressed file. */
    input: int,
    /** Offset in the uncompressed data, as the inflater counts it. */
    out: int,
    /** Bits already taken from the file and not yet used. */
    b: nat, nb: nat,
    /** The window buffer with its positions; empty at the start of a member. */
    hist: seq<byte>, wrPos: nat, rdPos: nat, full: bool)

  /** The window buffer a checkpoint restores: what was saved, padded with zeros. */
  function Padded(hist: seq<byte>): (h: seq<byte>)
    ensures |h| == WINDOW_SIZE
  {
    seq(WINDOW_SIZE, i requires 0 <= i => if i < |hist| then hist[i] else 0)
  }

  /** The bytes back-references can reach after resuming. */
  function Reach(cp: Checkpoint): seq<byte>
    requires cp.wrPos <= WINDOW_SIZE
  {
    Kept(Padded(cp.hist), cp.wrPos, 0, cp.full)
  }

  predicate WellFormed(d: seq<byte>, cp: Checkpoint) {
    && cp.nb < 8 && 0 <= cp.input <= |d| && cp.nb <= 8 * cp.input
    && cp.b == Num(d, 8 * cp.input - cp.nb, cp.nb)
    && cp.rdPos <= cp.wrPos < WINDOW_SIZE
  }

  /** The state of the machine a decoder starts in when it continues from a checkpoint. */
  function Resumed(cp: Checkpoint): Config
    requires cp.nb <= 8 * cp.input && cp.wrPos <= WINDOW_SIZE
  {
    Config(Block, 8 * cp.input - cp.nb, Reach(cp))
  }

  /** What is known of a checkpoint when it is sent: the state of the machine, and how many bytes
      are handed out but not counted in `out`. */
  datatype Note = Note(cfg: Config, lag: nat)

  /** A checkpoint is a faithful picture of the state of the machine: the position in bits, the
      window, and the position in the data of the first byte not yet handed out, which is `out`
      plus the lag. `base` is the position in the data where the member starts. */
  ghost predicate Pictures(d: seq<byte>, cp: Checkpoint, note: Note, base: int) {
    && WellFormed(d, cp)
    && note.cfg.p == 8 * cp.input - cp.nb
    && (note.cfg.mode.Block? || (note.cfg.mode.Done? && cp.rdPos == cp.wrPos))
    && Reach(cp) == Last(note.cfg.out, WINDOW_SIZE)
    && cp.wrPos - cp.rdPos <= |note.cfg.out|
    && cp.out + note.lag == base + |note.cfg.out| - (cp.wrPos - cp.rdPos)
  }

  class Channel {
    var sent: seq<Checkpoint>
    ghost var notes: seq<Note>

    ghost predicate Valid()
      reads this
    {
      |sent| == |notes|
    }

    constructor ()
      ensures Valid() && sent == []
    {
      sent, notes := [], [];
    }

    method Send(cp: Checkpoint, ghost note: Note)
      requires Valid()
      modifies this
      ensures Valid() && sent == old(sent) + [cp] && notes == old(notes) + [note]
    {
      sent := sent + [cp];
      notes := notes + [note];
    }
  }

  /** What has been sent, and the position counted from for the next checkpoint. */
  datatype Book = Book(sent: seq<Checkpoint>, notes: seq<Note>, last: int)

  /** One checkpoint is sent: a picture of a state from which the machine ends in `goal`. */
  ghost predicate SentOne(d: seq<byte>, was: Book, now: Book, base: int, goal: Config, w: int, lag: nat, ended: bool) {
    exists cp, note ::
      && now == Book(was.sent + [cp], was.notes + [note], w)
      && Pictures(d, cp, note, base) && Run(d, note.cfg) == goal
      && cp.out == w && note.lag == lag && (note.cfg.mode.Done? ==> ended)
  }

  /** The checkpoints sent since then are pictures of states from which the machine ends in `goal`, in
      the order of the output, all counted between `from` and `to`. None leaves out bytes unless the
      span is negative. One taken at the end of the last block is the last. */
  ghost predicate SentSome(d: seq<byte>, was: Book, now: Book, base: int, goal: Config, from: int, to: int,
                           span: int, ended: bool)
  {
    var s, n, s', n' := was.sent, was.notes, now.sent, now.notes;
    && |s| == |n| && |s'| == |n'| && s <= s' && n <= n' && from <= to
    && (forall i | |s| <= i < |s'| ::
          && Pictures(d, s'[i], n'[i], base) && Run(d, n'[i].cfg) == goal && from <= s'[i].out <= to
          && (0 <= span ==> n'[i].lag == 0)
          && (n'[i].cfg.mode.Done? ==> i == |s'| - 1 && ended))
    && (forall i, j | |s| <= i < j < |s'| :: s'[i].out <= s'[j].out)
  }

  /** The position from which the distance to checkpoint i is counted. */
  function Before(was: Book, sent: seq<Checkpoint>, i: nat): int
    requires |was.sent| <= i <= |sent|
  {
    if i == |was.sent| then was.last else sent[i - 1].out
  }

  /** Each of the checkpoints sent since then is more than a span after the one before it. */
  ghost predicate Spaced(was: Book, now: Book, span: int) {
    && |was.sent| <= |now.sent|
    && now.last == (if |now.sent| == |was.sent| then was.last else now.sent[|now.sent| - 1].out)
    && forall i | |was.sent| <= i < |now.sent| :: now.sent[i].out - Before(was, now.sent, i) > span
  }

  lemma SentNone(d: seq<byte>, b: Book, base: int, goal: Config, from: int, span: int, ended: bool)
    requires |b.sent| == |b.notes|
    ensures SentSome(d, b, b, base, goal, from, from, span, ended) && Spaced(b, b, span)
  {
  }

  lemma SentLater(d: seq<byte>, was: Book, now: Book, base: int, goal: Config, from: int, to: int, to': int, span: int,
                  ended: bool, ended': bool)
    requires SentSome(d, was, now, base, goal, from, to, span, ended) && to <= to' && (ended ==> ended')
    ensures SentSome(d, was, now, base, goal, from, to', span, ended')
  {
    hide Pictures, Run;
  }

  /** Sending goes on. */
  lemma SentMore(d: seq<byte>, was: Book, mid: Book, now: Book, base: int, goal: Config, from: int, at: int,
                 w: int, lag: nat, to: int, span: int, ended: bool)
    requires SentSome(d, was, mid, base, goal, from, at, span, false) && Spaced(was, mid, span)
    requires SentOne(d, mid, now, base, goal, w, lag, ended) && at <= w <= to
    requires w - mid.last > span && (0 <= span ==> lag == 0)
    ensures SentSome(d, was, now, base, goal, from, to, span, ended) && Spaced(was, now, span)
  {
    hide Pictures, Run, Spaced;
    SpacedMore(was, mid, now, w, span);
  }

  lemma SpacedMore(was: Book, mid: Book, now: Book, w: int, span: int)
    requires Spaced(was, mid, span) && w - mid.last > span
    requires |now.sent| == |mid.sent| + 1 && mid.sent <= now.sent && now.last == w == now.sent[|mid.sent|].out
    ensures Spaced(was, now, span)
  {
    var m := |mid.sent|;
    forall i | |was.sent| <= i < |now.sent|
      ensures now.sent[i].out - Before(was, now.sent, i) > span
    {
      assert Before(was, now.sent, i) == Before(was, mid.sent, i);
      if i < m {
        assert now.sent[i] == mid.sent[i];
      }
    }
  }
}
