/** Reading a gzip file: the member loop, the checks, and the checkpoints at the start of members. */
module Gzip {
  import opened Bits
  import opened Canonical
  import opened HuffmanTable
  import opened Window
  import opened Deflate
  import opened Input
  import opened Checkpoints
  import opened Resume
  import opened Inflate
  import opened Checksum
  import opened Members

  /** What is promised of a checkpoint sent while reading the file `plain`: its position, `out` plus
      the lag, is one in the file; and if the file is good, a reader that continues from it delivers
      the rest from that position on. One taken at the end of a member stands before the trailer,
      with the members that make up the rest after it. */
  ghost predicate Faithful(d: seq<byte>, cp: Checkpoint, note: Note, plain: Decoded, clean: bool) {
    var pos := cp.out + note.lag;
    && WellFormed(d, cp) && 0 <= pos <= |plain.out|
    && match note.cfg.mode
       case Block => plain.ok ==> Remaining(d, cp, clean) == Decoded(plain.out[pos..], true)
       case Done =>
         && cp.rdPos == cp.wrPos
         && (plain.ok ==>
               cp.input + 8 <= |d| && From(d, cp.input + 8, true, clean) == Decoded(plain.out[pos..], true))
       case _ => false
  }

  /** What a reader that continues from cp delivers. */
  function Remaining(d: seq<byte>, cp: Checkpoint, clean: bool): Decoded
    requires WellFormed(d, cp)
  {
    RunInside(d, Resumed(cp));
    Rest(d, Run(d, Resumed(cp)), Skipped(cp), false, clean)
  }

  /** The current member in the whole output: it begins at position m, with byte k of what its
      decoder starts or ends with. */
  ghost predicate Tracks(d: seq<byte>, plain: Decoded, goal: Config, m: int, k: nat, checked: bool, clean: bool) {
    && Stopped(goal) && goal.p <= 8 * |d| && k <= |goal.out| && 0 <= m <= |plain.out|
    && Decoded(plain.out[m..], plain.ok) == Rest(d, goal, k, checked, clean)
  }

  lemma SentIsFaithful(d: seq<byte>, cp: Checkpoint, note: Note, plain: Decoded, base: int, clean: bool)
    requires Pictures(d, cp, note, base) && Tracks(d, plain, Run(d, note.cfg), base, 0, true, clean)
    ensures Faithful(d, cp, note, plain, clean)
  {
    hide Run, Kept, Padded, Num, Sealed, From;
    var goal := Run(d, note.cfg);
    BadMember(d, plain, goal, base, 0, true, clean);
    if note.cfg.mode.Done? {
      RunStopped(d, note.cfg);
      EndPosition(d, cp, note, base);
      AfterMember(d, plain, goal, base, 0, true, clean);
    } else {
      ResumeFrom(d, cp, note, base);
      if plain.ok {
        RestOfMember(d, plain, goal, base, cp.out + note.lag - base, clean);
        RunInside(d, Resumed(cp));
        assert Run(d, Resumed(cp)).out[Skipped(cp)..] == goal.out[cp.out + note.lag - base..];
      }
    }
  }

  // Continuing at the end of a member

  /** When no block starts at bit p. */
  lemma NoBlockIff(d: seq<byte>, p: nat)
    ensures BlockStep(d, p) == None <==>
            || !Has(d, p, 3) || Num(d, p + 1, 2) == 3
            || (Num(d, p + 1, 2) == 0 && StoredLen(d, p + 3) == None)
            || (Num(d, p + 1, 2) == 2 && DynamicCodes(d, p + 3) == None)
  {
    hide Num, StoredLen, DynamicCodes, FixedLit, FixedDist;
    if Has(d, p, 3) {
      TypeBound(d, p + 1);
    }
  }

  /** A reader that continues from a checkpoint at the end of a member takes what stands there, the
      trailer, for compressed data. If that does not start a block, it delivers nothing and fails. */
  lemma ContinuesAtTrailer(d: seq<byte>, cp: Checkpoint, clean: bool)
    requires WellFormed(d, cp) && cp.rdPos == cp.wrPos && BlockStep(d, 8 * cp.input - cp.nb) == None
    ensures Remaining(d, cp, clean) == Decoded([], false)
  {
    hide Run, BlockStep, Kept, Padded;
    var c := Resumed(cp);
    RunStep(d, c);
    RunStopped(d, c.(mode := Bad));
    assert c.out[Skipped(cp)..] == [];
  }

  /** That is so if the last block ends three bits or more before the next byte, the bits to there are
      zero, and the two halves of the checksum in the trailer are not each other's complement: the bits
      are read as the header of a stored block, and the checksum as its length. */
  lemma PaddingThenTrailer(d: seq<byte>, cp: Checkpoint, clean: bool)
    requires WellFormed(d, cp) && cp.rdPos == cp.wrPos && cp.input + 8 <= |d|
    requires 3 <= cp.nb && Num(d, 8 * cp.input - cp.nb, 3) == 0
    requires Word(d, cp.input) + Word(d, cp.input + 2) != 0xFFFF
    ensures Remaining(d, cp, clean) == Decoded([], false)
  {
    hide Num, Kept, Padded, StoredLen, DynamicCodes, Remaining;
    var p := 8 * cp.input - cp.nb;
    Pow2Values();
    NumSplit(d, p, 1, 2);
    PaddedLength(d, cp.input, cp.nb);
    NoBlockIff(d, p);
    ContinuesAtTrailer(d, cp, clean);
  }

  lemma PaddedLength(d: seq<byte>, q: nat, nb: nat)
    requires 3 <= nb < 8 && nb <= 8 * q && q + 4 <= |d| && Word(d, q) + Word(d, q + 2) != 0xFFFF
    ensures StoredLen(d, 8 * q - nb + 3) == None
  {
    assert NextByte(8 * q - nb + 3) == q;
  }

  /** From byte x of the member on, the file is that part of the whole output. */
  lemma RestOfMember(d: seq<byte>, plain: Decoded, goal: Config, m: int, x: nat, clean: bool)
    requires Tracks(d, plain, goal, m, 0, true, clean) && x <= |goal.out| && plain.ok
    ensures m + x <= |plain.out| && Rest(d, goal, x, false, clean) == Decoded(plain.out[m + x..], true)
  {
    hide Sealed, From;
    RestFrom(d, goal, 0, x, true, clean);
    assert goal.out[0..x] + Rest(d, goal, x, true, clean).out == plain.out[m..];
    assert plain.out[m + x..] == plain.out[m..][x..];
    UncheckedRest(d, goal, x, clean);
  }

  /** The trailer of a member either shows that the file is bad, or the next member follows. */
  lemma AfterMember(d: seq<byte>, plain: Decoded, goal: Config, m: int, k: nat, checked: bool, clean: bool)
    requires Tracks(d, plain, goal, m, k, checked, clean) && goal.mode.Done?
    ensures var q, end := NextByte(goal.p), m + |goal.out| - k;
            if q + 8 > |d| || (checked && !Sealed(d, q, goal.out)) then !plain.ok && end == |plain.out|
            else 0 <= end <= |plain.out| && Decoded(plain.out[end..], plain.ok) == From(d, q + 8, checked, clean)
  {
    hide From, Sealed, Run;
    var x := plain.out[m..];
    assert x[|goal.out| - k..] == plain.out[m + |goal.out| - k..];
    assert x[..|goal.out| - k] == goal.out[k..];
  }

  /** The file ends before the next member, or has no good header there, or the member follows. */
  lemma MemberFollows(d: seq<byte>, plain: Decoded, m: int, q: nat, checked: bool, clean: bool)
    requires 0 <= m <= |plain.out| && q <= |d| && Decoded(plain.out[m..], plain.ok) == From(d, q, checked, clean)
    ensures q == |d| ==> plain.ok == clean && m == |plain.out|
    ensures q < |d| && HeaderEnd(d, q).None? ==> !plain.ok && m == |plain.out|
    ensures q < |d| && HeaderEnd(d, q).Some? ==>
              var goal := Run(d, Config(Block, 8 * HeaderEnd(d, q).value, []));
              Tracks(d, plain, goal, m, 0, checked, clean) && 8 * q < goal.p
  {
    hide HeaderEnd, Run, Rest;
    if q < |d| && HeaderEnd(d, q).Some? {
      RunInside(d, Config(Block, 8 * HeaderEnd(d, q).value, []));
    }
  }

  /** A member that fails to decode fails the file. */
  lemma BadMember(d: seq<byte>, plain: Decoded, goal: Config, m: int, k: nat, checked: bool, clean: bool)
    requires Tracks(d, plain, goal, m, k, checked, clean)
    ensures m + |goal.out| - k <= |plain.out|
    ensures forall i | k <= i < |goal.out| :: goal.out[i] == plain.out[m + i - k]
    ensures goal.mode.Bad? ==> !plain.ok
  {
    hide From, Sealed, Run;
    var x := plain.out[m..];
    assert x[..|goal.out| - k] == goal.out[k..];
    forall i | k <= i < |goal.out| ensures goal.out[i] == plain.out[m + i - k] {
      assert goal.out[i] == goal.out[k..][i - k] == x[i - k];
    }
  }

  /** Where the data of the first member ends. */
  function FirstGoal(d: seq<byte>): Config
    requires HeaderEnd(d, 0).Some?
  {
    Run(d, Config(Block, 8 * HeaderEnd(d, 0).value, []))
  }

  /** The file ends with the trailer of its first member. */
  predicate OneMember(d: seq<byte>) {
    HeaderEnd(d, 0).Some? && NextByte(FirstGoal(d).p) + 8 == |d|
  }

  /** The checkpoints sent so far are faithful and in the order of the output. One taken at the end
      of a member is more than a span after the one before it, and is followed by the one at the start
      of the next member, at the same position. */
  ghost predicate Record(d: seq<byte>, sent: seq<Checkpoint>, notes: seq<Note>, plain: Decoded, clean: bool,
                         to: int, span: int)
  {
    && |sent| == |notes|
    && (forall i | 0 <= i < |sent| :: Faithful(d, sent[i], notes[i], plain, clean))
    && (OneMember(d) ==> EndsLast(d, sent, notes))
    && InSequence(sent, notes, to, span)
  }

  /** Checkpoints taken at the end of a member are at the end of the file. */
  ghost predicate EndsLast(d: seq<byte>, sent: seq<Checkpoint>, notes: seq<Note>)
    requires |sent| == |notes|
  {
    forall i | 0 <= i < |sent| && notes[i].cfg.mode.Done? :: sent[i].input + 8 == |d|
  }

  ghost predicate InSequence(sent: seq<Checkpoint>, notes: seq<Note>, to: int, span: int)
    requires |sent| == |notes|
  {
    && (forall i | 0 <= i < |sent| :: sent[i].out <= to && (0 <= span ==> notes[i].lag == 0))
    && (forall i, j | 0 <= i < j < |sent| :: sent[i].out <= sent[j].out)
    && EndsJoined(sent, notes) && EndsApart(sent, notes, span)
  }

  /** A checkpoint at the end of a member is followed by the one at the start of the next. */
  ghost predicate EndsJoined(sent: seq<Checkpoint>, notes: seq<Note>)
    requires |sent| == |notes|
  {
    forall i | 0 <= i < |sent| - 1 && notes[i].cfg.mode.Done? ::
      notes[i + 1].cfg.mode.Block? && sent[i + 1].out == sent[i].out + notes[i].lag
  }

  /** A checkpoint at the end of a member is more than a span after the one before it. */
  ghost predicate EndsApart(sent: seq<Checkpoint>, notes: seq<Note>, span: int)
    requires |sent| == |notes|
  {
    forall i | 0 <= i < |sent| && notes[i].cfg.mode.Done? :: 0 < i && sent[i].out - sent[i - 1].out > span
  }

  /** The last checkpoint was taken at the end of a member, the one just read. */
  predicate AtEnd(notes: seq<Note>) {
    0 < |notes| && notes[|notes| - 1].cfg.mode.Done?
  }

  lemma RecordLength(d: seq<byte>, sent: seq<Checkpoint>, notes: seq<Note>, plain: Decoded, clean: bool, to: int,
                     span: int)
    requires Record(d, sent, notes, plain, clean, to, span)
    ensures |sent| == |notes|
  {
    hide Faithful, InSequence, OneMember;
  }

  lemma RecordNone(d: seq<byte>, plain: Decoded, clean: bool, span: int)
    ensures Record(d, [], [], plain, clean, 0, span)
  {
  }

  lemma RecordMore(d: seq<byte>, was: Book, now: Book, plain: Decoded, clean: bool, base: int, goal: Config,
                   from: int, to: int, span: int, ended: bool)
    requires Record(d, was.sent, was.notes, plain, clean, from, span)
    requires SentSome(d, was, now, base, goal, from, to, span, ended) && Spaced(was, now, span) && Follows(was)
    requires Tracks(d, plain, goal, base, 0, true, clean) && (OneMember(d) ==> goal == FirstGoal(d))
    requires AtEnd(was.notes) ==> now.sent == was.sent && now.notes == was.notes
    ensures Record(d, now.sent, now.notes, plain, clean, to, span) && was.sent <= now.sent && was.notes <= now.notes
    ensures Follows(now)
    ensures AtEnd(now.notes) && !AtEnd(was.notes) ==>
              ended && now.sent[|now.sent| - 1].out + now.notes[|now.notes| - 1].lag == base + |goal.out|
  {
    hide Faithful, Pictures, Run, Tracks, InSequence, OneMember, FirstGoal, Spaced, Follows;
    var s, n, s', n' := was.sent, was.notes, now.sent, now.notes;
    forall i | 0 <= i < |s'|
      ensures Faithful(d, s'[i], n'[i], plain, clean)
      ensures OneMember(d) && n'[i].cfg.mode.Done? ==> s'[i].input + 8 == |d|
    {
      if i < |s| {
        assert s'[i] == s[i] && n'[i] == n[i];
      } else {
        SentIsFaithful(d, s'[i], n'[i], plain, base, clean);
        if n'[i].cfg.mode.Done? && OneMember(d) {
          EndInput(d, s'[i], n'[i], base);
        }
      }
    }
    StillInSequence(d, was, now, base, goal, from, to, span, ended);
    if AtEnd(n') && !AtEnd(n) {
      EndPosition(d, s'[|s'| - 1], n'[|n'| - 1], base);
    }
  }

  lemma StillInSequence(d: seq<byte>, was: Book, now: Book, base: int, goal: Config, from: int, to: int, span: int,
                        ended: bool)
    requires |was.sent| == |was.notes| && InSequence(was.sent, was.notes, from, span)
    requires SentSome(d, was, now, base, goal, from, to, span, ended) && Spaced(was, now, span) && Follows(was)
    requires AtEnd(was.notes) ==> now.sent == was.sent && now.notes == was.notes
    ensures InSequence(now.sent, now.notes, to, span) && Follows(now)
  {
    hide Pictures, Run, Spaced, Follows, EndsJoined, EndsApart;
    var s, s' := was.sent, now.sent;
    forall i, j | 0 <= i < j < |s'| ensures s'[i].out <= s'[j].out {
      if j < |s| {
        assert s'[i] == s[i] && s'[j] == s[j];
      } else if i < |s| {
        assert s'[i] == s[i] && s[i].out <= from;
      }
    }
    StillJoined(d, was, now, base, goal, from, to, span, ended);
    StillApart(was, now, span);
  }

  lemma StillJoined(d: seq<byte>, was: Book, now: Book, base: int, goal: Config, from: int, to: int, span: int,
                    ended: bool)
    requires |was.sent| == |was.notes| && EndsJoined(was.sent, was.notes)
    requires SentSome(d, was, now, base, goal, from, to, span, ended)
    requires AtEnd(was.notes) ==> now.sent == was.sent && now.notes == was.notes
    ensures EndsJoined(now.sent, now.notes)
  {
    hide Pictures, Run;
    var s, n, s', n' := was.sent, was.notes, now.sent, now.notes;
    assert 0 < |s| ==> n'[|s| - 1] == n[|s| - 1];
    forall i | 0 <= i < |s'| - 1 && n'[i].cfg.mode.Done?
      ensures n'[i + 1].cfg.mode.Block? && s'[i + 1].out == s'[i].out + n'[i].lag
    {
      if i + 1 < |s| {
        assert n'[i] == n[i] && n'[i + 1] == n[i + 1] && s'[i] == s[i] && s'[i + 1] == s[i + 1];
      }
    }
  }

  /** There is a checkpoint to count from, and the count goes on from there or from later. */
  ghost predicate Follows(b: Book) {
    b.sent != [] && b.sent[|b.sent| - 1].out <= b.last
  }

  lemma StillApart(was: Book, now: Book, span: int)
    requires |was.sent| == |was.notes| && |now.sent| == |now.notes| && was.sent <= now.sent && was.notes <= now.notes
    requires Spaced(was, now, span) && Follows(was) && EndsApart(was.sent, was.notes, span)
    ensures Follows(now) && EndsApart(now.sent, now.notes, span)
  {
    var k := |was.sent|;
    assert now.sent[k - 1] == was.sent[k - 1];
    forall i | 0 <= i < |now.sent| && now.notes[i].cfg.mode.Done?
      ensures 0 < i && now.sent[i].out - now.sent[i - 1].out > span
    {
      if i < k {
        assert now.sent[i] == was.sent[i] && now.notes[i] == was.notes[i];
        assert now.sent[i - 1] == was.sent[i - 1];
      } else {
        assert now.sent[i].out - Before(was, now.sent, i) > span;
      }
    }
  }

  lemma EndPosition(d: seq<byte>, cp: Checkpoint, note: Note, base: int)
    requires Pictures(d, cp, note, base) && note.cfg.mode.Done?
    ensures cp.out + note.lag == base + |Run(d, note.cfg).out| && cp.input == NextByte(Run(d, note.cfg).p)
  {
    ByteReached(cp.nb, cp.input);
  }

  lemma EndInput(d: seq<byte>, cp: Checkpoint, note: Note, base: int)
    requires Pictures(d, cp, note, base) && note.cfg.mode.Done? && OneMember(d) && Run(d, note.cfg) == FirstGoal(d)
    ensures cp.input + 8 == |d|
  {
    hide Run;
    EndPosition(d, cp, note, base);
  }

  /** The checkpoint sent at the start of a member whose header ends at position h of the file. */
  function StartCheckpoint(h: nat, out: int): Checkpoint {
    Checkpoint(h, out, 0, 0, [], 0, 0, false)
  }

  ghost function StartNote(h: nat): Note {
    Note(Config(Block, 8 * h, []), 0)
  }

  /** The checkpoint at the start of a member is one more. */
  lemma RecordStart(d: seq<byte>, s: seq<Checkpoint>, n: seq<Note>, h: nat, plain: Decoded, clean: bool, base: int,
                    span: int)
    requires Record(d, s, n, plain, clean, base, span) && h <= |d|
    requires Tracks(d, plain, Run(d, Config(Block, 8 * h, [])), base, 0, true, clean)
    requires AtEnd(n) ==> s[|s| - 1].out + n[|n| - 1].lag == base
    ensures Record(d, s + [StartCheckpoint(h, base)], n + [StartNote(h)], plain, clean, base, span)
  {
    hide Faithful, Run, Tracks, InSequence, OneMember;
    var cp, note := StartCheckpoint(h, base), StartNote(h);
    StartPictures(d, h, base);
    SentIsFaithful(d, cp, note, plain, base, clean);
    StartInSequence(s, n, cp, note, base, span);
  }

  lemma StartInSequence(s: seq<Checkpoint>, n: seq<Note>, cp: Checkpoint, note: Note, base: int, span: int)
    requires |s| == |n| && InSequence(s, n, base, span) && cp.out == base && note.lag == 0 && note.cfg.mode.Block?
    requires AtEnd(n) ==> s[|s| - 1].out + n[|n| - 1].lag == base
    ensures InSequence(s + [cp], n + [note], base, span)
  {
  }

  lemma StartPictures(d: seq<byte>, h: nat, base: int)
    requires h <= |d|
    ensures Pictures(d, StartCheckpoint(h, base), StartNote(h), base)
  {
    hide Padded;
    assert Num(d, 8 * h - 0, 0) == 0;
  }

  /** One more piece of the header goes into its checksum. */
  lemma MoreDigested(d: seq<byte>, a: nat, b: nat, c: nat)
    requires a <= b <= c <= |d|
    ensures Update(Update(0, d[a..b]), d[b..c]) == Update(0, d[a..c])
  {
    hide Update;
    UpdateAppend(0, d[a..b], d[b..c]);
    assert d[a..b] + d[b..c] == d[a..c];
  }

  /** A part of the member's output as a part of the whole output. */
  lemma SamePart(x: seq<byte>, whole: seq<byte>, part: seq<byte>, k: nat, shift: int)
    requires k + |part| <= |x| && part == x[k..k + |part|]
    requires 0 <= k + shift && k + |part| + shift <= |whole|
    requires forall i | k <= i < k + |part| :: x[i] == whole[i + shift]
    ensures part == whole[k + shift..k + |part| + shift]
  {
  }

  /** With less than a byte pending, the file has been read up to the end of the current byte. */
  lemma ByteReached(nb: nat, pos: nat)
    requires nb < 8 && nb <= 8 * pos
    ensures NextByte(8 * pos - nb) == pos
  {
  }

  lemma ZeroNext(d: seq<byte>, q: nat, n: nat)
    ensures ZeroEnd(d, q, n) == if n == 0 || q >= |d| then None
                                else if d[q] == 0 then Some(q + 1)
                                else ZeroEnd(d, q + 1, n - 1)
  {
  }

  lemma OneMore(b: seq<byte>, d: seq<byte>, q: nat, i: nat)
    requires i < |b| && q + i < |d| && b[..i] == d[q..q + i] && b[i] == d[q + i]
    ensures b[..i + 1] == d[q..q + i + 1]
  {
    assert b[..i + 1] == b[..i] + [b[i]];
    assert d[q..q + i + 1] == d[q..q + i] + [d[q + i]];
  }

  lemma TrailerBytes(b: seq<byte>, d: seq<byte>, q: nat)
    requires 8 <= |b| && q + 8 <= |d| && b[0..0 + 8] == d[q..q + 8]
    ensures b[0] as int + 256 * b[1] as int + 0x1_0000 * (b[2] as int + 256 * b[3] as int) == Le32(d, q)
    ensures b[4] as int + 256 * b[5] as int + 0x1_0000 * (b[6] as int + 256 * b[7] as int) == Le32(d, q + 4)
  {
    assert forall i | 0 <= i < 8 :: b[0..0 + 8][i] == b[i] && d[q..q + 8][i] == d[q + i];
  }

  /** More has been sent. */
  ghost predicate Extends(was: (seq<Checkpoint>, seq<Note>), now: (seq<Checkpoint>, seq<Note>)) {
    was.0 <= now.0 && was.1 <= now.1
  }

  class GzipReader {
    const r: CountReader
    const fixed: HuffmanDecoder
    const buf: array<byte>
    const span: int
    const from: Option<Checkpoint>
    const updates: Channel?

    var decompressor: Decompressor?
    var digest: u32
    var size: nat
    var err: Err
    /** Bytes handed out. */
    var out: int

    /** All this reader has to deliver. */
    ghost const plain: Decoded
    /** Its position in the data to begin with. */
    ghost const begin: int
    /** How much of the current member's output was handed out before it began. */
    ghost var first: nat

    ghost predicate Ready()
      reads r
    {
      r.Valid() && buf.Length == MAX_STRING
    }

    /** Whether the end of the data is the end of the file. */
    ghost predicate Clean() {
      r.atEnd == Eof
    }

    ghost function Footprint(): set<object?>
      reads `decompressor, decompressor
    {
      {r, buf, updates, fixed, fixed.chunks} + if decompressor == null then {} else decompressor.Footprint()
    }

    ghost predicate Owned()
      reads `decompressor, decompressor, Footprint()
    {
      && decompressor != null && decompressor.Valid()
      && decompressor.in_.r == r && decompressor.fixed == fixed && decompressor.updates == updates
      && decompressor.span == span && buf !in decompressor.Repr() && this !in decompressor.Repr()
    }

    constructor (r: CountReader, fixed: HuffmanDecoder, span: int, from: Option<Checkpoint>, updates: Channel?)
      requires r.Valid() && r.start == r.pos && (from.None? ==> r.pos == 0)
      requires from.Some? ==> WellFormed(r.data, from.value)
      ensures this.r == r && this.fixed == fixed && this.span == span && this.from == from && this.updates == updates
      ensures fresh(buf) && Ready() && decompressor == null && err == Ok && digest == 0 && size == 0 && out == 0
      ensures plain == match from
                       case None => From(r.data, 0, true, Clean())
                       case Some(cp) => Remaining(r.data, cp, Clean())
      ensures begin == match from case None => 0 case Some(cp) => cp.out
      ensures first == match from case None => 0 case Some(cp) => Skipped(cp)
    {
      hide From, Remaining;
      this.r, this.fixed, this.span, this.from, this.updates := r, fixed, span, from, updates;
      buf := new byte[MAX_STRING](_ => 0);
      decompressor, err, digest, size, out := null, Ok, 0, 0, 0;
      plain := match from
               case None => From(r.data, 0, true, r.atEnd == Eof)
               case Some(cp) => Remaining(r.data, cp, r.atEnd == Eof);
      begin := match from case None => 0 case Some(cp) => cp.out;
      first := match from case None => 0 case Some(cp) => Skipped(cp);
    }

    method ReadFixed() returns (e: Err)
      requires Ready()
      modifies `digest, buf, r
      ensures Ready()
      ensures e == Ok ==> FixedEnd(r.data, old(r.pos)) == Some(r.pos) && buf[3] == r.data[old(r.pos) + 3]
      ensures e == Ok ==> r.n == r.pos - r.start && digest == Update(0, r.data[old(r.pos)..r.pos])
      ensures e != Ok ==> FixedEnd(r.data, old(r.pos)) == None
      ensures e != Ok && old(r.pos) == |r.data| ==> e == r.atEnd
      ensures old(r.pos) < |r.data| ==> e != Eof
    {
      hide Update;
      var got;
      got, e := r.ReadFull(buf, 0, 10);
      if e != Ok {
        return;
      }
      assert forall i | 0 <= i < 10 :: buf[0..0 + 10][i] == buf[i];
      if buf[0] != 0x1F || buf[1] != 0x8B || buf[2] != 8 {
        return BadHeader;
      }
      digest := Update(0, buf[..10]);
      assert buf[..10] == r.data[old(r.pos)..r.pos];
    }

    method ReadExtra(flags: byte, ghost q0: nat) returns (e: Err)
      requires Ready() && q0 <= r.pos && digest == Update(0, r.data[q0..r.pos]) && r.n == r.pos - r.start
      modifies `digest, buf, r
      ensures Ready()
      ensures e == Ok ==> ExtraEnd(r.data, old(r.pos), flags) == Some(r.pos)
      ensures e == Ok ==> q0 <= r.pos && digest == Update(0, r.data[q0..r.pos]) && r.n == r.pos - r.start
      ensures e != Ok ==> e != Eof && ExtraEnd(r.data, old(r.pos), flags) == None
    {
      hide Flag, Update;
      if !Flag(flags, EXTRA) {
        return Ok;
      }
      ghost var d, q := r.data, r.pos;
      var got;
      got, e := r.ReadFull(buf, 0, 2);
      if e != Ok {
        return NoEof(e);
      }
      assert buf[0..0 + 2][0] == buf[0] && buf[0..0 + 2][1] == buf[1];
      assert buf[..2] == d[q..q + 2];
      digest := Update(digest, buf[..2]);
      MoreDigested(d, q0, q, q + 2);
      var data := new byte[buf[0] as int + 256 * buf[1] as int];
      got, e := r.ReadFull(data, 0, data.Length);
      if e != Ok {
        return NoEof(e);
      }
      assert data[..] == data[0..0 + got];
      digest := Update(digest, data[..]);
      MoreDigested(d, q0, q + 2, r.pos);
    }

    /** Reads a name or a comment. */
    method ReadString(ghost q0: nat) returns (e: Err)
      requires Ready() && q0 <= r.pos && digest == Update(0, r.data[q0..r.pos]) && r.n == r.pos - r.start
      modifies `digest, buf, r
      ensures Ready()
      ensures e == Ok ==> ZeroEnd(r.data, old(r.pos), MAX_STRING) == Some(r.pos)
      ensures e == Ok ==> q0 <= r.pos && digest == Update(0, r.data[q0..r.pos]) && r.n == r.pos - r.start
      ensures e != Ok ==> ZeroEnd(r.data, old(r.pos), MAX_STRING) == None
    {
      hide Flag, Update, ZeroEnd;
      ghost var d, q, crc := r.data, r.pos, digest;
      var i := 0;
      while true
        invariant Ready() && i <= MAX_STRING && r.pos == q + i && digest == crc && r.n == r.pos - r.start
        invariant buf[..][..i] == d[q..q + i]
        invariant ZeroEnd(d, q + i, MAX_STRING - i) == ZeroEnd(d, q, MAX_STRING)
        decreases MAX_STRING - i
      {
        ZeroNext(d, q + i, MAX_STRING - i);
        if i >= buf.Length {
          return BadHeader;
        }
        var c;
        c, e := r.ReadByte();
        if e != Ok {
          return;
        }
        buf[i] := c;
        OneMore(buf[..], d, q, i);
        if c == 0 {
          digest := Update(digest, buf[..][..i + 1]);
          MoreDigested(d, q0, q, q + i + 1);
          return Ok;
        }
        i := i + 1;
      }
    }

    method ReadName(flags: byte, f: nat, ghost q0: nat) returns (e: Err)
      requires Ready() && q0 <= r.pos && digest == Update(0, r.data[q0..r.pos]) && r.n == r.pos - r.start && 0 < f
      modifies `digest, buf, r
      ensures Ready()
      ensures e == Ok ==> StringEnd(r.data, old(r.pos), flags, f) == Some(r.pos)
      ensures e == Ok ==> q0 <= r.pos && digest == Update(0, r.data[q0..r.pos]) && r.n == r.pos - r.start
      ensures e != Ok ==> e != Eof && StringEnd(r.data, old(r.pos), flags, f) == None
    {
      hide Flag, Update, ZeroEnd;
      if !Flag(flags, f) {
        return Ok;
      }
      e := ReadString(q0);
      e := NoEof(e);
    }

    method ReadHeaderCrc(flags: byte, ghost q0: nat) returns (e: Err)
      requires Ready() && q0 <= r.pos && digest == Update(0, r.data[q0..r.pos]) && r.n == r.pos - r.start
      modifies buf, r
      ensures Ready()
      ensures e == Ok ==> CrcEnd(r.data, q0, old(r.pos), flags) == Some(r.pos) && r.n == r.pos - r.start
      ensures e != Ok ==> e != Eof && CrcEnd(r.data, q0, old(r.pos), flags) == None
    {
      hide Flag, Update;
      if !Flag(flags, HEADER_CRC) {
        return Ok;
      }
      var got;
      got, e := r.ReadFull(buf, 0, 2);
      if e != Ok {
        return NoEof(e);
      }
      assert buf[0..0 + 2][0] == buf[0] && buf[0..0 + 2][1] == buf[1];
      if buf[0] as int + 256 * buf[1] as int != digest % 0x1_0000 {
        return BadHeader;
      }
    }

    /** Reads a header. At the end of the file there is none, and that is a clean end. */
    method ParseHeader() returns (e: Err)
      requires Ready()
      modifies `digest, buf, r
      ensures Ready()
      ensures e == Ok ==> HeaderEnd(r.data, old(r.pos)) == Some(r.pos) && r.n == r.pos - r.start && digest == 0
      ensures e != Ok && old(r.pos) == |r.data| ==> e == r.atEnd
      ensures e != Ok && old(r.pos) < |r.data| ==> e != Eof && HeaderEnd(r.data, old(r.pos)) == None
    {
      hide Update, FixedEnd, ExtraEnd, StringEnd, CrcEnd;
      ghost var q := r.pos;
      e := ReadFixed();
      if e != Ok { return; }
      var flags := buf[3];
      e := ReadExtra(flags, q);
      if e != Ok { return; }
      e := ReadName(flags, NAME, q);
      if e != Ok { return; }
      e := ReadName(flags, COMMENT, q);
      if e != Ok { return; }
      e := ReadHeaderCrc(flags, q);
      if e != Ok { return; }
      digest := 0;
    }

    /** Reads the next header and sets up the decompressor for what follows it: a new one at the first
        member or at the checkpoint to continue from, the old one reset at the others. At the start
        of a member, an empty checkpoint is sent. */
    method ReadHeader() returns (e: Err)
      requires Ready() && IsFixed(fixed) && (updates != null ==> updates.Valid() && r.start == 0)
      requires decompressor == null && from.Some? ==> WellFormed(r.data, from.value) && r.pos == from.value.input
      requires decompressor != null ==>
                 decompressor.in_.r == r && decompressor.fixed == fixed && decompressor.updates == updates
                 && decompressor.span == span
      modifies `digest, `decompressor, buf, r, updates
      ensures Ready()
      ensures e == Ok ==> Owned() && fresh(decompressor.Repr()) && decompressor.lo == decompressor.hi && digest == 0
      ensures e == Ok ==> decompressor.err == Ok
      ensures e == Ok ==>
                if old(decompressor) == null && from.Some? then Continued() else Started(old(r.pos), old(Woffset()))
      ensures e != Ok ==> decompressor == old(decompressor) && !(decompressor == null && from.Some?)
      ensures e != Ok && old(r.pos) == |r.data| ==> e == r.atEnd
      ensures e != Ok && old(r.pos) < |r.data| ==> e != Eof && HeaderEnd(r.data, old(r.pos)) == None
      ensures updates != null ==> updates.Valid()
      ensures updates != null && (e != Ok || (old(decompressor) == null && from.Some?)) ==>
                updates.sent == old(updates.sent) && updates.notes == old(updates.notes)
      ensures updates != null && e == Ok && !(old(decompressor) == null && from.Some?) ==>
                && updates.sent == old(updates.sent) + [StartCheckpoint(r.pos, old(Woffset()))]
                && updates.notes == old(updates.notes) + [StartNote(r.pos)]
    {
      hide IsFixed, HeaderEnd, Decompressor.Valid, Run;
      if decompressor == null && from.Some? {
        digest := 0;
        decompressor := new Decompressor.Continue(r, fixed, from.value, span, updates);
        return Ok;
      }
      e := ParseHeader();
      if e != Ok {
        return;
      }
      if updates != null {
        updates.Send(StartCheckpoint(r.n, Woffset()), StartNote(r.pos));
      }
      if decompressor == null {
        decompressor := new Decompressor.WithSpans(r, fixed, span, r.n, updates);
      } else {
        decompressor := new Decompressor.AfterReset(decompressor, r.n);
      }
    }

    function Woffset(): int
      reads `decompressor, decompressor
    {
      if decompressor == null then 0 else decompressor.woffset
    }

    ghost predicate Continued()
      requires decompressor != null && from.Some? && WellFormed(r.data, from.value)
      reads this, decompressor, if decompressor == null then {} else {decompressor.dict}
    {
      var cp := from.value;
      && decompressor.goal == Run(r.data, Resumed(cp)) && decompressor.woffset == cp.out
      && decompressor.Given() == Skipped(cp) && decompressor.base == cp.out - Skipped(cp)
    }

    ghost predicate Started(q: nat, woffset: int)
      requires decompressor != null
      reads this, decompressor, r, if decompressor == null then {} else {decompressor.dict}
    {
      && HeaderEnd(r.data, q) == Some(r.pos)
      && decompressor.goal == Run(r.data, Config(Block, 8 * r.pos, [])) && decompressor.Given() == 0
      && decompressor.woffset == decompressor.base == woffset && woffset <= decompressor.last
    }

    /** What has been sent. */
    ghost function Channelled(): (seq<Checkpoint>, seq<Note>)
      reads updates
    {
      if updates == null then ([], []) else (updates.sent, updates.notes)
    }

    // Reading

    function Offset(): int
      requires decompressor != null
      reads `decompressor, decompressor
    {
      decompressor.woffset - (decompressor.hi - decompressor.lo)
    }

    /** The current member has been read up to the current position. */
    ghost predicate Flowing()
      requires Owned()
      reads `decompressor, `first, `digest, `size, decompressor, Footprint()
    {
      && Tracks(r.data, plain, decompressor.goal, decompressor.base + first - begin, first, from.None?, Clean())
      && first <= decompressor.Given() <= |decompressor.goal.out|
      && (from.None? ==> first == 0 && Summed(decompressor.goal.out[..decompressor.Given()]))
      && InFirst()
    }

    /** There is no other member to be in. */
    ghost predicate InFirst()
      requires decompressor != null
      reads `decompressor
    {
      from.None? && OneMember(r.data) ==> decompressor.goal == FirstGoal(r.data)
    }

    /** The current member goes on, or not all of its output has been taken. */
    ghost predicate Pending()
      requires decompressor != null
      reads `decompressor, decompressor
    {
      decompressor.err == Ok || decompressor.lo < decompressor.hi
    }

    ghost predicate Summed(x: seq<byte>)
      reads `digest, `size
    {
      digest == Update(0, x) && size == |x| % 0x1_0000_0000
    }

    ghost predicate Recorded()
      reads `decompressor, updates, decompressor
    {
      updates != null ==>
        && from.None? && r.start == 0 && begin == 0
        && updates.sent != [] && updates.sent[0].out == 0
        && decompressor != null && updates.sent[|updates.sent| - 1].out <= decompressor.last
        && Record(r.data, updates.sent, updates.notes, plain, Clean(), Woffset(), span)
        && (AtEnd(updates.notes) ==>
              && decompressor.err == Eof
              && updates.sent[|updates.sent| - 1].out + updates.notes[|updates.notes| - 1].lag == Woffset())
    }

    ghost predicate Valid()
      reads Footprint(), this, decompressor
    {
      && Ready() && IsFixed(fixed) && decompressor != null && Recorded()
      && 0 <= out == Offset() - begin <= |plain.out|
      && match err
         case Ok => Owned() && Flowing() && Pending()
         case Eof => plain.ok && out == |plain.out| && out == Woffset() - begin
         case _ => !plain.ok && (out == |plain.out| || Torn(err))
    }

    /** The data of the current member is bad: the decompressor stops with error e, and all it has written
        has been handed out. */
    ghost predicate Torn(e: Err)
      requires decompressor != null
      reads `decompressor, decompressor, if decompressor == null then {} else {decompressor.dict}
    {
      var d := decompressor;
      d.Given() <= |d.goal.out| && Cut(r.data, d.goal, d.goal.out[..d.Given()], e)
    }

    lemma Standing()
      requires Valid()
      ensures decompressor != null && begin <= Offset() <= begin + |plain.out|
      ensures err == Eof ==> plain.ok && Offset() - begin == |plain.out|
      ensures err !in {Ok, Eof} ==> !plain.ok && (Offset() - begin == |plain.out| || Torn(err))
    {
      hide IsFixed, Decompressor.Valid, Run, Recorded, GzipReader.Flowing, GzipReader.Torn;
    }

    /** What the channel holds. */
    lemma Recording()
      requires Valid() && updates != null
      ensures updates.sent != [] && updates.sent[0].out == 0
      ensures Record(r.data, updates.sent, updates.notes, plain, Clean(), Woffset(), span)
      ensures 0 <= span ==> Record(r.data, updates.sent, updates.notes, plain, Clean(), Woffset(), 0)
      ensures err == Eof && AtEnd(updates.notes) ==>
                |updates.sent| == |updates.notes|
                && updates.sent[|updates.sent| - 1].out + updates.notes[|updates.notes| - 1].lag == |plain.out|
    {
      hide IsFixed, Decompressor.Valid, Run, GzipReader.Flowing, Faithful, GzipReader.Torn;
    }

    /** As long as a checkpoint at the end of a member is the last one, the reader stands before it, by no
        more than a window. */
    lemma StandsBefore()
      requires Valid() && updates != null
      ensures err == Ok && AtEnd(updates.notes) ==>
                && decompressor != null && |updates.sent| == |updates.notes|
                && var end := updates.sent[|updates.sent| - 1].out + updates.notes[|updates.notes| - 1].lag;
                   Offset() < end <= Offset() + WINDOW_SIZE
    {
      hide IsFixed, Decompressor.Valid, Run, GzipReader.Flowing, Record, GzipReader.Torn;
      if err == Ok {
        decompressor.ValidParts();
        RecordLength(r.data, updates.sent, updates.notes, plain, Clean(), Woffset(), span);
      }
    }

    /** A reader at the start of a file or at a checkpoint. There is none if the file does not start
        with a header. */
    static method Open(r: CountReader, fixed: HuffmanDecoder, span: int, from: Option<Checkpoint>, updates: Channel?)
      returns (z: GzipReader?, e: Err)
      requires r.Valid() && r.start == r.pos && IsFixed(fixed) && (from.None? ==> r.pos == 0)
      requires from.Some? ==> updates == null && WellFormed(r.data, from.value) && r.pos == from.value.input
      requires updates != null ==> updates.sent == [] && updates.notes == []
      modifies r, updates
      ensures e == Ok <==> z != null
      ensures z != null ==> z.Valid() && z.err == Ok && z.Offset() == z.begin
      ensures z != null ==> fresh(z) && fresh(z.buf) && fresh(z.decompressor.Repr())
      ensures z != null ==> z.r == r && z.fixed == fixed && z.from == from && z.updates == updates
      ensures z != null ==> z.plain == match from case None => From(r.data, 0, true, r.atEnd == Eof)
                                                  case Some(cp) => Remaining(r.data, cp, r.atEnd == Eof)
      ensures z != null ==> z.begin == match from case None => 0 case Some(cp) => cp.out
      ensures from.Some? ==> z != null
      ensures from.None? ==> (z != null <==> r.data != [] && HeaderEnd(r.data, 0).Some?)
      ensures z == null && r.data == [] ==> e == r.atEnd
      ensures z == null && r.data != [] ==> e != Eof
      ensures z != null && updates != null ==> |updates.sent| == |updates.notes| == 1
      ensures z != null ==> z.span == span
    {
      hide IsFixed, HeaderEnd, Decompressor.Valid, Run, From, Rest, Record;
      z := new GzipReader(r, fixed, span, from, updates);
      e := z.ReadHeader();
      if e != Ok {
        return null, e;
      }
      z.Opened();
    }

    lemma Opened()
      requires Ready() && IsFixed(fixed) && Owned() && err == Ok && out == 0 && digest == 0 && size == 0
      requires decompressor.lo == decompressor.hi && decompressor.err == Ok
      requires from.None? ==> plain == From(r.data, 0, true, Clean()) && begin == 0 && first == 0 && Started(0, 0)
      requires from.Some? ==> WellFormed(r.data, from.value) && plain == Remaining(r.data, from.value, Clean())
      requires from.Some? ==> begin == from.value.out && first == Skipped(from.value) && Continued() && updates == null
      requires updates != null ==>
                 updates.sent == [StartCheckpoint(r.pos, 0)] && updates.notes == [StartNote(r.pos)]
      requires updates != null ==> r.start == 0
      ensures Valid()
    {
      hide IsFixed, HeaderEnd, Decompressor.Valid, Run, From, Rest, Record, Update, Kept, Padded, GzipReader.Recorded;
      decompressor.PositionIsGiven();
      UpdateNothing(0);
      OpenedRecord();
      if from.None? {
        assert plain.out[0..] == plain.out;
        MemberFollows(r.data, plain, 0, 0, true, Clean());
      } else {
        RunInside(r.data, Resumed(from.value));
        assert plain.out[0..] == plain.out;
      }
    }

    lemma OpenedRecord()
      requires Ready() && Owned() && decompressor.lo == decompressor.hi && (updates != null ==> from.None?)
      requires from.None? ==> plain == From(r.data, 0, true, Clean()) && begin == 0 && Started(0, 0)
      requires updates != null ==>
                 updates.sent == [StartCheckpoint(r.pos, 0)] && updates.notes == [StartNote(r.pos)] && r.start == 0
      ensures Recorded()
    {
      hide IsFixed, HeaderEnd, Decompressor.Valid, Run, From, Rest, Record, Update, Kept, Padded;
      if updates != null {
        decompressor.PositionIsGiven();
        MemberFollows(r.data, plain, 0, 0, true, Clean());
        RecordNone(r.data, plain, Clean(), span);
        RecordStart(r.data, [], [], r.pos, plain, Clean(), 0, span);
        assert [] + updates.sent == updates.sent && [] + updates.notes == updates.notes;
      }
    }

    /** The output of the current member has been handed out, and the trailer is next. */
    ghost predicate Finished()
      requires Owned()
      reads `decompressor, decompressor, Footprint()
    {
      && decompressor.goal.mode.Done? && decompressor.Given() == |decompressor.goal.out|
      && r.pos == NextByte(decompressor.goal.p) && Offset() == decompressor.woffset
    }

    /** Reads from the current member. */
    method ReadMember(p: array<byte>) returns (n: nat, e: Err)
      requires Valid() && err == Ok && p !in decompressor.Repr() && p != buf
      modifies `digest, `size, `out, r, updates, p, decompressor.Repr()
      ensures Ready() && IsFixed(fixed) && Recorded() && Owned() && decompressor == old(decompressor)
      ensures n <= p.Length && out == old(out) + n == Offset() - begin <= |plain.out|
      ensures p[..n] == plain.out[old(out)..out] && forall i | n <= i < p.Length :: p[i] == old(p[i])
      ensures e == Ok ==> (0 < n || p.Length == 0) && Flowing() && Pending()
      ensures e == Eof ==> Flowing() && Finished()
      ensures e !in {Ok, Eof} ==> !plain.ok && Torn(e)
      ensures Extends(old(Channelled()), Channelled())
    {
      hide IsFixed, Decompressor.Valid, Run, Rest, Recorded, Update, Tracks;
      hide Decompressor.Repr, Decompressor.Footprint, Decompressor.Given, GzipReader.Torn;
      ghost var goal, given := decompressor.goal, decompressor.Given();
      ghost var shift := decompressor.base - begin;
      BadMember(r.data, plain, goal, shift + first, first, from.None?, Clean());
      n, e := Decompress(p);
      Count(p, n, goal.out[..given]);
      assert goal.out[..given] + p[..n] == goal.out[..given + n];
      SamePart(goal.out, plain.out, p[..n], given, shift);
    }

    /** Counts n bytes read into p, after x. */
    method Count(p: array<byte>, n: nat, ghost x: seq<byte>)
      requires Owned() && n <= p.Length
      modifies `digest, `size, `out
      ensures Owned() && out == old(out) + n && (old(Summed(x)) ==> Summed(x + p[..n]))
    {
      hide Decompressor.Valid, Update;
      digest := Update(digest, p[..n]);
      size := (size + n) % 0x1_0000_0000;
      out := out + n;
      UpdateAppend(0, x, p[..n]);
      assert decompressor.Valid();
    }

    /** Reads from the decompressor. */
    method Decompress(p: array<byte>) returns (n: nat, e: Err)
      requires Ready() && IsFixed(fixed) && Owned() && Recorded() && p !in decompressor.Repr() && p != buf
      requires from.None? ==> Tracks(r.data, plain, decompressor.goal, decompressor.base - begin, 0, true, Clean())
      requires InFirst()
      modifies r, updates, p, decompressor.Repr()
      ensures Ready() && IsFixed(fixed) && Recorded() && Owned()
      ensures n <= p.Length && decompressor.Given() == old(decompressor.Given()) + n <= |decompressor.goal.out|
      ensures Offset() == old(Offset()) + n == decompressor.base + decompressor.Given()
      ensures p[..n] == decompressor.goal.out[old(decompressor.Given())..decompressor.Given()]
      ensures forall i | n <= i < p.Length :: p[i] == old(p[i])
      ensures e == Ok ==> (0 < n || p.Length == 0) && Pending()
      ensures e == Eof ==> Finished()
      ensures e !in {Ok, Eof} ==> decompressor.goal.mode.Bad? && Torn(e)
      ensures Extends(old(Channelled()), Channelled())
    {
      hide IsFixed, Decompressor.Valid, Run, Rest, Record, Tracks, SentSome, Decompressor.Given, Num, Spaced;
      hide GzipReader.Finished, OneMember, FirstGoal, Decompressor.Footprint, GzipReader.Torn;
      ghost var was, w := decompressor.Books(), Woffset();
      n, e := Inflated(p);
      if updates != null {
        RecordMore(r.data, was, decompressor.Books(), plain, Clean(), decompressor.base, decompressor.goal, w,
                   Woffset(), span, decompressor.err == Eof);
      }
    }

    method Inflated(p: array<byte>) returns (n: nat, e: Err)
      requires Ready() && IsFixed(fixed) && Owned() && p !in decompressor.Repr() && p != buf
      modifies r, updates, p, decompressor.Repr()
      ensures Ready() && IsFixed(fixed) && Owned()
      ensures n <= p.Length && decompressor.Given() == old(decompressor.Given()) + n <= |decompressor.goal.out|
      ensures Offset() == old(Offset()) + n == decompressor.base + decompressor.Given()
      ensures p[..n] == decompressor.goal.out[old(decompressor.Given())..decompressor.Given()]
      ensures forall i | n <= i < p.Length :: p[i] == old(p[i])
      ensures e == Ok ==> 0 < n || p.Length == 0
      ensures e == Eof ==> Finished()
      ensures e !in {Ok, Eof} ==> decompressor.goal.mode.Bad? && Torn(e)
      ensures SentSome(r.data, old(decompressor.Books()), decompressor.Books(), decompressor.base, decompressor.goal,
                       old(Woffset()), Woffset(), span, decompressor.err == Eof)
      ensures Spaced(old(decompressor.Books()), decompressor.Books(), span) && (e == Ok ==> Pending())
      ensures old(decompressor.err) != Ok ==>
                && decompressor.err == old(decompressor.err) && Woffset() == old(Woffset())
                && decompressor.Books() == old(decompressor.Books())
      ensures decompressor.err == Eof ==> Woffset() == decompressor.base + |decompressor.goal.out|
    {
      hide IsFixed, Decompressor.Valid, Run, SentSome, Decompressor.Given, Num, Spaced;
      decompressor.PositionIsGiven();
      n, e := decompressor.Read(p);
      decompressor.PositionIsGiven();
      decompressor.ValidParts();
      decompressor.EndCounted();
      if e == Eof {
        ByteReached(decompressor.in_.nb, r.pos);
      }
    }

    /** Reads the trailer and compares it with what has been counted, unless this reader began in the
        middle of the file. */
    method ReadTrailer() returns (e: Err)
      requires Ready()
      modifies `digest, `size, buf, r
      ensures Ready() && (e == Ok ==> digest == 0 == size)
      ensures e == Ok ==> r.pos == old(r.pos) + 8 <= |r.data|
      ensures e == Ok && from.None? ==>
                Le32(r.data, old(r.pos)) == old(digest) && Le32(r.data, old(r.pos) + 4) == old(size)
      ensures e != Ok ==> e != Eof
      ensures e != Ok && old(r.pos) + 8 <= |r.data| ==>
                from.None? && !(Le32(r.data, old(r.pos)) == old(digest) && Le32(r.data, old(r.pos) + 4) == old(size))
    {
      ghost var d, q := r.data, r.pos;
      var got;
      got, e := r.ReadFull(buf, 0, 8);
      if e != Ok {
        return NoEof(e);
      }
      TrailerBytes(buf[..], d, q);
      var sum := buf[0] as int + 256 * buf[1] as int + 0x1_0000 * (buf[2] as int + 256 * buf[3] as int);
      var len := buf[4] as int + 256 * buf[5] as int + 0x1_0000 * (buf[6] as int + 256 * buf[7] as int);
      if sum != digest || len != size {
        if from.None? {
          return BadChecksum;
        }
      }
      digest, size := 0, 0;
    }

    /** The rest of the whole output is that of the members from the current position on. */
    ghost predicate BetweenMembers()
      reads `out, r
    {
      && 0 <= out <= |plain.out| && r.pos <= |r.data|
      && Decoded(plain.out[out..], plain.ok) == From(r.data, r.pos, from.None?, Clean())
      && (from.None? && OneMember(r.data) ==> r.pos == |r.data|)
    }

    /** The decompressor to be reset. */
    ghost predicate Resettable()
      reads `decompressor, decompressor
    {
      && decompressor != null
      && decompressor.in_.r == r && decompressor.fixed == fixed && decompressor.updates == updates
      && decompressor.span == span
    }

    method EndMember() returns (e: Err)
      requires Ready() && Owned() && Flowing() && Finished() && out == Offset() - begin
      modifies `digest, `size, buf, r
      ensures Ready() && Resettable() && e != Eof && decompressor == old(decompressor)
      ensures updates != null ==> updates.Valid()
      ensures if e == Ok then BetweenMembers() && digest == 0 == size && 8 * r.pos > decompressor.goal.p
              else !plain.ok && out == |plain.out|
    {
      hide IsFixed, Decompressor.Valid, Run, Rest, From, Record, Update, Tracks, Decompressor.Given;
      hide Decompressor.Repr, Decompressor.Footprint;
      ghost var d, goal, q := r.data, decompressor.goal, r.pos;
      decompressor.PositionIsGiven();
      AfterMember(d, plain, goal, decompressor.base + first - begin, first, from.None?, Clean());
      assert goal.out[..|goal.out|] == goal.out;
      decompressor.ValidParts();
      e := ReadTrailer();
    }

    method BeginMember() returns (e: Err)
      requires Ready() && IsFixed(fixed) && Recorded() && Resettable() && BetweenMembers()
      requires digest == 0 == size && out == Offset() - begin == Woffset() - begin
      requires updates != null ==> updates.Valid()
      modifies `digest, `decompressor, `first, buf, r, updates
      ensures Ready() && IsFixed(fixed) && decompressor != null && Recorded() && out == Offset() - begin
      ensures e == Ok ==> Owned() && Flowing() && fresh(decompressor.Repr()) && 8 * old(r.pos) < decompressor.goal.p
      ensures e == Ok ==> Pending()
      ensures e == Eof ==> plain.ok && out == |plain.out| == Woffset() - begin
      ensures e !in {Ok, Eof} ==> !plain.ok && out == |plain.out|
      ensures e != Ok ==> decompressor == old(decompressor)
      ensures Extends(old(Channelled()), Channelled())
    {
      hide IsFixed, Decompressor.Valid, Run, Rest, From, Record, Update, Tracks, Decompressor.Repr;
      hide Decompressor.Footprint, HeaderEnd;
      ghost var q, w := r.pos, Woffset();
      MemberFollows(r.data, plain, out, q, from.None?, Clean());
      e := ReadHeader();
      if e == Ok {
        first := 0;
        UpdateNothing(0);
        if updates != null {
          RecordStart(r.data, old(updates.sent), old(updates.notes), r.pos, plain, Clean(), w, span);
        }
      }
    }

    /** Reads on. Each call hands out the next part of the whole output. The end is reported when all
        of it is handed out and the file ends well; an error only if it does not. */
    method Read(p: array<byte>) returns (n: nat, e: Err)
      requires Valid() && p != buf && p !in decompressor.Repr()
      modifies this, buf, r, updates, p, decompressor.Repr()
      ensures Valid() && e == err && forall o | o in decompressor.Repr() :: o in old(decompressor.Repr()) || fresh(o)
      ensures n <= p.Length && Offset() == old(Offset()) + n && 0 <= old(Offset()) - begin
              && Offset() - begin <= |plain.out|
      ensures p[..n] == plain.out[old(Offset()) - begin..Offset() - begin]
      ensures forall i | n <= i < p.Length :: p[i] == old(p[i])
      ensures e == Ok ==> 0 < n || p.Length == 0
      ensures e == Eof ==> plain.ok && Offset() - begin == |plain.out|
      ensures e !in {Ok, Eof} ==> !plain.ok && (Offset() - begin == |plain.out| || Torn(e))
      ensures Extends(old(Channelled()), Channelled())
      ensures old(err) != Ok ==> n == 0 && e == old(err) && Channelled() == old(Channelled())
    {
      hide GzipReader.Valid, Decompressor.Repr, GzipReader.Offset, Decompressor.Footprint, GzipReader.Torn;
      Standing();
      n := 0;
      if err != Ok {
        return 0, err;
      }
      while n == 0
        invariant Valid() && decompressor != null && err == Ok && p !in decompressor.Repr()
        invariant n <= p.Length && Offset() == old(Offset()) + n && begin <= old(Offset())
                  && Offset() <= begin + |plain.out|
        invariant p[..n] == plain.out[old(Offset()) - begin..Offset() - begin]
        invariant forall i | n <= i < p.Length :: p[i] == old(p[i])
        invariant forall o | o in decompressor.Repr() :: o in old(decompressor.Repr()) || fresh(o)
        invariant Extends(old(Channelled()), Channelled())
        decreases 8 * |r.data| - decompressor.goal.p
      {
        var more;
        ghost var before := decompressor.Repr();
        label Before:
        n, more := Pass(p);
        Standing();
        forall o | o in decompressor.Repr() ensures o in old(decompressor.Repr()) || fresh(o) {
          assert o in before || !old@Before(allocated(o));
        }
        if !more {
          return n, err;
        }
      }
      return n, Ok;
    }

    /** Goes on to the next member at the end of one. */
    method NextMember() returns (e: Err)
      requires Ready() && IsFixed(fixed) && Recorded() && Owned() && Flowing() && Finished() && out == Offset() - begin
      modifies `digest, `size, `decompressor, `first, buf, r, updates
      ensures Ready() && IsFixed(fixed) && decompressor != null && Recorded() && out == old(out) == Offset() - begin
      ensures e == Ok ==> Owned() && Flowing() && fresh(decompressor.Repr()) && Pending()
      ensures e == Ok ==> old(decompressor.goal.p) < decompressor.goal.p <= 8 * |r.data|
      ensures e == Eof ==> plain.ok && out == |plain.out| == Woffset() - begin
      ensures e !in {Ok, Eof} ==> !plain.ok && out == |plain.out|
      ensures e != Ok ==> decompressor == old(decompressor)
      ensures Extends(old(Channelled()), Channelled())
    {
      hide IsFixed, Decompressor.Valid, Run, Rest, From, Recorded, Decompressor.Repr, Decompressor.Footprint;
      hide Decompressor.Given, GzipReader.Summed, Sealed, OneMember;
      e := EndMember();
      if e == Ok {
        e := BeginMember();
      }
    }

    /** One pass of the loop in Read: reads from the current member, and goes on to the next one at
        its end. */
    method Pass(p: array<byte>) returns (n: nat, more: bool)
      requires Valid() && err == Ok && p != buf && p !in decompressor.Repr()
      modifies this, buf, r, updates, p, decompressor.Repr()
      ensures Valid() && fresh(decompressor.Repr() - old(decompressor.Repr())) && old(Offset()) >= begin
      ensures n <= p.Length && Offset() == old(Offset()) + n <= begin + |plain.out|
      ensures p[..n] == plain.out[old(Offset()) - begin..Offset() - begin]
      ensures forall i | n <= i < p.Length :: p[i] == old(p[i])
      ensures more ==> err == Ok && old(decompressor.goal.p) < decompressor.goal.p <= 8 * |r.data|
      ensures !more && err == Ok ==> 0 < n || p.Length == 0
      ensures Extends(old(Channelled()), Channelled())
    {
      hide IsFixed, Decompressor.Valid, Run, Rest, From, Recorded, Decompressor.Repr, Decompressor.Footprint;
      hide Decompressor.Given, GzipReader.Summed, Sealed, GzipReader.Offset, OneMember, Tracks, FirstGoal;
      hide GzipReader.Torn;
      more := false;
      var e;
      n, e := ReadMember(p);
      if e == Eof {
        e := NextMember();
        more := e == Ok;
      }
      err := e;
    }
  }
}
