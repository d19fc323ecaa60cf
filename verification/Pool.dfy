/** The pool of gzip readers behind ReadAt. Each region under the lock, each read of a reader, and
    each step of the goroutine that collects checkpoints is one atomic step; calls of ReadAt run
    interleaved in any way. */
module Pool {
  import opened Bits
  import opened Canonical
  import opened Window
  import opened Input
  import opened Members
  import opened Readers

  /** Which checkpoint a position leads to: the last one that is not past it. */
  ghost predicate Picks(log: seq<Entry>, off: int, highest: Option<Entry>) {
    match highest
    case None => forall i | 0 <= i < |log| :: off < log[i].out
    case Some(e) =>
      exists i | 0 <= i < |log| :: log[i] == e && e.out <= off && forall j | i < j < |log| :: off < log[j].out
  }

  /** The scan in acquireReader. It stops at the first checkpoint past the position, which is enough
      because they are in order. */
  method Scan(checkpoints: seq<Entry>, off: int) returns (highest: Option<Entry>)
    requires Sorted(checkpoints)
    ensures Picks(checkpoints, off, highest)
  {
    highest := None;
    var i := 0;
    while i < |checkpoints|
      invariant i <= |checkpoints|
      invariant if i == 0 then highest == None else highest == Some(checkpoints[i - 1]) && checkpoints[i - 1].out <= off
    {
      if checkpoints[i].out > off {
        break;
      }
      highest := Some(checkpoints[i]);
      i := i + 1;
    }
  }

  // Calls of ReadAt

  /** Where a call of ReadAt(p, off) with |p| == len is. */
  datatype Call =
    | Looking(off: int, len: nat)
    /** No idle reader was at off. */
    | Missed(off: int, len: nat)
    /** There was no checkpoint to continue from. */
    | Stranded(off: int, len: nat)
    | Opening(off: int, len: nat, from: Entry)
    /** Discarding up to off; a reader made for this call is not in the pool yet. */
    | Skipping(off: int, len: nat, id: nat, made: bool)
    | Filling(off: int, len: nat, id: nat, got: seq<byte>)
    /** Filled, or stopped by e. */
    | Filled(off: int, len: nat, id: nat, got: seq<byte>, e: Err)
    /** Done with reader id. */
    | Returned(off: int, len: nat, id: nat, got: seq<byte>, e: Err)
    /** Failed without a reader, or while it discarded from one. */
    | Failed(off: int, len: nat, reader: Option<nat>)

  /** The reader a call is using. */
  function InUse(c: Call): Option<nat> {
    match c
    case Skipping(_, _, id, _) => Some(id)
    case Filling(_, _, id, _) => Some(id)
    case Filled(_, _, id, _, _) => Some(id)
    case _ => None
  }

  datatype State = State(
    /** The readers in the pool, and whether they are idle. */
    readers: map<nat, bool>,
    checkpoints: seq<Entry>,
    /** All gzip readers there are. */
    rds: map<nat, Rd>,
    calls: map<nat, Call>,
    /** All checkpoints sent so far; those the goroutine has not received yet are in the channel. */
    log: seq<Entry>,
    closed: bool,
    /** Whether Wait has returned. */
    waited: bool,
    /** The reader that makes the first pass and sends checkpoints, unless the pool was decoded from
        an index. */
    frontier: Option<nat>)

  ghost predicate Idle(readers: map<nat, bool>, rds: map<nat, Rd>, id: nat) {
    id in readers && readers[id] && id in rds
  }

  datatype Step =
    | Begin(t: nat, off: int, len: nat)
    | TakeAt(t: nat, id: nat)
    | Miss(t: nat)
    | Choose(t: nat, highest: Option<Entry>)
    | TakeBelow(t: nat, id: nat)
    | GiveUp(t: nat)
    | Open(t: nat, id: nat)
    | Skip(t: nat, k: nat, bytes: seq<byte>, rd: Rd, log: seq<Entry>)
    | Arrive(t: nat)
    | Fill(t: nat, bytes: seq<byte>, rd: Rd, log: seq<Entry>)
    | Release(t: nat)
    | Receive
    | Close
    | Wait

  /** Reading sends checkpoints if it is the frontier that reads; it cannot send on a closed channel. */
  ghost predicate Sends(s: State, file: Decoded, id: nat, rd: Rd, log: seq<Entry>)
    requires id in s.rds
  {
    if s.frontier == Some(id) then
      LogStep(s.log, log, file, s.rds[id], rd) && (s.closed ==> log == s.log)
    else log == s.log
  }

  /** A step of a pool on a file. */
  ghost predicate Moves(file: Decoded, s: State, step: Step, s': State) {
    match step
    case Begin(t, off, len) => t !in s.calls && s' == s.(calls := s.calls[t := Looking(off, len)])
    case TakeAt(t, id) =>
      && t in s.calls && s.calls[t].Looking? && Idle(s.readers, s.rds, id) && s.rds[id].pos == s.calls[t].off
      && s' == s.(readers := s.readers[id := false],
                  calls := s.calls[t := Filling(s.calls[t].off, s.calls[t].len, id, [])])
    case Miss(t) =>
      && t in s.calls && s.calls[t].Looking?
      && (forall id :: Idle(s.readers, s.rds, id) ==> s.rds[id].pos != s.calls[t].off)
      && s' == s.(calls := s.calls[t := Missed(s.calls[t].off, s.calls[t].len)])
    case Choose(t, highest) =>
      && t in s.calls && s.calls[t].Missed? && Picks(s.checkpoints, s.calls[t].off, highest)
      && var off, len := s.calls[t].off, s.calls[t].len;
         s' == s.(calls := s.calls[t := match highest
                                        case None => Stranded(off, len)
                                        case Some(e) => Opening(off, len, e)])
    case TakeBelow(t, id) =>
      && t in s.calls && s.calls[t].Stranded? && Idle(s.readers, s.rds, id) && s.rds[id].pos <= s.calls[t].off
      && s' == s.(readers := s.readers[id := false],
                  calls := s.calls[t := Skipping(s.calls[t].off, s.calls[t].len, id, false)])
    case GiveUp(t) =>
      && t in s.calls && s.calls[t].Stranded?
      && (forall id :: Idle(s.readers, s.rds, id) ==> s.rds[id].pos > s.calls[t].off)
      && s' == s.(calls := s.calls[t := Failed(s.calls[t].off, s.calls[t].len, None)])
    case Open(t, id) =>
      && t in s.calls && s.calls[t].Opening? && id !in s.rds && id !in s.readers
      && var e := s.calls[t].from;
         s' == s.(rds := s.rds[id := Rd(e.out, e.rest, e.out, Ok)],
                  calls := s.calls[t := Skipping(s.calls[t].off, s.calls[t].len, id, true)])
    case Skip(t, k, bytes, rd, log) =>
      && t in s.calls && s.calls[t].Skipping? && s.calls[t].id in s.rds
      && var c, was := s.calls[t], s.rds[s.calls[t].id];
         && 0 < k <= c.off - was.pos && Reads(was, k, bytes, rd) && Sends(s, file, c.id, rd, log)
         && s' == s.(rds := s.rds[c.id := rd], log := log,
                     calls := s.calls[t := if rd.pos < c.off && rd.err != Ok then Failed(c.off, c.len, Some(c.id))
                                            else c])
    case Arrive(t) =>
      && t in s.calls && s.calls[t].Skipping? && s.calls[t].id in s.rds
      && var c := s.calls[t];
         && s.rds[c.id].pos >= c.off
         && s' == s.(readers := if c.made then s.readers[c.id := false] else s.readers,
                     calls := s.calls[t := Filling(c.off, c.len, c.id, [])])
    case Fill(t, bytes, rd, log) =>
      && t in s.calls && s.calls[t].Filling? && s.calls[t].id in s.rds
      && var c, was := s.calls[t], s.rds[s.calls[t].id];
         && |c.got| < c.len && Reads(was, c.len - |c.got|, bytes, rd) && Sends(s, file, c.id, rd, log)
         && s' == s.(rds := s.rds[c.id := rd], log := log,
                     calls := s.calls[t := if rd.err == Ok then Filling(c.off, c.len, c.id, c.got + bytes)
                                            else Filled(c.off, c.len, c.id, c.got + bytes, rd.err)])
    case Release(t) =>
      && t in s.calls && InUse(s.calls[t]).Some?
      && var c := s.calls[t];
         && (c.Filled? || (c.Filling? && |c.got| == c.len))
         && s' == s.(readers := s.readers[c.id := true],
                     calls := s.calls[t := Returned(c.off, c.len, c.id, c.got,
                                                     if |c.got| == c.len then Ok else ShortErr(c.e))])
    case Receive =>
      && |s.checkpoints| < |s.log| && s' == s.(checkpoints := s.log[..|s.checkpoints| + 1])
    case Close => s.frontier.Some? && s' == s.(closed := true)
    case Wait =>
      && (s.frontier.Some? ==> s.closed && s.checkpoints == s.log) && s' == s.(waited := true)
  }

  /** A step of a pool on a good file. */
  ghost predicate Next(plain: seq<byte>, s: State, step: Step, s': State) {
    Moves(Decoded(plain, true), s, step, s')
  }

  /** How ReadAt reports a short read. */
  function ShortErr(e: Err): Err {
    if e == UnexpectedEof then Eof else e
  }

  // What every step keeps

  /** The reader began at a position of the plaintext and has the plaintext from there to deliver. */
  ghost predicate Sound(rd: Rd, plain: seq<byte>) {
    0 <= rd.begin <= |plain| && rd.plain == Decoded(plain[rd.begin..], true)
  }

  /** It has delivered the plaintext up to its position. */
  ghost predicate Good(rd: Rd, plain: seq<byte>) {
    && Sound(rd, plain) && rd.begin <= rd.pos <= |plain|
    && (rd.err == Ok || (rd.err == Eof && rd.pos == |plain|))
  }

  ghost predicate RdOk(rd: Rd, plain: seq<byte>) {
    0 <= rd.begin <= rd.pos && rd.begin <= |plain| && (Sound(rd, plain) ==> Good(rd, plain))
  }

  /** The result of reading len bytes at off. */
  ghost predicate Correct(plain: seq<byte>, off: int, len: nat, got: seq<byte>, e: Err)
    requires 0 <= off < |plain|
  {
    && got == plain[off..off + Min(len, |plain| - off)]
    && e == if |got| == len then Ok else Eof
  }

  /** What a call has done so far, if it reads inside the plaintext with a sound reader. */
  ghost predicate CallOk(rds: map<nat, Rd>, plain: seq<byte>, c: Call) {
    && (c.Opening? ==> EntryOk(c.from, plain) && c.from.out <= c.off)
    && (0 <= c.off < |plain| ==>
          match c
          case Skipping(off, len, id, _) => Began(rds, id, off) && (Sound(rds[id], plain) ==> rds[id].pos <= off)
          case Filling(off, len, id, got) =>
            && Began(rds, id, off) && |got| <= len
            && (Sound(rds[id], plain) ==>
                  rds[id].pos == off + |got| <= |plain| && got == plain[off..off + |got|])
          case Filled(off, len, id, got, e) =>
            && Began(rds, id, off) && |got| <= len
            && (Sound(rds[id], plain) ==> rds[id].pos == off + |got| == |plain| && got == plain[off..] && e == Eof)
          case Returned(off, len, id, got, e) =>
            Began(rds, id, off) && (Sound(rds[id], plain) ==> Correct(plain, off, len, got, e))
          case Failed(off, _, Some(id)) => Began(rds, id, off) && !Sound(rds[id], plain)
          case _ => true)
  }

  /** Reader id began at or before off. */
  ghost predicate Began(rds: map<nat, Rd>, id: nat, off: int) {
    id in rds && rds[id].begin <= off
  }

  ghost predicate EntryOk(e: Entry, plain: seq<byte>) {
    0 <= e.out <= |plain| && (!e.final ==> e.rest == Decoded(plain[e.out..], true))
  }

  ghost predicate AllOk(rds: map<nat, Rd>, plain: seq<byte>, calls: map<nat, Call>) {
    forall t | t in calls :: CallOk(rds, plain, calls[t])
  }

  /** A reader in use belongs to one call: it is busy, or not in the pool yet. */
  ghost predicate Exclusive(s: State) {
    && (forall t | t in s.calls && InUse(s.calls[t]).Some? ::
          var id := InUse(s.calls[t]).value;
          && id in s.rds && !Idle(s.readers, s.rds, id)
          && (id in s.readers <==> !(s.calls[t].Skipping? && s.calls[t].made)))
    && (forall t, u | t in s.calls && u in s.calls && t != u && InUse(s.calls[t]).Some? ::
          InUse(s.calls[t]) != InUse(s.calls[u]))
    && (forall id | id in s.readers :: id in s.rds)
  }

  /** What has been sent and received, and that all of it has been once Wait has returned. */
  ghost predicate Collected(plain: seq<byte>, s: State) {
    && LogOk(s.log, plain) && s.checkpoints <= s.log
    && match s.frontier
       case Some(id) =>
         && id in s.rds && (s.rds[id].err == Eof ==> LogDone(s.log, plain))
         && (s.waited ==> s.closed && s.checkpoints == s.log)
       case None => s.checkpoints == s.log && LogDone(s.log, plain)
  }

  ghost predicate Inv(plain: seq<byte>, s: State) {
    && Exclusive(s) && Collected(plain, s)
    && (forall id | id in s.rds :: RdOk(s.rds[id], plain))
    && AllOk(s.rds, plain, s.calls)
  }

  /** Reading keeps a reader good, and what it reads is the plaintext. */
  lemma ReadsGood(plain: seq<byte>, rd: Rd, k: nat, bytes: seq<byte>, rd': Rd)
    requires Good(rd, plain) && Reads(rd, k, bytes, rd')
    ensures Good(rd', plain) && 0 <= rd.pos <= rd'.pos == rd.pos + |bytes| <= |plain| && bytes == plain[rd.pos..rd'.pos]
    ensures rd'.err == Ok || (rd'.err == Eof && rd'.pos == |plain|)
  {
    assert rd.plain.out == plain[rd.begin..];
    assert plain[rd.begin..][rd.pos - rd.begin..rd'.pos - rd.begin] == plain[rd.pos..rd'.pos];
  }

  lemma ReadsOk(plain: seq<byte>, rd: Rd, k: nat, bytes: seq<byte>, rd': Rd)
    requires RdOk(rd, plain) && Reads(rd, k, bytes, rd')
    ensures RdOk(rd', plain) && rd'.begin == rd.begin && rd'.plain == rd.plain && rd.pos <= rd'.pos <= rd.pos + k
  {
    if Sound(rd, plain) {
      ReadsGood(plain, rd, k, bytes, rd');
    }
  }

  lemma CallKept(rds: map<nat, Rd>, plain: seq<byte>, c: Call, id: nat, rd: Rd)
    requires CallOk(rds, plain, c) && InUse(c) != Some(id)
    requires id in rds ==> rd.begin == rds[id].begin && rd.plain == rds[id].plain
    ensures CallOk(rds[id := rd], plain, c)
  {
    hide Correct;
  }

  /** Only the call that holds a reader depends on where it stands. */
  lemma OthersKept(plain: seq<byte>, s: State, t: nat, id: nat, rd: Rd, c: Call)
    requires Exclusive(s) && t in s.calls && (InUse(s.calls[t]) == Some(id) || id !in s.rds)
    requires id in s.rds ==> rd.begin == s.rds[id].begin && rd.plain == s.rds[id].plain
    requires AllOk(s.rds, plain, s.calls) && CallOk(s.rds[id := rd], plain, c)
    ensures AllOk(s.rds[id := rd], plain, s.calls[t := c])
  {
    hide CallOk;
    forall u | u in s.calls && u != t ensures CallOk(s.rds[id := rd], plain, s.calls[u]) {
      CallKept(s.rds, plain, s.calls[u], id, rd);
    }
  }

  lemma KeepsOpen(plain: seq<byte>, s: State, t: nat, id: nat, s': State)
    requires Inv(plain, s) && Next(plain, s, Open(t, id), s')
    ensures Inv(plain, s')
  {
    hide LogOk, LogDone;
    assert CallOk(s.rds, plain, s.calls[t]);
    OthersKept(plain, s, t, id, s'.rds[id], s'.calls[t]);
  }

  lemma RdInside(plain: seq<byte>, s: State, id: nat)
    requires Inv(plain, s) && id in s.rds
    ensures RdOk(s.rds[id], plain) && (Sound(s.rds[id], plain) ==> Good(s.rds[id], plain))
  {
    hide LogOk, LogDone, Exclusive, AllOk;
  }

  lemma CallInside(plain: seq<byte>, s: State, t: nat)
    requires Inv(plain, s) && t in s.calls
    ensures CallOk(s.rds, plain, s.calls[t])
  {
    hide LogOk, LogDone, Exclusive, RdOk, CallOk;
  }

  /** A call reads from the reader it holds. */
  lemma Uses(plain: seq<byte>, s: State, t: nat, id: nat, rd: Rd, log: seq<Entry>, c: Call)
    requires Inv(plain, s) && t in s.calls && InUse(s.calls[t]) == Some(id) && id in s.rds
    requires RdOk(rd, plain) && rd.begin == s.rds[id].begin && rd.plain == s.rds[id].plain
    requires Sends(s, Decoded(plain, true), id, rd, log) && CallOk(s.rds[id := rd], plain, c)
    requires InUse(c) != None ==>
               InUse(c) == Some(id) && (c.Skipping? && c.made <==> s.calls[t].Skipping? && s.calls[t].made)
    ensures Inv(plain, s.(rds := s.rds[id := rd], log := log, calls := s.calls[t := c]))
  {
    hide LogOk, LogDone, RdOk, CallOk;
    OthersKept(plain, s, t, id, rd, c);
  }

  lemma KeepsSkip(plain: seq<byte>, s: State, t: nat, k: nat, bytes: seq<byte>, rd: Rd, log: seq<Entry>, s': State)
    requires Inv(plain, s) && Next(plain, s, Skip(t, k, bytes, rd, log), s')
    ensures Inv(plain, s')
  {
    hide Inv, Reads, Sends, RdOk, CallOk;
    var c := s.calls[t];
    CallInside(plain, s, t);
    RdInside(plain, s, c.id);
    ReadsOk(plain, s.rds[c.id], k, bytes, rd);
    SkipOk(plain, s.rds, c, k, bytes, rd);
    Uses(plain, s, t, c.id, rd, log, s'.calls[t]);
  }

  lemma SkipOk(plain: seq<byte>, rds: map<nat, Rd>, c: Call, k: nat, bytes: seq<byte>, rd: Rd)
    requires c.Skipping? && c.id in rds && CallOk(rds, plain, c) && RdOk(rds[c.id], plain)
    requires Reads(rds[c.id], k, bytes, rd) && k <= c.off - rds[c.id].pos
    ensures if rd.pos < c.off && rd.err != Ok then CallOk(rds[c.id := rd], plain, Failed(c.off, c.len, Some(c.id)))
            else CallOk(rds[c.id := rd], plain, c)
  {
    if Sound(rd, plain) {
      ReadsGood(plain, rds[c.id], k, bytes, rd);
    }
  }

  lemma KeepsFill(plain: seq<byte>, s: State, t: nat, bytes: seq<byte>, rd: Rd, log: seq<Entry>, s': State)
    requires Inv(plain, s) && Next(plain, s, Fill(t, bytes, rd, log), s')
    ensures Inv(plain, s')
  {
    hide Inv, Reads, Sends, RdOk, CallOk;
    var c := s.calls[t];
    CallInside(plain, s, t);
    RdInside(plain, s, c.id);
    ReadsOk(plain, s.rds[c.id], c.len - |c.got|, bytes, rd);
    FillOk(plain, s.rds, c, bytes, rd);
    Uses(plain, s, t, c.id, rd, log, s'.calls[t]);
  }

  lemma FillOk(plain: seq<byte>, rds: map<nat, Rd>, c: Call, bytes: seq<byte>, rd: Rd)
    requires c.Filling? && c.id in rds && |c.got| <= c.len && CallOk(rds, plain, c) && RdOk(rds[c.id], plain)
    requires Reads(rds[c.id], c.len - |c.got|, bytes, rd)
    ensures CallOk(rds[c.id := rd], plain, Filling(c.off, c.len, c.id, c.got + bytes))
    ensures rd.err != Ok ==> CallOk(rds[c.id := rd], plain, Filled(c.off, c.len, c.id, c.got + bytes, rd.err))
  {
    hide Good;
    ReadsOk(plain, rds[c.id], c.len - |c.got|, bytes, rd);
    if 0 <= c.off < |plain| && Sound(rd, plain) {
      ReadsGood(plain, rds[c.id], c.len - |c.got|, bytes, rd);
      assert plain[c.off..c.off + |c.got|] + plain[c.off + |c.got|..rd.pos] == plain[c.off..rd.pos];
      assert rd.pos == |plain| ==> plain[c.off..rd.pos] == plain[c.off..];
    }
  }

  lemma KeepsArrive(plain: seq<byte>, s: State, t: nat, s': State)
    requires Inv(plain, s) && Next(plain, s, Arrive(t), s')
    ensures Inv(plain, s')
  {
    hide LogOk, LogDone, RdOk;
    assert CallOk(s.rds, plain, s.calls[t]);
    RdInside(plain, s, s.calls[t].id);
  }

  /** A call that returns has got the slice it asked for. */
  lemma KeepsRelease(plain: seq<byte>, s: State, t: nat, s': State)
    requires Inv(plain, s) && Next(plain, s, Release(t), s')
    ensures Inv(plain, s')
  {
    hide LogOk, LogDone, RdOk;
    assert CallOk(s.rds, plain, s.calls[t]);
  }

  /** A call takes an idle reader, which is then busy. */
  lemma Claims(plain: seq<byte>, s: State, t: nat, id: nat, c: Call)
    requires Inv(plain, s) && t in s.calls && InUse(s.calls[t]).None? && Idle(s.readers, s.rds, id)
    requires InUse(c) == Some(id) && !(c.Skipping? && c.made) && CallOk(s.rds, plain, c)
    ensures Inv(plain, s.(readers := s.readers[id := false], calls := s.calls[t := c]))
  {
    hide LogOk, LogDone, RdOk, CallOk;
  }

  lemma KeepsTake(plain: seq<byte>, s: State, step: Step, s': State)
    requires Inv(plain, s) && (step.TakeAt? || step.TakeBelow?) && Next(plain, s, step, s')
    ensures Inv(plain, s')
  {
    hide Inv, Sound;
    RdInside(plain, s, step.id);
    Claims(plain, s, step.t, step.id, s'.calls[step.t]);
  }

  /** A call without a reader moves on without one. */
  lemma MovesOn(plain: seq<byte>, s: State, t: nat, c: Call)
    requires Inv(plain, s) && (t in s.calls ==> InUse(s.calls[t]).None?)
    requires InUse(c).None? && CallOk(s.rds, plain, c)
    ensures Inv(plain, s.(calls := s.calls[t := c]))
  {
    hide LogOk, LogDone, RdOk, Idle, CallOk;
  }

  lemma KeepsWaiting(plain: seq<byte>, s: State, step: Step, s': State)
    requires Inv(plain, s) && Next(plain, s, step, s') && (step.Begin? || step.Miss? || step.GiveUp?)
    ensures Inv(plain, s')
  {
    hide Inv, Idle;
    MovesOn(plain, s, step.t, s'.calls[step.t]);
  }

  lemma KeepsChoose(plain: seq<byte>, s: State, t: nat, highest: Option<Entry>, s': State)
    requires Inv(plain, s) && Next(plain, s, Choose(t, highest), s')
    ensures Inv(plain, s')
  {
    hide Inv, Picks;
    if highest.Some? {
      PickedIsGood(plain, s, s.calls[t].off, highest.value);
    }
    MovesOn(plain, s, t, s'.calls[t]);
  }

  lemma KeepsCollecting(plain: seq<byte>, s: State, step: Step, s': State)
    requires Inv(plain, s) && Next(plain, s, step, s') && (step.Receive? || step.Close? || step.Wait?)
    ensures Inv(plain, s')
  {
    hide LogOk, LogDone, RdOk, AllOk, Idle;
  }

  /** Every step keeps the invariant, in whatever order calls, readers and the goroutine take turns. */
  lemma NextKeeps(plain: seq<byte>, s: State, step: Step, s': State)
    requires Inv(plain, s) && Next(plain, s, step, s')
    ensures Inv(plain, s')
  {
    hide Inv, Next;
    match step
    case Choose(t, highest) => KeepsChoose(plain, s, t, highest, s');
    case Open(t, id) => KeepsOpen(plain, s, t, id, s');
    case Skip(t, k, bytes, rd, log) => KeepsSkip(plain, s, t, k, bytes, rd, log, s');
    case Arrive(t) => KeepsArrive(plain, s, t, s');
    case Fill(t, bytes, rd, log) => KeepsFill(plain, s, t, bytes, rd, log, s');
    case Release(t) => KeepsRelease(plain, s, t, s');
    case TakeAt(t, id) => KeepsTake(plain, s, step, s');
    case TakeBelow(t, id) => KeepsTake(plain, s, step, s');
    case Receive => KeepsCollecting(plain, s, step, s');
    case Close => KeepsCollecting(plain, s, step, s');
    case Wait => KeepsCollecting(plain, s, step, s');
    case _ => KeepsWaiting(plain, s, step, s');
  }

  // Which checkpoint a call continues from

  /** A checkpoint at the end of a member that is not at the end of the file. What a reader finds there
      is the trailer. */
  ghost predicate Astray(e: Entry, plain: seq<byte>) {
    e.final && e.out < |plain|
  }

  /** The last checkpoint received is one of those. */
  ghost predicate EndsAstray(checkpoints: seq<Entry>, plain: seq<byte>) {
    0 < |checkpoints| && Astray(checkpoints[|checkpoints| - 1], plain)
  }

  /** A checkpoint picked for a position is at or before it, and a reader that continues from it has
      the plaintext to deliver, unless it was taken at the end of a member; then it is the last one
      received so far. */
  lemma PickedIsGood(plain: seq<byte>, s: State, off: int, e: Entry)
    requires Inv(plain, s) && Picks(s.checkpoints, off, Some(e))
    ensures EntryOk(e, plain) && e.out <= off
    ensures e.final ==> e == s.checkpoints[|s.checkpoints| - 1]
  {
    hide Exclusive, AllOk, RdOk;
    var log, n := s.log, |s.checkpoints|;
    assert s.checkpoints == log[..n];
    var i :| 0 <= i < n && log[..n][i] == e && forall j | i < j < n :: off < log[..n][j].out;
    assert log[..n][i] == log[i];
    assert i < n - 1 ==> log[..n][i + 1] == log[i + 1];
  }

  /** A call picks a checkpoint it cannot continue from exactly if the last one received is at the end
      of a member, but not of the file, and not past the position asked for. */
  lemma GoesAstrayIff(plain: seq<byte>, s: State, off: int, highest: Option<Entry>)
    requires Inv(plain, s) && Picks(s.checkpoints, off, highest)
    ensures highest.Some? && Astray(highest.value, plain) <==>
            EndsAstray(s.checkpoints, plain) && s.checkpoints[|s.checkpoints| - 1].out <= off
  {
    hide Inv;
    if highest.Some? {
      PickedIsGood(plain, s, off, highest.value);
    }
  }

  /** Readers that went astray, and calls about to make one. */
  ghost predicate Straight(plain: seq<byte>, s: State) {
    && (forall id | id in s.rds :: Sound(s.rds[id], plain) || |plain| <= s.rds[id].begin)
    && (forall t | t in s.calls && s.calls[t].Opening? :: !Astray(s.calls[t].from, plain))
  }

  /** As long as no call picks such a checkpoint, no reader goes astray. */
  lemma StaysStraight(plain: seq<byte>, s: State, step: Step, s': State)
    requires Inv(plain, s) && Next(plain, s, step, s') && Straight(plain, s)
    requires step.Choose? && step.highest.Some? ==> !Astray(step.highest.value, plain)
    ensures Straight(plain, s')
  {
    hide Exclusive, Collected, RdOk, Idle, Reads, Sends, Picks;
    if step.Open? {
      assert CallOk(s.rds, plain, s.calls[step.t]);
      assert !Astray(s.calls[step.t].from, plain);
    } else if step.Skip? || step.Fill? {
      hide AllOk;
      var c := s.calls[step.t];
      ReadsKeeps(s.rds[c.id], step.rd, plain, if step.Skip? then step.k else c.len - |c.got|, step.bytes);
    }
  }

  lemma ReadsKeeps(rd: Rd, rd': Rd, plain: seq<byte>, k: nat, bytes: seq<byte>)
    requires Reads(rd, k, bytes, rd')
    ensures rd'.begin == rd.begin && (Sound(rd, plain) <==> Sound(rd', plain))
  {
  }

  // Whole runs

  /** A pool just opened on a good file: either its frontier is about to make the first pass, with the
      checkpoint at the start sent, or it was decoded from an index made after such a pass. */
  ghost predicate Init(plain: seq<byte>, s: State) {
    && s.calls == map[] && LogOk(s.log, plain) && !s.closed && !s.waited
    && match s.frontier
       case Some(id) =>
         && s.readers == map[id := true] && s.rds == map[id := Rd(0, Decoded(plain, true), 0, Ok)]
         && s.checkpoints == [] && |s.log| == 1
       case None => s.readers == map[] && s.rds == map[] && s.checkpoints == s.log && LogDone(s.log, plain)
  }

  /** A run: any interleaving of steps. */
  ghost predicate Runs(plain: seq<byte>, run: seq<State>, steps: seq<Step>) {
    |run| == |steps| + 1 && forall i | 0 <= i < |steps| :: Next(plain, run[i], steps[i], run[i + 1])
  }

  /** A run from there. */
  ghost predicate Reachable(plain: seq<byte>, run: seq<State>, steps: seq<Step>) {
    Runs(plain, run, steps) && Init(plain, run[0])
  }

  lemma {:induction false} RunKeeps(plain: seq<byte>, run: seq<State>, steps: seq<Step>, n: nat)
    requires Reachable(plain, run, steps) && n < |run|
    ensures Inv(plain, run[n])
    decreases n
  {
    hide Next, Inv;
    if n == 0 {
      InitInv(plain, run[0]);
    } else {
      RunKeeps(plain, run, steps, n - 1);
      NextKeeps(plain, run[n - 1], steps[n - 1], run[n]);
    }
  }

  lemma InitInv(plain: seq<byte>, s: State)
    requires Init(plain, s)
    ensures Inv(plain, s) && Straight(plain, s)
  {
    assert plain[0..] == plain;
  }

  /** No reader is ever used by two calls at once, and none in use is idle in the pool. */
  lemma OneCallPerReader(plain: seq<byte>, run: seq<State>, steps: seq<Step>, t: nat, u: nat)
    requires Reachable(plain, run, steps)
    requires var s := run[|run| - 1];
             t in s.calls && u in s.calls && t != u && InUse(s.calls[t]).Some?
    ensures var s := run[|run| - 1];
            InUse(s.calls[t]) != InUse(s.calls[u]) && !Idle(s.readers, s.rds, InUse(s.calls[t]).value)
  {
    hide Next, LogOk, AllOk;
    RunKeeps(plain, run, steps, |run| - 1);
  }

  /** Where a call inside the plaintext has ended, it has ended well: it has got exactly the slice it
      asked for, cut off at the end with EOF. It fails only if there is nothing to read from yet. */
  ghost predicate Slices(plain: seq<byte>, s: State) {
    forall t | t in s.calls && 0 <= s.calls[t].off < |plain| ::
      match s.calls[t]
      case Returned(off, len, _, got, e) => Correct(plain, off, len, got, e)
      case Failed(_, _, reader) => reader == None
      case _ => true
  }

  /** ReadAt is slicing, whatever other calls do in between and however they end, for every call whose
      reader has not gone astray: it does not fail, and it returns the slice. */
  lemma ReadAtIsSlice(plain: seq<byte>, run: seq<State>, steps: seq<Step>, t: nat)
    requires Reachable(plain, run, steps)
    requires var s := run[|run| - 1]; t in s.calls && 0 <= s.calls[t].off < |plain|
    ensures var s := run[|run| - 1];
            match s.calls[t]
            case Returned(off, len, id, got, e) =>
              id in s.rds && (Sound(s.rds[id], plain) ==> Correct(plain, off, len, got, e))
            case Failed(_, _, Some(id)) => id in s.rds && !Sound(s.rds[id], plain)
            case _ => true
  {
    hide Next, LogOk, Exclusive, Correct, Sound;
    RunKeeps(plain, run, steps, |run| - 1);
    assert CallOk(run[|run| - 1].rds, plain, run[|run| - 1].calls[t]);
  }

  lemma StraightSlices(plain: seq<byte>, s: State)
    requires Inv(plain, s) && Straight(plain, s)
    ensures Slices(plain, s)
  {
    hide Exclusive, Collected, RdOk, Correct;
    forall t | t in s.calls && 0 <= s.calls[t].off < |plain|
      ensures match s.calls[t]
              case Returned(off, len, _, got, e) => Correct(plain, off, len, got, e)
              case Failed(_, _, reader) => reader == None
              case _ => true
    {
      assert CallOk(s.rds, plain, s.calls[t]);
    }
  }

  // When no call goes astray

  /** The condition for that, on the state in which a call looks for a checkpoint. */
  ghost predicate Guarded(plain: seq<byte>, s: State, step: Step) {
    step.Choose? && step.t in s.calls ==>
      !(EndsAstray(s.checkpoints, plain) && s.checkpoints[|s.checkpoints| - 1].out <= s.calls[step.t].off)
  }

  lemma {:induction false} GuardedKeeps(plain: seq<byte>, run: seq<State>, steps: seq<Step>, i: nat, n: nat)
    requires Reachable(plain, run, steps) && i <= n < |run| && Straight(plain, run[i])
    requires forall k | i <= k < n :: Guarded(plain, run[k], steps[k])
    ensures Straight(plain, run[n])
    decreases n
  {
    hide Inv, Straight, Init;
    if i < n {
      GuardedKeeps(plain, run, steps, i, n - 1);
      RunKeeps(plain, run, steps, n - 1);
      var s, step := run[n - 1], steps[n - 1];
      assert Guarded(plain, s, step) && Next(plain, s, step, run[n]);
      if step.Choose? {
        GoesAstrayIff(plain, s, s.calls[step.t].off, step.highest);
      }
      hide Next;
      StaysStraight(plain, s, step, run[n]);
    }
  }

  /** If each call that continues from a checkpoint does so when the last one received is not at the
      end of a member before its position, every call gets the slice it asked for. */
  lemma GuardedSlices(plain: seq<byte>, run: seq<State>, steps: seq<Step>)
    requires Reachable(plain, run, steps)
    requires forall k | 0 <= k < |steps| :: Guarded(plain, run[k], steps[k])
    ensures Slices(plain, run[|run| - 1])
  {
    hide Inv, Straight, Next, Guarded, Slices;
    InitInv(plain, run[0]);
    RunKeeps(plain, run, steps, |run| - 1);
    GuardedKeeps(plain, run, steps, 0, |run| - 1);
    StraightSlices(plain, run[|run| - 1]);
  }

  /** In such a run, an idle reader that stands inside the plaintext next delivers the plaintext from its
      Offset on, and at least one byte of it if it is asked for any. */
  lemma IdleReaderDelivers(plain: seq<byte>, run: seq<State>, steps: seq<Step>, id: nat, k: nat, bytes: seq<byte>,
                           rd: Rd)
    requires Reachable(plain, run, steps)
    requires forall k | 0 <= k < |steps| :: Guarded(plain, run[k], steps[k])
    requires var s := run[|run| - 1];
             Idle(s.readers, s.rds, id) && s.rds[id].pos < |plain| && Reads(s.rds[id], k, bytes, rd)
    ensures var pos := run[|run| - 1].rds[id].pos;
            && 0 <= pos && pos + |bytes| <= |plain| && bytes == plain[pos..pos + |bytes|]
            && (0 < k && rd.err == Ok ==> bytes != []) && rd.err in {Ok, Eof}
  {
    hide Next, Inv, Guarded, Straight, Reads, Good, RdOk;
    var s := run[|run| - 1];
    InitInv(plain, run[0]);
    RunKeeps(plain, run, steps, |run| - 1);
    GuardedKeeps(plain, run, steps, 0, |run| - 1);
    StraightDelivers(plain, s, id, k, bytes, rd);
  }

  lemma StraightDelivers(plain: seq<byte>, s: State, id: nat, k: nat, bytes: seq<byte>, rd: Rd)
    requires Inv(plain, s) && Straight(plain, s) && Idle(s.readers, s.rds, id)
    requires s.rds[id].pos < |plain| && Reads(s.rds[id], k, bytes, rd)
    ensures var pos := s.rds[id].pos;
            && 0 <= pos && pos + |bytes| <= |plain| && bytes == plain[pos..pos + |bytes|]
            && (0 < k && rd.err == Ok ==> bytes != []) && rd.err in {Ok, Eof}
  {
    hide Inv;
    RdInside(plain, s, id);
    ReadsGood(plain, s.rds[id], k, bytes, rd);
  }

  lemma {:induction false} LogOnlyGrows(plain: seq<byte>, run: seq<State>, steps: seq<Step>, i: nat, n: nat)
    requires Reachable(plain, run, steps) && i <= n < |run|
    ensures run[i].log <= run[n].log && run[n].frontier == run[i].frontier
    decreases n
  {
    hide Init, Next;
    if i < n {
      LogOnlyGrows(plain, run, steps, i, n - 1);
      LogGoesOn(plain, run[n - 1], steps[n - 1], run[n]);
    }
  }

  lemma LogGoesOn(plain: seq<byte>, s: State, step: Step, s': State)
    requires Next(plain, s, step, s')
    ensures s.log <= s'.log && s'.frontier == s.frontier
  {
    hide LogOk, LogDone, Reads, Picks, Idle;
  }

  /** That is so for a file in which no member ends before the end of the file. */
  lemma OneMemberSlices(plain: seq<byte>, run: seq<State>, steps: seq<Step>)
    requires Reachable(plain, run, steps) && OneEnd(run[|run| - 1].log, plain)
    ensures Slices(plain, run[|run| - 1])
  {
    hide Next, Init, Slices, Exclusive, AllOk, RdOk, LogOk;
    forall k | 0 <= k < |steps| ensures Guarded(plain, run[k], steps[k]) {
      RunKeeps(plain, run, steps, k);
      LogOnlyGrows(plain, run, steps, k, |run| - 1);
      var s, log := run[k], run[|run| - 1].log;
      if 0 < |s.checkpoints| {
        var n := |s.checkpoints|;
        assert s.checkpoints[n - 1] == s.log[n - 1];
        assert s.log[n - 1] == log[n - 1];
      }
    }
    GuardedSlices(plain, run, steps);
  }

  // Once the list of checkpoints is whole

  /** The pool was decoded from an index; or its frontier has read all of the file, and then Wait has
      returned. */
  ghost predicate Whole(s: State) {
    s.frontier.Some? ==> s.frontier.value in s.rds && s.rds[s.frontier.value].err == Eof && s.waited
  }

  lemma StaysWhole(plain: seq<byte>, s: State, step: Step, s': State)
    requires Whole(s) && Next(plain, s, step, s')
    ensures Whole(s')
  {
    hide Picks, Idle, LogStep, InUse, ShortErr;
  }

  lemma WholeList(plain: seq<byte>, s: State)
    requires Inv(plain, s) && Whole(s)
    ensures s.checkpoints == s.log && LogOk(s.log, plain) && !EndsAstray(s.checkpoints, plain)
  {
    hide Exclusive, AllOk, RdOk;
  }

  lemma {:induction false} WholeKeeps(plain: seq<byte>, run: seq<State>, steps: seq<Step>, i: nat, n: nat)
    requires Reachable(plain, run, steps) && i <= n < |run| && Whole(run[i])
    ensures Whole(run[n])
    decreases n
  {
    hide Init, Next, Whole;
    if i < n {
      WholeKeeps(plain, run, steps, i, n - 1);
      StaysWhole(plain, run[n - 1], steps[n - 1], run[n]);
    }
  }

  /** When Wait returns after the frontier has read all of the file, the list holds every checkpoint
      there is, and that is so from then on. */
  lemma WaitCollectsAll(plain: seq<byte>, run: seq<State>, steps: seq<Step>, i: nat, n: nat)
    requires Reachable(plain, run, steps) && i <= n < |run| && Whole(run[i])
    ensures run[i].checkpoints == run[i].log == run[n].log == run[n].checkpoints
    decreases n
  {
    hide Init, Inv, Next, Whole, LogOk, EndsAstray;
    RunKeeps(plain, run, steps, n);
    WholeKeeps(plain, run, steps, i, n);
    WholeList(plain, run[n]);
    if i < n {
      WaitCollectsAll(plain, run, steps, i, n - 1);
      WholeKeeps(plain, run, steps, i, n - 1);
      StuckLog(plain, run[n - 1], steps[n - 1], run[n]);
    }
  }

  lemma StuckLog(plain: seq<byte>, s: State, step: Step, s': State)
    requires Whole(s) && Next(plain, s, step, s')
    ensures s'.log == s.log
  {
    hide Idle, Picks, Reads, LogOk, LogDone;
  }

  /** No call inside the plaintext fails or finds nothing to read from. */
  ghost predicate Served(plain: seq<byte>, s: State) {
    forall t | t in s.calls && 0 <= s.calls[t].off < |plain| ::
      !s.calls[t].Stranded? && !(s.calls[t].Failed? && s.calls[t].reader == None)
  }

  /** With the checkpoint at the start received, there is always one to continue from. */
  lemma StaysServed(plain: seq<byte>, s: State, step: Step, s': State)
    requires Served(plain, s) && Next(plain, s, step, s') && 0 < |s.checkpoints| && s.checkpoints[0].out == 0
    ensures Served(plain, s')
  {
    hide Reads, Sends, Idle;
  }

  lemma {:induction false} ServedKeeps(plain: seq<byte>, run: seq<State>, steps: seq<Step>, i: nat, n: nat)
    requires Reachable(plain, run, steps) && i <= n < |run| && Whole(run[i]) && Served(plain, run[i])
    ensures Served(plain, run[n])
    decreases n
  {
    hide Init, Next, Inv, Whole, Served;
    if i < n {
      ServedKeeps(plain, run, steps, i, n - 1);
      RunKeeps(plain, run, steps, n - 1);
      WholeKeeps(plain, run, steps, i, n - 1);
      WholeList(plain, run[n - 1]);
      StaysServed(plain, run[n - 1], steps[n - 1], run[n]);
    }
  }

  /** Every call inside the plaintext that has ended has got the slice it asked for; none failed. */
  ghost predicate Answers(plain: seq<byte>, s: State) {
    Slices(plain, s) && Served(plain, s)
  }

  /** From a state with the whole list on, in which no call has gone astray, every call is answered. */
  lemma WholeAnswers(plain: seq<byte>, run: seq<State>, steps: seq<Step>, i: nat)
    requires Reachable(plain, run, steps) && i < |run|
    requires Whole(run[i]) && Straight(plain, run[i]) && Served(plain, run[i])
    ensures Answers(plain, run[|run| - 1])
  {
    hide Init, Next, Inv, Whole, Served, Straight, Slices, LogOk;
    forall k | i <= k < |run| - 1 ensures Guarded(plain, run[k], steps[k]) {
      RunKeeps(plain, run, steps, k);
      WholeKeeps(plain, run, steps, i, k);
      WholeList(plain, run[k]);
    }
    RunKeeps(plain, run, steps, |run| - 1);
    GuardedKeeps(plain, run, steps, i, |run| - 1);
    ServedKeeps(plain, run, steps, i, |run| - 1);
    StraightSlices(plain, run[|run| - 1]);
  }

  /** ReadAt on a pool decoded from an index is slicing: no call fails, whatever is called when. */
  lemma DecodedAnswers(plain: seq<byte>, run: seq<State>, steps: seq<Step>)
    requires Reachable(plain, run, steps) && run[0].frontier == None
    ensures Answers(plain, run[|run| - 1])
  {
    hide Next, Answers, Straight;
    InitInv(plain, run[0]);
    WholeAnswers(plain, run, steps, 0);
  }

  // A first pass, then Wait, then anything

  /** A call may begin: the others have returned, and it reads on where they stopped. */
  ghost predicate Turn(s: State, off: int) {
    && s.frontier.Some? && s.frontier.value in s.rds && off == s.rds[s.frontier.value].pos
    && forall t | t in s.calls :: s.calls[t].Returned?
  }

  /** The calls that begin in the first n steps read the file from start to end, one after the other. */
  ghost predicate Scans(run: seq<State>, steps: seq<Step>, n: nat)
    requires |run| == |steps| + 1 && n < |run|
  {
    forall k | 0 <= k < n && steps[k].Begin? :: Turn(run[k], steps[k].off)
  }

  /** A call in a pool with one reader. */
  ghost predicate SoloCall(s: State, id: nat, c: Call)
    requires id in s.rds && id in s.readers
  {
    match c
    case Looking(off, _) => off == s.rds[id].pos && s.readers[id]
    case Filling(_, _, x, _) => x == id
    case Filled(_, _, x, _, _) => x == id
    case Returned(_, _, _, _, _) => true
    case _ => false
  }

  /** The frontier is the only reader, used by at most one call. */
  ghost predicate Solo(s: State) {
    && s.frontier.Some?
    && var id := s.frontier.value;
       && s.rds.Keys == {id} == s.readers.Keys
       && (forall t, u | t in s.calls && u in s.calls && !s.calls[t].Returned? && !s.calls[u].Returned? :: t == u)
       && id in s.rds && id in s.readers && (forall t | t in s.calls :: SoloCall(s, id, s.calls[t]))
       && ((forall t | t in s.calls :: InUse(s.calls[t]).None?) ==> s.readers[id])
  }

  /** If all other calls have returned, it matters only what this one does. */
  lemma SoloNext(s: State, t: nat, s': State)
    requires s.frontier == s'.frontier && s.frontier.Some?
    requires s'.rds.Keys == s'.readers.Keys == {s.frontier.value}
    requires s'.calls.Keys == s.calls.Keys + {t}
    requires forall u | u in s.calls && u != t :: s.calls[u].Returned? && s'.calls[u] == s.calls[u]
    requires SoloCall(s', s.frontier.value, s'.calls[t])
    requires InUse(s'.calls[t]).None? ==> s'.readers[s.frontier.value]
    ensures Solo(s')
  {
    assert t in s'.calls;
    forall u | u in s'.calls ensures u in s.calls || u == t {
      assert u in s'.calls.Keys;
    }
  }

  lemma SoloTakes(plain: seq<byte>, s: State, step: Step, s': State)
    requires Solo(s) && Next(plain, s, step, s') && (step.Begin? || step.TakeAt?) && (step.Begin? ==> Turn(s, step.off))
    ensures Solo(s')
  {
    var id := s.frontier.value;
    if step.TakeAt? {
      assert step.id in s.readers.Keys;
    } else {
      assert forall u | u in s.calls :: InUse(s.calls[u]).None?;
    }
    SoloNext(s, step.t, s');
  }

  lemma SoloReads(plain: seq<byte>, s: State, step: Step, s': State)
    requires Solo(s) && Next(plain, s, step, s') && (step.Fill? || step.Release?)
    ensures Solo(s')
  {
    hide Reads, Sends;
    SoloNext(s, step.t, s');
  }

  /** The steps that a call takes if it finds no reader are not possible. */
  lemma SoloFinds(plain: seq<byte>, s: State, step: Step, s': State)
    requires Solo(s) && Next(plain, s, step, s') && !step.Begin? && !step.TakeAt? && !step.Fill? && !step.Release?
    ensures Solo(s') && (step.Receive? || step.Close? || step.Wait?)
  {
    hide Reads, Sends, Picks;
    var id := s.frontier.value;
    assert s.readers[id] ==> Idle(s.readers, s.rds, id);
  }

  lemma StaysSolo(plain: seq<byte>, s: State, step: Step, s': State)
    requires Solo(s) && Next(plain, s, step, s') && (step.Begin? ==> Turn(s, step.off))
    ensures Solo(s') && !step.Choose?
  {
    hide Solo, Next;
    match step
    case Begin(_, _, _) => SoloTakes(plain, s, step, s');
    case TakeAt(_, _) => SoloTakes(plain, s, step, s');
    case Fill(_, _, _, _) => SoloReads(plain, s, step, s');
    case Release(_) => SoloReads(plain, s, step, s');
    case _ => SoloFinds(plain, s, step, s');
  }

  lemma {:induction false} ScanKeeps(plain: seq<byte>, run: seq<State>, steps: seq<Step>, n: nat)
    requires Reachable(plain, run, steps) && n < |run| && Scans(run, steps, n) && run[0].frontier.Some?
    ensures Solo(run[n]) && Straight(plain, run[n])
    decreases n
  {
    hide Next, Inv, Straight, Solo, Turn;
    if n == 0 {
      InitInv(plain, run[0]);
      InitSolo(plain, run[0]);
    } else {
      ScanKeeps(plain, run, steps, n - 1);
      RunKeeps(plain, run, steps, n - 1);
      StaysSolo(plain, run[n - 1], steps[n - 1], run[n]);
      StaysStraight(plain, run[n - 1], steps[n - 1], run[n]);
    }
  }

  lemma InitSolo(plain: seq<byte>, s: State)
    requires Init(plain, s) && s.frontier.Some?
    ensures Solo(s)
  {
  }

  /** What the calls of a first pass return is the file, in order; and once it is over and Wait has
      returned, ReadAt is slicing: no call fails, whatever is called when. */
  lemma ScannedAnswers(plain: seq<byte>, run: seq<State>, steps: seq<Step>, n: nat)
    requires Reachable(plain, run, steps) && n < |run| && Scans(run, steps, n) && run[0].frontier.Some?
    ensures Answers(plain, run[n])
    ensures Whole(run[n]) ==> Answers(plain, run[|run| - 1])
  {
    hide Next, Inv, Straight, Slices, Scans, Whole, Init;
    ScanKeeps(plain, run, steps, n);
    SoloServed(plain, run[n]);
    RunKeeps(plain, run, steps, n);
    StraightSlices(plain, run[n]);
    if Whole(run[n]) {
      WholeAnswers(plain, run, steps, n);
    }
  }

  lemma SoloServed(plain: seq<byte>, s: State)
    requires Solo(s)
    ensures Served(plain, s)
  {
  }
}
