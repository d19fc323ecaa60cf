/** What a pool does on any file, good or not. */
module AnyFile {
  import opened Bits
  import opened Canonical
  import opened Input
  import opened Members
  import opened Readers
  import opened Pool

  /** A run of a pool on a file. */
  ghost predicate RunsOn(file: Decoded, run: seq<State>, steps: seq<Step>) {
    && |run| == |steps| + 1 && InitOn(file, run[0])
    && forall i | 0 <= i < |steps| :: Moves(file, run[i], steps[i], run[i + 1])
  }

  /** A pool whose first reader is about to read the file. */
  ghost predicate InitOn(file: Decoded, s: State) {
    && s.calls == map[] && s.checkpoints == [] && !s.closed && !s.waited && s.frontier.Some?
    && s.readers == map[s.frontier.value := true] && s.rds == map[s.frontier.value := Rd(0, file, 0, Ok)]
  }

  // Readers belong to one call each

  lemma TakesExclusive(file: Decoded, s: State, step: Step, s': State)
    requires Exclusive(s) && Moves(file, s, step, s') && (step.TakeAt? || step.TakeBelow?)
    ensures Exclusive(s')
  {
  }

  lemma MakesExclusive(file: Decoded, s: State, step: Step, s': State)
    requires Exclusive(s) && Moves(file, s, step, s') && (step.Open? || step.Arrive?)
    ensures Exclusive(s')
  {
  }

  lemma UsesExclusive(file: Decoded, s: State, step: Step, s': State)
    requires Exclusive(s) && Moves(file, s, step, s') && (step.Skip? || step.Fill?)
    ensures Exclusive(s')
  {
    hide Reads, Sends;
  }

  lemma ReleasesExclusive(file: Decoded, s: State, t: nat, s': State)
    requires Exclusive(s) && Moves(file, s, Release(t), s')
    ensures Exclusive(s')
  {
  }

  lemma WaitsExclusive(file: Decoded, s: State, step: Step, s': State)
    requires Exclusive(s) && Moves(file, s, step, s')
    requires step.Begin? || step.Miss? || step.Choose? || step.GiveUp? || step.Receive? || step.Close? || step.Wait?
    ensures Exclusive(s')
  {
    hide Picks, Idle, LogStep;
  }

  lemma StaysExclusive(file: Decoded, s: State, step: Step, s': State)
    requires Exclusive(s) && Moves(file, s, step, s')
    ensures Exclusive(s')
  {
    hide Exclusive, Moves;
    match step
    case TakeAt(_, _) => TakesExclusive(file, s, step, s');
    case TakeBelow(_, _) => TakesExclusive(file, s, step, s');
    case Open(_, _) => MakesExclusive(file, s, step, s');
    case Arrive(_) => MakesExclusive(file, s, step, s');
    case Skip(_, _, _, _, _) => UsesExclusive(file, s, step, s');
    case Fill(_, _, _, _) => UsesExclusive(file, s, step, s');
    case Release(t) => ReleasesExclusive(file, s, t, s');
    case _ => WaitsExclusive(file, s, step, s');
  }

  // What calls return is a part of what their readers have to deliver

  /** A reader stands inside what it has to deliver. */
  ghost predicate Fits(rd: Rd) {
    && 0 <= rd.pos - rd.begin <= |rd.plain.out|
    && (rd.err == Eof ==> rd.plain.ok && rd.pos - rd.begin == |rd.plain.out|)
    && (rd.err !in {Ok, Eof} ==> !rd.plain.ok)
  }

  /** The bytes got are those the reader has to deliver from off on. */
  ghost predicate PartOf(rd: Rd, off: int, got: seq<byte>) {
    && 0 <= off - rd.begin && off - rd.begin + |got| <= |rd.plain.out|
    && got == rd.plain.out[off - rd.begin..off - rd.begin + |got|]
  }

  ghost predicate CallPart(rds: map<nat, Rd>, c: Call) {
    match c
    case Opening(off, _, from) => from.out <= off
    case Skipping(off, _, id, _) => id in rds && rds[id].pos <= off
    case Filling(off, len, id, got) =>
      id in rds && rds[id].pos == off + |got| && |got| <= len && PartOf(rds[id], off, got)
    case Filled(off, len, id, got, e) =>
      id in rds && rds[id].pos == off + |got| && |got| <= len && PartOf(rds[id], off, got) && e == rds[id].err != Ok
    case Returned(off, len, id, got, e) =>
      && id in rds && |got| <= len && PartOf(rds[id], off, got)
      && if |got| == len then e == Ok else rds[id].err != Ok && e == ShortErr(rds[id].err) && rds[id].pos == off + |got|
    case _ => true
  }

  ghost predicate Parts(file: Decoded, s: State) {
    && Exclusive(s)
    && (forall id | id in s.rds :: Fits(s.rds[id]))
    && (forall t | t in s.calls :: CallPart(s.rds, s.calls[t]))
    && s.frontier.Some? && s.frontier.value in s.rds
    && s.rds[s.frontier.value].begin == 0 && s.rds[s.frontier.value].plain == file
  }

  lemma ReadFits(rd: Rd, k: nat, bytes: seq<byte>, rd': Rd)
    requires Reads(rd, k, bytes, rd') && Fits(rd)
    ensures Fits(rd')
  {
  }

  lemma ReadsPart(rd: Rd, off: int, got: seq<byte>, k: nat, bytes: seq<byte>, rd': Rd)
    requires Reads(rd, k, bytes, rd') && rd.pos == off + |got| && PartOf(rd, off, got)
    ensures rd'.pos == off + |got + bytes| && PartOf(rd', off, got + bytes)
  {
    var out, b := rd.plain.out, rd.begin;
    assert out[off - b..rd.pos - b] + out[rd.pos - b..rd'.pos - b] == out[off - b..rd'.pos - b];
  }

  /** A call does not depend on a reader it does not hold, except on what it has to deliver, and where a
      reader that is stuck stands. */
  lemma OtherPart(rds: map<nat, Rd>, c: Call, id: nat, rd: Rd)
    requires CallPart(rds, c) && InUse(c) != Some(id)
    requires id in rds ==> rd.begin == rds[id].begin && rd.plain == rds[id].plain
    requires id in rds && rds[id].err != Ok ==> rd == rds[id]
    ensures CallPart(rds[id := rd], c)
  {
  }

  lemma PartsAfter(file: Decoded, s: State, t: nat, id: nat, rd: Rd, c: Call, s': State)
    requires Parts(file, s) && Exclusive(s') && t in s.calls && (InUse(s.calls[t]) == Some(id) || id !in s.rds)
    requires id in s.rds ==>
               && rd.begin == s.rds[id].begin && rd.plain == s.rds[id].plain
               && (s.rds[id].err != Ok ==> rd == s.rds[id])
    requires Fits(rd) && CallPart(s.rds[id := rd], c)
    requires s'.rds == s.rds[id := rd] && s'.calls == s.calls[t := c] && s'.frontier == s.frontier
    ensures Parts(file, s')
  {
    hide CallPart, Fits;
    forall u | u in s.calls && u != t ensures CallPart(s'.rds, s.calls[u]) {
      OtherPart(s.rds, s.calls[u], id, rd);
    }
  }

  lemma PartsMade(file: Decoded, s: State, step: Step, s': State)
    requires Parts(file, s) && Exclusive(s') && Moves(file, s, step, s') && step.Open?
    ensures Parts(file, s')
  {
    PartsAfter(file, s, step.t, step.id, s'.rds[step.id], s'.calls[step.t], s');
  }

  lemma PartsSkip(file: Decoded, s: State, step: Step, s': State)
    requires Parts(file, s) && Exclusive(s') && Moves(file, s, step, s') && step.Skip?
    ensures Parts(file, s')
  {
    hide Fits;
    var c := s.calls[step.t];
    assert CallPart(s.rds, c);
    ReadFits(s.rds[c.id], step.k, step.bytes, step.rd);
    PartsAfter(file, s, step.t, c.id, step.rd, s'.calls[step.t], s');
  }

  lemma PartsFill(file: Decoded, s: State, step: Step, s': State)
    requires Parts(file, s) && Exclusive(s') && Moves(file, s, step, s') && step.Fill?
    ensures Parts(file, s')
  {
    hide Fits, PartOf;
    var c := s.calls[step.t];
    assert CallPart(s.rds, c);
    ReadFits(s.rds[c.id], c.len - |c.got|, step.bytes, step.rd);
    ReadsPart(s.rds[c.id], c.off, c.got, c.len - |c.got|, step.bytes, step.rd);
    PartsAfter(file, s, step.t, c.id, step.rd, s'.calls[step.t], s');
  }

  /** Steps that leave all readers where they are. */
  lemma PartsRest(file: Decoded, s: State, step: Step, s': State)
    requires Parts(file, s) && Exclusive(s') && Moves(file, s, step, s') && !step.Open? && !step.Skip? && !step.Fill?
    requires !step.Release?
    ensures Parts(file, s')
  {
    hide Exclusive, Sends;
    if !step.Receive? && !step.Close? && !step.Wait? && !step.Begin? {
      assert CallPart(s.rds, s.calls[step.t]);
    }
  }

  lemma PartsReturned(file: Decoded, s: State, t: nat, s': State)
    requires Parts(file, s) && Exclusive(s') && Moves(file, s, Release(t), s')
    ensures Parts(file, s')
  {
    hide Exclusive, PartOf, Fits;
    assert CallPart(s.rds, s.calls[t]);
    assert CallPart(s'.rds, s'.calls[t]);
  }

  lemma StaysParts(file: Decoded, s: State, step: Step, s': State)
    requires Parts(file, s) && Moves(file, s, step, s')
    ensures Parts(file, s')
  {
    hide Exclusive, Moves, Parts;
    ExclusiveOf(file, s);
    StaysExclusive(file, s, step, s');
    match step
    case Open(_, _) => PartsMade(file, s, step, s');
    case Skip(_, _, _, _, _) => PartsSkip(file, s, step, s');
    case Fill(_, _, _, _) => PartsFill(file, s, step, s');
    case Release(t) => PartsReturned(file, s, t, s');
    case _ => PartsRest(file, s, step, s');
  }

  lemma ExclusiveOf(file: Decoded, s: State)
    requires Parts(file, s)
    ensures Exclusive(s)
  {
    hide Exclusive;
  }

  lemma {:induction false} RunParts(file: Decoded, run: seq<State>, steps: seq<Step>, n: nat)
    requires RunsOn(file, run, steps) && n < |run|
    ensures Parts(file, run[n])
    decreases n
  {
    hide Moves, Parts;
    if n == 0 {
      InitParts(file, run[0]);
    } else {
      RunParts(file, run, steps, n - 1);
      StaysParts(file, run[n - 1], steps[n - 1], run[n]);
    }
  }

  lemma InitParts(file: Decoded, s: State)
    requires InitOn(file, s)
    ensures Parts(file, s)
  {
  }

  /** On any file, a call that returns has got a part of what its reader has to deliver, which for the
      first reader is the output of the file. It is short only if the reader has stopped there. */
  lemma ReadAtIsPart(file: Decoded, run: seq<State>, steps: seq<Step>, t: nat)
    requires RunsOn(file, run, steps)
    requires var s := run[|run| - 1]; t in s.calls && s.calls[t].Returned?
    ensures var s := run[|run| - 1];
            var c := s.calls[t];
            && c.id in s.rds && PartOf(s.rds[c.id], c.off, c.got) && |c.got| <= c.len
            && (c.e == Ok <==> |c.got| == c.len)
            && (|c.got| < c.len ==> s.rds[c.id].pos == c.off + |c.got| && c.e == ShortErr(s.rds[c.id].err))
            && (s.frontier == Some(c.id) ==> s.rds[c.id].begin == 0 && s.rds[c.id].plain == file)
  {
    hide Moves, Exclusive, PartOf;
    RunParts(file, run, steps, |run| - 1);
    assert CallPart(run[|run| - 1].rds, run[|run| - 1].calls[t]);
  }

  /** On a file that is not good, an EOF of ReadAt is not the end of the data: the first reader has run out
      of compressed data, and its error is not passed on. */
  lemma EofIsNotTheEnd(file: Decoded, run: seq<State>, steps: seq<Step>, t: nat)
    requires RunsOn(file, run, steps) && !file.ok
    requires var s := run[|run| - 1];
             t in s.calls && s.calls[t].Returned? && s.frontier == Some(s.calls[t].id) && s.calls[t].e == Eof
    ensures var s := run[|run| - 1];
            var c := s.calls[t];
            && c.id in s.rds && s.rds[c.id].err == UnexpectedEof && |c.got| < c.len
            && 0 <= c.off && c.off + |c.got| <= |file.out| && c.got == file.out[c.off..c.off + |c.got|]
  {
    hide Moves, Exclusive;
    ReadAtIsPart(file, run, steps, t);
    RunParts(file, run, steps, |run| - 1);
    assert Fits(run[|run| - 1].rds[run[|run| - 1].calls[t].id]);
  }

  /** A run goes on by a step. */
  lemma Then(file: Decoded, run: seq<State>, steps: seq<Step>, step: Step, s: State)
    returns (run': seq<State>, steps': seq<Step>)
    requires RunsOn(file, run, steps) && Moves(file, run[|run| - 1], step, s)
    ensures RunsOn(file, run', steps') && |run'| > 0 && run'[|run'| - 1] == s
  {
    hide Moves, InitOn;
    assert forall i | 0 <= i < |steps| :: Moves(file, run[i], steps[i], run[i + 1]);
    run', steps' := run + [s], steps + [step];
  }

  /** The state of a pool in which its first call is at c. */
  function OneCall(file: Decoded, idle: bool, rd: Rd, c: Call): State {
    State(map[0 := idle], [], map[0 := rd], map[0 := c], [], false, false, Some(0))
  }

  lemma TakesFirst(file: Decoded, len: nat) returns (run: seq<State>, steps: seq<Step>)
    ensures RunsOn(file, run, steps) && |run| > 0
    ensures run[|run| - 1] == OneCall(file, false, Rd(0, file, 0, Ok), Filling(0, len, 0, []))
  {
    var rd := Rd(0, file, 0, Ok);
    var s := State(map[0 := true], [], map[0 := rd], map[], [], false, false, Some(0));
    run, steps := [s], [];
    assert RunsOn(file, run, steps);
    hide RunsOn;
    run, steps := Then(file, run, steps, Begin(0, 0, len), OneCall(file, true, rd, Looking(0, len)));
    s := OneCall(file, true, rd, Looking(0, len));
    s := s.(readers := s.readers[0 := false], calls := s.calls[0 := Filling(0, len, 0, [])]);
    run, steps := Then(file, run, steps, TakeAt(0, 0), s);
    assert s.readers == map[0 := false] && s.calls == map[0 := Filling(0, len, 0, [])];
  }

  /** Such a call: the file breaks off after some bytes of output, and the call asks for more than those. */
  lemma TruncatedLooksEnded(out: seq<byte>, len: nat) returns (run: seq<State>, steps: seq<Step>)
    requires |out| < len
    ensures RunsOn(Decoded(out, false), run, steps) && |run| > 0
    ensures var s := run[|run| - 1]; 0 in s.calls && s.calls[0] == Returned(0, len, 0, out, Eof)
  {
    hide RunsOn;
    var file := Decoded(out, false);
    run, steps := TakesFirst(file, len);
    var s, rd := run[|run| - 1], Rd(0, file, |out|, UnexpectedEof);
    assert [] + out == out && out == out[0..|out|];
    s := s.(rds := s.rds[0 := rd], calls := s.calls[0 := Filled(0, len, 0, out, UnexpectedEof)]);
    run, steps := Then(file, run, steps, Fill(0, out, rd, []), s);
    s := s.(readers := s.readers[0 := true], calls := s.calls[0 := Returned(0, len, 0, out, Eof)]);
    run, steps := Then(file, run, steps, Release(0), s);
  }

  // A reader whose discard has failed

  /** It is never idle again. */
  ghost predicate Lost(s: State, id: nat) {
    && id in s.rds && (id in s.readers ==> !s.readers[id])
    && forall t | t in s.calls :: InUse(s.calls[t]) != Some(id)
  }

  ghost predicate FailedLost(s: State) {
    forall t | t in s.calls && s.calls[t].Failed? && s.calls[t].reader.Some? :: Lost(s, s.calls[t].reader.value)
  }

  lemma StaysLost(file: Decoded, s: State, step: Step, s': State, id: nat)
    requires Moves(file, s, step, s') && Lost(s, id)
    ensures Lost(s', id)
  {
    hide Lost, Moves;
    if step.TakeAt? || step.TakeBelow? || step.Open? {
      LostIsNotTaken(file, s, step, s', id);
    } else {
      LostIsNotUsed(file, s, step, s', id);
    }
  }

  lemma LostIsNotTaken(file: Decoded, s: State, step: Step, s': State, id: nat)
    requires Moves(file, s, step, s') && Lost(s, id) && (step.TakeAt? || step.TakeBelow? || step.Open?)
    ensures Lost(s', id)
  {
  }

  lemma LostIsNotUsed(file: Decoded, s: State, step: Step, s': State, id: nat)
    requires Moves(file, s, step, s') && Lost(s, id) && !step.TakeAt? && !step.TakeBelow? && !step.Open?
    ensures Lost(s', id)
  {
    hide Reads, Sends, Picks, Idle;
    if !step.Receive? && !step.Close? && !step.Wait? {
      assert step.t in s.calls ==> InUse(s.calls[step.t]) != Some(id);
    }
  }

  lemma FailingLoses(file: Decoded, s: State, step: Step, s': State)
    requires Exclusive(s) && Moves(file, s, step, s') && step.Skip? && s'.calls[step.t].Failed?
    ensures Lost(s', s.calls[step.t].id)
  {
    hide Reads, Sends;
  }

  lemma StaysFailedLost(file: Decoded, s: State, step: Step, s': State)
    requires Exclusive(s) && Moves(file, s, step, s') && FailedLost(s)
    ensures FailedLost(s')
  {
    hide Exclusive, Lost, Reads, Sends, Picks, Idle;
    forall t | t in s'.calls && s'.calls[t].Failed? && s'.calls[t].reader.Some?
      ensures Lost(s', s'.calls[t].reader.value)
    {
      if t in s.calls && s.calls[t].Failed? {
        StaysLost(file, s, step, s', s.calls[t].reader.value);
      } else {
        FailingLoses(file, s, step, s');
      }
    }
  }

  lemma {:induction false} FailedReaderIsLost(file: Decoded, run: seq<State>, steps: seq<Step>, n: nat)
    requires RunsOn(file, run, steps) && n < |run|
    ensures FailedLost(run[n])
    decreases n
  {
    hide Moves, Exclusive, FailedLost;
    if n == 0 {
      NoCallsLost(file, run[0]);
    } else {
      FailedReaderIsLost(file, run, steps, n - 1);
      RunParts(file, run, steps, n - 1);
      StaysFailedLost(file, run[n - 1], steps[n - 1], run[n]);
    }
  }

  lemma NoCallsLost(file: Decoded, s: State)
    requires InitOn(file, s)
    ensures FailedLost(s)
  {
  }
}
