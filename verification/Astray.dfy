/** What becomes of a call of ReadAt that continues from the end of a member. */
module Astray {
  import opened Bits
  import opened Canonical
  import opened Deflate
  import opened Input
  import opened Members
  import opened Readers
  import opened Pool

  /** What every step leaves alone: where readers began and what they have to deliver, and the calls of
      others. */
  lemma StepKeeps(plain: seq<byte>, s: State, step: Step, s': State)
    requires Next(plain, s, step, s')
    ensures forall id | id in s.rds ::
              id in s'.rds && s'.rds[id].begin == s.rds[id].begin && s'.rds[id].plain == s.rds[id].plain
  {
    hide Sends, Picks, Idle;
  }

  lemma OthersKeep(plain: seq<byte>, s: State, step: Step, s': State, t: nat)
    requires Next(plain, s, step, s') && t in s.calls && Caller(step) != Some(t)
    ensures t in s'.calls && s'.calls[t] == s.calls[t]
  {
    hide Sends, Picks, Idle, Reads;
  }

  /** The call that makes a step. */
  function Caller(step: Step): Option<nat> {
    if step.Receive? || step.Close? || step.Wait? then None else Some(step.t)
  }

  // Such a call never gets what it asked for

  /** A reader that delivers nothing and fails. */
  ghost predicate Fails(s: State, id: nat) {
    id in s.rds && s.rds[id].plain == Decoded([], false)
  }

  /** A call that uses one, or is going to. */
  ghost predicate Doomed(s: State, c: Call) {
    match c
    case Opening(_, _, from) => from.rest == Decoded([], false)
    case Skipping(_, _, id, _) => Fails(s, id)
    case Filling(_, _, id, got) => Fails(s, id) && got == []
    case Filled(_, _, id, got, _) => Fails(s, id) && got == []
    case Returned(_, _, _, got, _) => got == []
    case Failed(_, _, Some(id)) => true
    case _ => false
  }

  lemma StaysDoomed(plain: seq<byte>, s: State, step: Step, s': State, t: nat)
    requires Next(plain, s, step, s') && t in s.calls && Doomed(s, s.calls[t]) && 0 < s.calls[t].len
    ensures t in s'.calls && Doomed(s', s'.calls[t])
    ensures s'.calls[t].off == s.calls[t].off && s'.calls[t].len == s.calls[t].len
  {
    StepKeeps(plain, s, step, s');
    if Caller(step) == Some(t) {
      DoomedSteps(plain, s, step, s');
    } else {
      hide Next;
      OthersKeep(plain, s, step, s', t);
    }
  }

  lemma DoomedSteps(plain: seq<byte>, s: State, step: Step, s': State)
    requires Next(plain, s, step, s') && Caller(step).Some?
    requires step.t in s.calls && Doomed(s, s.calls[step.t]) && 0 < s.calls[step.t].len
    ensures step.t in s'.calls && Doomed(s', s'.calls[step.t])
    ensures s'.calls[step.t].off == s.calls[step.t].off && s'.calls[step.t].len == s.calls[step.t].len
  {
    hide Sends, Picks, Idle, Reads;
    var c := s.calls[step.t];
    if step.Fill? {
      NothingRead(s.rds[c.id], c.len - |c.got|, step.bytes, step.rd);
    } else if step.Skip? {
      NothingRead(s.rds[c.id], step.k, step.bytes, step.rd);
    }
  }

  lemma NothingRead(rd: Rd, k: nat, bytes: seq<byte>, rd': Rd)
    requires Reads(rd, k, bytes, rd') && rd.plain == Decoded([], false)
    ensures bytes == [] && rd'.plain == rd.plain
  {
  }

  lemma {:induction false} DoomedKeeps(plain: seq<byte>, run: seq<State>, steps: seq<Step>, i: nat, n: nat, t: nat)
    requires Runs(plain, run, steps) && i <= n < |run|
    requires t in run[i].calls && Doomed(run[i], run[i].calls[t]) && 0 < run[i].calls[t].len
    ensures t in run[n].calls && Doomed(run[n], run[n].calls[t])
    ensures run[n].calls[t].off == run[i].calls[t].off && run[n].calls[t].len == run[i].calls[t].len
    decreases n
  {
    hide Next, Doomed;
    if i < n {
      DoomedKeeps(plain, run, steps, i, n - 1, t);
      StaysDoomed(plain, run[n - 1], steps[n - 1], run[n], t);
    }
  }

  /** A call inside the plaintext that asks for any bytes and continues from a checkpoint with nothing to
      deliver never returns them: it returns none, or fails. */
  lemma NeverCorrect(plain: seq<byte>, run: seq<State>, steps: seq<Step>, i: nat, n: nat, t: nat)
    requires Runs(plain, run, steps) && i <= n < |run| && t in run[i].calls && run[i].calls[t].Opening?
    requires var c := run[i].calls[t]; c.from.rest == Decoded([], false) && 0 < c.len && 0 <= c.off < |plain|
    ensures t in run[n].calls
    ensures match run[n].calls[t]
            case Returned(off, len, _, got, e) => 0 <= off < |plain| && got == [] && !Correct(plain, off, len, got, e)
            case Failed(_, _, reader) => reader != None
            case _ => true
  {
    hide Next;
    DoomedKeeps(plain, run, steps, i, n, t);
  }

  // A call that continues from another checkpoint does

  /** A call that uses a reader with the plaintext to deliver, or is going to. */
  ghost predicate Steady(plain: seq<byte>, s: State, c: Call) {
    match c
    case Opening(_, _, from) => 0 <= from.out <= |plain| && from.rest == Decoded(plain[from.out..], true)
    case Skipping(_, _, id, _) => id in s.rds && Sound(s.rds[id], plain)
    case Filling(_, _, id, _) => id in s.rds && Sound(s.rds[id], plain)
    case Filled(_, _, id, _, _) => id in s.rds && Sound(s.rds[id], plain)
    case Returned(_, _, id, _, _) => id in s.rds && Sound(s.rds[id], plain)
    case Failed(_, _, Some(id)) => id in s.rds && Sound(s.rds[id], plain)
    case _ => false
  }

  lemma StaysSteady(plain: seq<byte>, s: State, step: Step, s': State, t: nat)
    requires Next(plain, s, step, s') && t in s.calls && Steady(plain, s, s.calls[t])
    ensures t in s'.calls && Steady(plain, s', s'.calls[t]) && s'.calls[t].off == s.calls[t].off
  {
    StepKeeps(plain, s, step, s');
    if Caller(step) == Some(t) {
      SteadySteps(plain, s, step, s');
    } else {
      hide Next;
      OthersKeep(plain, s, step, s', t);
    }
  }

  lemma SteadySteps(plain: seq<byte>, s: State, step: Step, s': State)
    requires Next(plain, s, step, s') && Caller(step).Some? && step.t in s.calls && Steady(plain, s, s.calls[step.t])
    ensures step.t in s'.calls && Steady(plain, s', s'.calls[step.t]) && s'.calls[step.t].off == s.calls[step.t].off
  {
    hide Sends, Picks, Idle, Reads, Sound;
    var c := s.calls[step.t];
    if step.Fill? {
      ReadsKeeps(s.rds[c.id], step.rd, plain, c.len - |c.got|, step.bytes);
    } else if step.Skip? {
      ReadsKeeps(s.rds[c.id], step.rd, plain, step.k, step.bytes);
    } else if step.Open? {
      MadeSound(plain, c.from);
    }
  }

  lemma MadeSound(plain: seq<byte>, e: Entry)
    requires 0 <= e.out <= |plain| && e.rest == Decoded(plain[e.out..], true)
    ensures Sound(Rd(e.out, e.rest, e.out, Ok), plain)
  {
  }

  lemma {:induction false} SteadyKeeps(plain: seq<byte>, run: seq<State>, steps: seq<Step>, i: nat, n: nat, t: nat)
    requires Runs(plain, run, steps) && i <= n < |run| && t in run[i].calls && Steady(plain, run[i], run[i].calls[t])
    ensures t in run[n].calls && Steady(plain, run[n], run[n].calls[t]) && run[n].calls[t].off == run[i].calls[t].off
    decreases n
  {
    hide Next, Steady;
    if i < n {
      SteadyKeeps(plain, run, steps, i, n - 1, t);
      StaysSteady(plain, run[n - 1], steps[n - 1], run[n], t);
    }
  }

  /** What a checkpoint picked has to deliver. */
  lemma PickedRest(plain: seq<byte>, run: seq<State>, steps: seq<Step>, i: nat, n: nat, off: int, e: Entry)
    requires Reachable(plain, run, steps) && i <= n < |run| && EndsFail(run[n].log, plain)
    requires Picks(run[i].checkpoints, off, Some(e)) && off < |plain|
    ensures 0 <= e.out <= |plain|
    ensures e.rest == if Astray(e, plain) then Decoded([], false) else Decoded(plain[e.out..], true)
  {
    hide Next, Init, Exclusive, AllOk, RdOk;
    RunKeeps(plain, run, steps, i);
    LogOnlyGrows(plain, run, steps, i, n);
    PickedIsGood(plain, run[i], off, e);
    var list := run[i].checkpoints;
    var k :| 0 <= k < |list| && list[k] == e;
    assert run[i].log[k] == e && run[n].log[k] == e;
  }

  /** Where no block starts after the end of a member, the checkpoint a call picks decides what becomes of
      it: if it asks for any bytes inside the plaintext and has ended, it has got them exactly if the last
      checkpoint received was not, when it picked, at the end of a member before its position. */
  lemma ChoiceDecides(plain: seq<byte>, run: seq<State>, steps: seq<Step>, i: nat, n: nat, t: nat, e: Entry)
    requires Reachable(plain, run, steps) && i < n < |run| && EndsFail(run[n].log, plain)
    requires steps[i] == Choose(t, Some(e)) && t in run[i].calls
    requires 0 < run[i].calls[t].len && 0 <= run[i].calls[t].off < |plain|
    ensures t in run[n].calls
    ensures match run[n].calls[t]
            case Returned(off, len, _, got, err) =>
              0 <= off < |plain| && (Correct(plain, off, len, got, err) <==> Guarded(plain, run[i], steps[i]))
            case Failed(_, _, reader) => reader != None && !Guarded(plain, run[i], steps[i])
            case _ => true
  {
    hide Inv, Init, Sound, Correct;
    var off := run[i].calls[t].off;
    RunKeeps(plain, run, steps, i);
    StepOf(plain, run, steps, i);
    GoesAstrayIff(plain, run[i], off, Some(e));
    PickedRest(plain, run, steps, i, n, off, e);
    if Guarded(plain, run[i], steps[i]) {
      SteadyKeeps(plain, run, steps, i + 1, n, t);
      RunKeeps(plain, run, steps, n);
      CallInside(plain, run[n], t);
    } else {
      NeverCorrect(plain, run, steps, i + 1, n, t);
    }
  }

  lemma StepOf(plain: seq<byte>, run: seq<State>, steps: seq<Step>, i: nat)
    requires Reachable(plain, run, steps) && i < |steps|
    ensures |run| == |steps| + 1 && Next(plain, run[i], steps[i], run[i + 1]) && Runs(plain, run, steps)
  {
    hide Next, Init;
  }

  // Runs that go wrong

  /** A run goes on by a step. */
  lemma Then(plain: seq<byte>, run: seq<State>, steps: seq<Step>, step: Step, s: State)
    returns (run': seq<State>, steps': seq<Step>)
    requires Runs(plain, run, steps) && Next(plain, run[|run| - 1], step, s)
    ensures Runs(plain, run', steps') && |run'| > 0 && run'[|run'| - 1] == s && run'[0] == run[0]
  {
    hide Next;
    assert forall i | 0 <= i < |steps| :: Next(plain, run[i], steps[i], run[i + 1]);
    run', steps' := run + [s], steps + [step];
  }

  /** Call t, inside the plaintext, is about to continue from a checkpoint with nothing to deliver, with a
      new reader id. */
  ghost predicate Misled(plain: seq<byte>, s: State, t: nat, id: nat) {
    && t in s.calls && s.calls[t].Opening? && id !in s.rds && id !in s.readers && s.frontier != Some(id)
    && var c := s.calls[t];
       0 < c.len && 0 <= c.off < |plain| && c.from.out <= c.off && c.from.rest == Decoded([], false)
  }

  /** It has made the reader. */
  ghost predicate AtTrailer(plain: seq<byte>, s: State, t: nat) {
    && t in s.calls && s.calls[t].Skipping? && s.calls[t].made && 0 < s.calls[t].len && 0 <= s.calls[t].off < |plain|
    && var c := s.calls[t];
       && c.id in s.rds && s.frontier != Some(c.id) && s.rds[c.id].plain == Decoded([], false)
       && s.rds[c.id].err == Ok && s.rds[c.id].pos == s.rds[c.id].begin <= c.off
  }

  /** Then it fails, or returns nothing with an error. */
  lemma MisledFails(plain: seq<byte>, before: seq<State>, done: seq<Step>, t: nat, id: nat)
    returns (run: seq<State>, steps: seq<Step>)
    requires Runs(plain, before, done) && Misled(plain, before[|before| - 1], t, id)
    ensures Runs(plain, run, steps) && run[0] == before[0] && !Slices(plain, run[|run| - 1])
    ensures run[|run| - 1].log == before[|before| - 1].log
  {
    hide Runs, Slices;
    run, steps := before, done;
    var s := LastOf(plain, run, steps);
    var c, e := s.calls[t], s.calls[t].from;
    s := s.(rds := s.rds[id := Rd(e.out, e.rest, e.out, Ok)], calls := s.calls[t := Skipping(c.off, c.len, id, true)]);
    run, steps := Then(plain, run, steps, Open(t, id), s);
    if e.out < c.off {
      run, steps := FailsSkipping(plain, run, steps, t);
    } else {
      run, steps := FailsFilling(plain, run, steps, t);
    }
  }

  lemma FailsSkipping(plain: seq<byte>, before: seq<State>, done: seq<Step>, t: nat)
    returns (run: seq<State>, steps: seq<Step>)
    requires Runs(plain, before, done) && |before| > 0 && AtTrailer(plain, before[|before| - 1], t)
    requires var s := before[|before| - 1]; s.rds[s.calls[t].id].pos < s.calls[t].off
    ensures Runs(plain, run, steps) && |run| > 0 && run[0] == before[0] && !Slices(plain, run[|run| - 1])
    ensures run[|run| - 1].log == before[|before| - 1].log
  {
    hide Runs;
    var s := before[|before| - 1];
    var c, failed := s.calls[t], s.rds[s.calls[t].id].(err := Corrupt);
    s := s.(rds := s.rds[c.id := failed], calls := s.calls[t := Failed(c.off, c.len, Some(c.id))]);
    run, steps := Then(plain, before, done, Skip(t, c.off - failed.pos, [], failed, s.log), s);
    BadEnd(plain, s, t);
  }

  lemma FailsFilling(plain: seq<byte>, before: seq<State>, done: seq<Step>, t: nat)
    returns (run: seq<State>, steps: seq<Step>)
    requires Runs(plain, before, done) && |before| > 0 && AtTrailer(plain, before[|before| - 1], t)
    requires var s := before[|before| - 1]; s.rds[s.calls[t].id].pos == s.calls[t].off
    ensures Runs(plain, run, steps) && |run| > 0 && run[0] == before[0] && !Slices(plain, run[|run| - 1])
    ensures run[|run| - 1].log == before[|before| - 1].log
  {
    hide Runs;
    run, steps := before, done;
    var s := before[|before| - 1];
    var c, failed := s.calls[t], s.rds[s.calls[t].id].(err := Corrupt);
    s := s.(readers := s.readers[c.id := false], calls := s.calls[t := Filling(c.off, c.len, c.id, [])]);
    run, steps := Then(plain, run, steps, Arrive(t), s);
    s := s.(rds := s.rds[c.id := failed], calls := s.calls[t := Filled(c.off, c.len, c.id, [] + [], Corrupt)]);
    run, steps := Then(plain, run, steps, Fill(t, [], failed, s.log), s);
    s := s.(readers := s.readers[c.id := true], calls := s.calls[t := Returned(c.off, c.len, c.id, [], Corrupt)]);
    run, steps := Then(plain, run, steps, Release(t), s);
    BadEnd(plain, s, t);
  }

  lemma BadEnd(plain: seq<byte>, s: State, t: nat)
    requires t in s.calls && 0 <= s.calls[t].off < |plain| && 0 < s.calls[t].len
    requires s.calls[t].Failed? ==> s.calls[t].reader != None
    requires s.calls[t].Failed? || (s.calls[t].Returned? && s.calls[t].got == [])
    ensures !Slices(plain, s)
  {
  }

  lemma LastOf(plain: seq<byte>, run: seq<State>, steps: seq<Step>) returns (s: State)
    requires Runs(plain, run, steps)
    ensures |run| > 0 && s == run[|run| - 1]
  {
    s := run[|run| - 1];
  }

  // A first call that ends before the end of a member, and a second one after it

  function AtStart(plain: seq<byte>): Entry {
    Entry(0, false, Decoded(plain, true))
  }

  /** The checkpoint at the end of the first member, at position m, where no block starts. */
  function AtEnd(m: nat): Entry {
    Entry(m, true, Decoded([], false))
  }

  /** A pool just opened, whose first reader has got to pos. */
  function Frontier(plain: seq<byte>, pos: nat, idle: bool, calls: map<nat, Call>, log: seq<Entry>): State {
    State(map[0 := idle], [], map[0 := Rd(0, Decoded(plain, true), pos, Ok)], calls, log, false, false, Some(0))
  }

  lemma Logs(plain: seq<byte>, m: nat)
    requires SPAN < m <= |plain|
    ensures LogOk([AtStart(plain)], plain) && LogOk([AtStart(plain), AtEnd(m)], plain)
  {
    assert plain[0..] == plain;
  }

  /** The state in which the first call, which reads the bytes up to pos, has got n of them. */
  function Reading(plain: seq<byte>, pos: nat, n: nat): State
    requires n <= |plain|
  {
    Frontier(plain, n, false, map[0 := Filling(0, pos, 0, plain[..n])], [AtStart(plain)])
  }

  /** It reads a window at a time. */
  lemma {:induction false} ReadsWindows(plain: seq<byte>, pos: nat, j: nat) returns (run: seq<State>, steps: seq<Step>)
    requires SPAN < |plain| && j * WINDOW_SIZE < pos <= |plain|
    ensures Runs(plain, run, steps) && |run| > 0 && Init(plain, run[0])
    ensures run[|run| - 1] == Reading(plain, pos, j * WINDOW_SIZE)
  {
    hide Runs, LogOk, Init;
    if j == 0 {
      run, steps := BeginsReading(plain, pos);
    } else {
      run, steps := ReadsWindows(plain, pos, j - 1);
      ReadsWindow(plain, pos, (j - 1) * WINDOW_SIZE);
      var n := j * WINDOW_SIZE;
      run, steps := Then(plain, run, steps,
                         Fill(0, plain[n - WINDOW_SIZE..n], Rd(0, Decoded(plain, true), n, Ok), [AtStart(plain)]),
                         Reading(plain, pos, n));
    }
  }

  lemma BeginsReading(plain: seq<byte>, pos: nat) returns (run: seq<State>, steps: seq<Step>)
    requires SPAN < |plain| && pos <= |plain|
    ensures Runs(plain, run, steps) && |run| > 0 && Init(plain, run[0]) && run[|run| - 1] == Reading(plain, pos, 0)
  {
    hide Runs;
    Logs(plain, |plain|);
    var s := Frontier(plain, 0, true, map[], [AtStart(plain)]);
    run, steps := StartsAt(plain, s);
    s := s.(calls := s.calls[0 := Looking(0, pos)]);
    run, steps := Then(plain, run, steps, Begin(0, 0, pos), s);
    s := s.(readers := s.readers[0 := false], calls := s.calls[0 := Filling(0, pos, 0, [])]);
    run, steps := Then(plain, run, steps, TakeAt(0, 0), s);
    assert s.readers == map[0 := false] && s.calls == map[0 := Filling(0, pos, 0, plain[..0])];
  }

  lemma ReadsWindow(plain: seq<byte>, pos: nat, n: nat)
    requires SPAN < |plain| && n + WINDOW_SIZE < pos <= |plain|
    ensures var n' := n + WINDOW_SIZE;
            Next(plain, Reading(plain, pos, n),
                 Fill(0, plain[n..n'], Rd(0, Decoded(plain, true), n', Ok), [AtStart(plain)]), Reading(plain, pos, n'))
  {
    Logs(plain, |plain|);
    var n', s := n + WINDOW_SIZE, Reading(plain, pos, n);
    assert plain[..n] + plain[n..n'] == plain[..n'];
    assert s.rds[0 := Rd(0, Decoded(plain, true), n', Ok)] == map[0 := Rd(0, Decoded(plain, true), n', Ok)];
    assert s.calls[0 := Filling(0, pos, 0, plain[..n'])] == map[0 := Filling(0, pos, 0, plain[..n'])];
  }

  /** The first call has returned, and both checkpoints have been received. */
  function Between(plain: seq<byte>, m: nat, pos: nat): State
    requires pos <= |plain|
  {
    Frontier(plain, pos, true, map[0 := Returned(0, pos, 0, plain[..pos], Ok)], [AtStart(plain), AtEnd(m)])
    .(checkpoints := [AtStart(plain), AtEnd(m)])
  }

  /** The last window but one byte or more: the member ends in it, and the checkpoint is sent. */
  lemma ReadsLast(plain: seq<byte>, m: nat, pos: nat, n: nat)
    requires SPAN < m < |plain| && n < pos < m <= n + WINDOW_SIZE
    ensures var log := [AtStart(plain), AtEnd(m)];
            Next(plain, Reading(plain, pos, n), Fill(0, plain[n..pos], Rd(0, Decoded(plain, true), pos, Ok), log),
                 Full(plain, m, pos))
  {
    Logs(plain, m);
    var s := Reading(plain, pos, n);
    assert plain[..n] + plain[n..pos] == plain[..pos];
    assert s.rds[0 := Rd(0, Decoded(plain, true), pos, Ok)] == map[0 := Rd(0, Decoded(plain, true), pos, Ok)];
    assert s.calls[0 := Filling(0, pos, 0, plain[..pos])] == map[0 := Filling(0, pos, 0, plain[..pos])];
  }

  /** The first call has got all it asked for. */
  function Full(plain: seq<byte>, m: nat, pos: nat): State
    requires pos <= |plain|
  {
    Frontier(plain, pos, false, map[0 := Filling(0, pos, 0, plain[..pos])], [AtStart(plain), AtEnd(m)])
  }

  lemma FirstCall(plain: seq<byte>, m: nat, pos: nat) returns (run: seq<State>, steps: seq<Step>)
    requires SPAN < m < |plain| && 0 < pos < m && m <= ((pos - 1) / WINDOW_SIZE + 1) * WINDOW_SIZE
    ensures Runs(plain, run, steps) && |run| > 0 && Init(plain, run[0]) && run[|run| - 1] == Between(plain, m, pos)
  {
    hide Runs, LogOk, Init, Next, Reading, Full, Between;
    var j, log := (pos - 1) / WINDOW_SIZE, [AtStart(plain), AtEnd(m)];
    run, steps := ReadsWindows(plain, pos, j);
    var n := j * WINDOW_SIZE;
    ReadsLast(plain, m, pos, n);
    run, steps := Then(plain, run, steps, Fill(0, plain[n..pos], Rd(0, Decoded(plain, true), pos, Ok), log),
                       Full(plain, m, pos));
    run, steps := Returns(plain, m, pos, run, steps);
  }

  lemma Returns(plain: seq<byte>, m: nat, pos: nat, before: seq<State>, done: seq<Step>)
    returns (run: seq<State>, steps: seq<Step>)
    requires pos < m < |plain| && Runs(plain, before, done)
    requires |before| > 0 && before[|before| - 1] == Full(plain, m, pos)
    ensures Runs(plain, run, steps) && |run| > 0 && run[0] == before[0] && run[|run| - 1] == Between(plain, m, pos)
  {
    hide Runs;
    run, steps := before, done;
    var s := Full(plain, m, pos);
    s := s.(readers := s.readers[0 := true], calls := s.calls[0 := Returned(0, pos, 0, plain[..pos], Ok)]);
    run, steps := Then(plain, run, steps, Release(0), s);
    s := s.(checkpoints := s.log[..1]);
    run, steps := Then(plain, run, steps, Receive, s);
    s := s.(checkpoints := s.log[..2]);
    run, steps := Then(plain, run, steps, Receive, s);
    assert s.readers == map[0 := true] && s.calls == map[0 := Returned(0, pos, 0, plain[..pos], Ok)];
    assert s.checkpoints == [AtStart(plain), AtEnd(m)];
  }

  lemma SecondCall(plain: seq<byte>, m: nat, pos: nat, off: nat, len: nat, before: seq<State>, done: seq<Step>)
    returns (run: seq<State>, steps: seq<Step>)
    requires SPAN < m <= off < |plain| && pos < m && 0 < len
    requires Runs(plain, before, done) && |before| > 0 && before[|before| - 1] == Between(plain, m, pos)
    ensures Runs(plain, run, steps) && |run| > 0 && run[0] == before[0] && Misled(plain, run[|run| - 1], 1, 1)
    ensures run[|run| - 1].log == [AtStart(plain), AtEnd(m)]
  {
    hide Runs;
    run, steps := before, done;
    var s := Between(plain, m, pos);
    s := s.(calls := s.calls[1 := Looking(off, len)]);
    run, steps := Then(plain, run, steps, Begin(1, off, len), s);
    s := s.(calls := s.calls[1 := Missed(off, len)]);
    run, steps := Then(plain, run, steps, Miss(1), s);
    assert s.checkpoints[1] == AtEnd(m);
    s := s.(calls := s.calls[1 := Opening(off, len, AtEnd(m))]);
    run, steps := Then(plain, run, steps, Choose(1, Some(AtEnd(m))), s);
  }

  /** ReadAt is not slicing, even with one caller and one call after the other. The first member of a good
      file ends at m, more than a span after its start, and no block starts there. A call reads the bytes
      up to pos, in the window in which the member ends. Then a call for any bytes anywhere after the end
      of the member fails, or returns nothing with an error. */
  lemma CallGoesAstray(plain: seq<byte>, m: nat, pos: nat, off: nat, len: nat)
    returns (run: seq<State>, steps: seq<Step>)
    requires SPAN < m <= off < |plain| && 0 < pos < m && m <= ((pos - 1) / WINDOW_SIZE + 1) * WINDOW_SIZE && 0 < len
    ensures Reachable(plain, run, steps) && !Slices(plain, run[|run| - 1])
    ensures run[|run| - 1].log == [AtStart(plain), AtEnd(m)] && EndsFail(run[|run| - 1].log, plain)
  {
    hide Runs, Slices, Init, Misled;
    run, steps := FirstCall(plain, m, pos);
    run, steps := SecondCall(plain, m, pos, off, len, run, steps);
    run, steps := MisledFails(plain, run, steps, 1, 1);
  }

  // Indexes

  /** A pool decoded from an index that holds these checkpoints. */
  function Decode(checkpoints: seq<Entry>): State {
    State(map[], checkpoints, map[], map[], checkpoints, false, false, None)
  }

  /** An index made of the checkpoints a pool has received so far, if there are any and the last one is not
      at the end of a member before the end of the file: every call of every pool decoded from it is
      answered. */
  lemma IndexAnswers(plain: seq<byte>, run: seq<State>, steps: seq<Step>, later: seq<State>, more: seq<Step>)
    requires Reachable(plain, run, steps) && Runs(plain, later, more) && later[0] == Decode(run[|run| - 1].checkpoints)
    requires var list := run[|run| - 1].checkpoints; list != [] && !EndsAstray(list, plain)
    ensures Answers(plain, later[|later| - 1])
  {
    hide Next, Exclusive, AllOk, RdOk, Answers, Init;
    RunKeeps(plain, run, steps, |run| - 1);
    DecodeInit(plain, run[|run| - 1]);
    DecodedAnswers(plain, later, more);
  }

  lemma DecodeInit(plain: seq<byte>, s: State)
    requires Inv(plain, s) && s.checkpoints != [] && !EndsAstray(s.checkpoints, plain)
    ensures Init(plain, Decode(s.checkpoints))
  {
    hide Exclusive, AllOk, RdOk;
    assert forall i | 0 <= i < |s.checkpoints| :: s.checkpoints[i] == s.log[i];
  }

  /** Otherwise, where no block starts after that member, one call is enough to go wrong. */
  lemma EarlyIndexFails(plain: seq<byte>, list: seq<Entry>) returns (run: seq<State>, steps: seq<Step>)
    requires EndsAstray(list, plain) && 0 <= list[|list| - 1].out && list[|list| - 1].rest == Decoded([], false)
    ensures Runs(plain, run, steps) && run[0] == Decode(list)
    ensures !Slices(plain, run[|run| - 1]) && !Answers(plain, run[|run| - 1])
  {
    hide Runs, Slices;
    var e, s := list[|list| - 1], Decode(list);
    run, steps := StartsAt(plain, s);
    s := s.(calls := s.calls[0 := Looking(e.out, 1)]);
    run, steps := Then(plain, run, steps, Begin(0, e.out, 1), s);
    s := s.(calls := s.calls[0 := Missed(e.out, 1)]);
    run, steps := Then(plain, run, steps, Miss(0), s);
    s := s.(calls := s.calls[0 := Opening(e.out, 1, e)]);
    run, steps := Then(plain, run, steps, Choose(0, Some(e)), s);
    run, steps := MisledFails(plain, run, steps, 0, 0);
  }

  lemma StartsAt(plain: seq<byte>, s: State) returns (run: seq<State>, steps: seq<Step>)
    ensures Runs(plain, run, steps) && |run| > 0 && run[|run| - 1] == s == run[0]
  {
    run, steps := [s], [];
  }

  /** With an empty index, every call fails. */
  lemma EmptyIndexFails(plain: seq<byte>) returns (run: seq<State>, steps: seq<Step>)
    requires plain != []
    ensures Runs(plain, run, steps) && run[0] == Decode([]) && !Answers(plain, run[|run| - 1])
  {
    hide Runs;
    var s := Decode([]);
    run, steps := StartsAt(plain, s);
    s := s.(calls := s.calls[0 := Looking(0, 1)]);
    run, steps := Then(plain, run, steps, Begin(0, 0, 1), s);
    s := s.(calls := s.calls[0 := Missed(0, 1)]);
    run, steps := Then(plain, run, steps, Miss(0), s);
    s := s.(calls := s.calls[0 := Stranded(0, 1)]);
    run, steps := Then(plain, run, steps, Choose(0, None), s);
    s := s.(calls := s.calls[0 := Failed(0, 1, None)]);
    run, steps := Then(plain, run, steps, GiveUp(0), s);
    assert 0 in s.calls;
  }

  /** Where no block starts after the end of a member, an index made of the checkpoints received so far
      serves all calls exactly if there are any and the last one is not at the end of a member before the
      end of the file. */
  lemma IndexAnswersIff(plain: seq<byte>, run: seq<State>, steps: seq<Step>)
    requires Reachable(plain, run, steps) && plain != [] && EndsFail(run[|run| - 1].log, plain)
    ensures var list := run[|run| - 1].checkpoints;
            (forall later, more | Runs(plain, later, more) && later[0] == Decode(list) ::
               Answers(plain, later[|later| - 1]))
            <==> list != [] && !EndsAstray(list, plain)
  {
    hide Next, Answers, Decode, Init;
    var list := run[|run| - 1].checkpoints;
    if list == [] {
      var later, more := EmptyIndexFails(plain);
      assert Runs(plain, later, more);
    } else if EndsAstray(list, plain) {
      LastFails(plain, run, steps);
      var later, more := EarlyIndexFails(plain, list);
      assert Runs(plain, later, more);
    } else {
      forall later, more | Runs(plain, later, more) && later[0] == Decode(list)
        ensures Answers(plain, later[|later| - 1])
      {
        IndexAnswers(plain, run, steps, later, more);
      }
    }
  }

  lemma LastFails(plain: seq<byte>, run: seq<State>, steps: seq<Step>)
    requires Reachable(plain, run, steps) && EndsFail(run[|run| - 1].log, plain)
    requires EndsAstray(run[|run| - 1].checkpoints, plain)
    ensures var list := run[|run| - 1].checkpoints;
            0 <= list[|list| - 1].out && list[|list| - 1].rest == Decoded([], false)
  {
    hide Next, Exclusive, AllOk, RdOk, Init;
    RunKeeps(plain, run, steps, |run| - 1);
    var s := run[|run| - 1];
    assert s.checkpoints[|s.checkpoints| - 1] == s.log[|s.checkpoints| - 1];
  }
}
