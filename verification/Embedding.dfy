/** What a stream means depends on its bits, not on where they stand, nor, where it ends, on what follows. */
module Embedding {
  import opened Bits
  import opened Canonical
  import opened Deflate

  /** d stands in x from byte k on, and nothing follows it. */
  predicate EndsWith(x: seq<byte>, d: seq<byte>, k: nat) {
    Contains(x, d, k) && k + |d| == |x|
  }

  lemma PartMoved(x: seq<byte>, d: seq<byte>, k: nat, i: nat, j: nat)
    requires Contains(x, d, k) && i <= j <= |d|
    ensures x[i + k..j + k] == d[i..j]
  {
    forall h | i <= h < j ensures x[h + k] == d[h] {
      ByteMoved(x, d, k, h);
    }
  }

  lemma WordMoved(x: seq<byte>, d: seq<byte>, k: nat, q: nat)
    requires Contains(x, d, k) && q + 2 <= |d|
    ensures Word(x, q + k) == Word(d, q)
  {
    ByteMoved(x, d, k, q);
    ByteMoved(x, d, k, q + 1);
  }

  // Bits

  lemma {:induction false} CodeBitsMoved(x: seq<byte>, d: seq<byte>, k: nat, p: nat, n: nat)
    requires Contains(x, d, k) && p + n <= 8 * |d|
    ensures CodeBits(x, p + 8 * k, n) == CodeBits(d, p, n)
  {
    hide Bit, Contains;
    if n > 0 {
      CodeBitsMoved(x, d, k, p, n - 1);
      BitMoved(x, d, k, p + n - 1);
    }
  }

  lemma SymbolMoved(x: seq<byte>, d: seq<byte>, k: nat, l: seq<nat>, p: nat)
    requires Contains(x, d, k) && p <= 8 * |d| && (SymbolAt(l, d, p).Some? || EndsWith(x, d, k))
    ensures SymbolAt(l, x, p + 8 * k) == SymbolAt(l, d, p)
  {
    match SymbolAt(l, d, p)
    case Some(s) =>
      CodeBitsMoved(x, d, k, p, l[s]);
      SymbolAtIs(l, x, p + 8 * k, s);
    case None =>
      if SymbolAt(l, x, p + 8 * k).Some? {
        var s := SymbolAt(l, x, p + 8 * k).value;
        CodeBitsMoved(x, d, k, p, l[s]);
        assert CodeAt(l, d, p, s);
      }
  }

  // Blocks

  function Moved(r: Option<(seq<nat>, nat)>, k: nat): Option<(seq<nat>, nat)> {
    match r
    case None => None
    case Some(v) => Some((v.0, v.1 + 8 * k))
  }

  lemma {:induction false} ClenMoved(x: seq<byte>, d: seq<byte>, k: nat, p: nat, n: nat)
    requires Contains(x, d, k) && n <= NUM_CODES && Has(d, p, 3 * n)
    ensures ClenLens(x, p + 8 * k, n) == ClenLens(d, p, n)
  {
    if n > 0 {
      ClenMoved(x, d, k, p, n - 1);
      NumMoved(x, d, k, p + 3 * (n - 1), 3);
    }
  }

  lemma RunOfMoved(x: seq<byte>, d: seq<byte>, k: nat, p: nat, sym: nat, acc: seq<nat>)
    requires Contains(x, d, k) && p <= 8 * |d| && (RunOf(d, p, sym, acc).Some? || EndsWith(x, d, k))
    ensures RunOf(x, p + 8 * k, sym, acc) == Moved(RunOf(d, p, sym, acc), k)
  {
    hide Num;
    var n := if sym == 16 then 2 else if sym == 17 then 3 else 7;
    if 16 <= sym <= 18 && Has(d, p, n) {
      NumMoved(x, d, k, p, n);
    }
  }

  /** The next run of code lengths and the position after it. */
  function NextRun(d: seq<byte>, p: nat, cl: seq<nat>, acc: seq<nat>): (r: Option<(seq<nat>, nat)>)
    requires p <= 8 * |d|
    ensures r.Some? ==> p < r.value.1 <= 8 * |d|
  {
    match SymbolAt(cl, d, p)
    case None => None
    case Some(s) =>
      RunOfPosition(d, p + cl[s], s, acc);
      RunOf(d, p + cl[s], s, acc)
  }

  lemma CodeLensNext(d: seq<byte>, p: nat, cl: seq<nat>, acc: seq<nat>, n: nat)
    requires p <= 8 * |d|
    ensures CodeLens(d, p, cl, acc, n) == if |acc| == n then Some((acc, p))
                                          else match NextRun(d, p, cl, acc)
                                            case None => None
                                            case Some(run) =>
                                              if |acc| + |run.0| > n then None
                                              else CodeLens(d, run.1, cl, acc + run.0, n)
  {
    hide SymbolAt, RunOf;
  }

  lemma NextRunMoved(x: seq<byte>, d: seq<byte>, k: nat, p: nat, cl: seq<nat>, acc: seq<nat>)
    requires Contains(x, d, k) && p <= 8 * |d| && (NextRun(d, p, cl, acc).Some? || EndsWith(x, d, k))
    ensures NextRun(x, p + 8 * k, cl, acc) == Moved(NextRun(d, p, cl, acc), k)
  {
    hide SymbolAt, RunOf, Contains, EndsWith;
    SymbolMoved(x, d, k, cl, p);
    match SymbolAt(cl, d, p)
    case None =>
    case Some(s) => RunOfMoved(x, d, k, p + cl[s], s, acc);
  }

  lemma {:induction false} CodeLensMoved(x: seq<byte>, d: seq<byte>, k: nat, p: nat, cl: seq<nat>, acc: seq<nat>,
                                         n: nat)
    requires Contains(x, d, k) && p <= 8 * |d| && (CodeLens(d, p, cl, acc, n).Some? || EndsWith(x, d, k))
    ensures CodeLens(x, p + 8 * k, cl, acc, n) == Moved(CodeLens(d, p, cl, acc, n), k)
    decreases 8 * |d| - p
  {
    hide NextRun, Contains, EndsWith, CodeLens;
    ContainsLength(x, d, k);
    CodeLensNext(d, p, cl, acc, n);
    CodeLensNext(x, p + 8 * k, cl, acc, n);
    if |acc| != n {
      NextRunMoved(x, d, k, p, cl, acc);
      match NextRun(d, p, cl, acc)
      case None =>
      case Some(run) =>
        if |acc| + |run.0| <= n {
          CodeLensMoved(x, d, k, run.1, cl, acc + run.0, n);
        }
    }
  }

  lemma ContainsLength(x: seq<byte>, d: seq<byte>, k: nat)
    requires Contains(x, d, k)
    ensures |d| + k <= |x|
  {
  }

  lemma RunOfPosition(d: seq<byte>, p: nat, sym: nat, acc: seq<nat>)
    requires p <= 8 * |d|
    ensures var r := RunOf(d, p, sym, acc); r.Some? ==> p <= r.value.1 <= 8 * |d|
  {
  }

  function MovedCodes(r: Option<(seq<nat>, seq<nat>, nat)>, k: nat): Option<(seq<nat>, seq<nat>, nat)> {
    match r
    case None => None
    case Some(v) => Some((v.0, v.1, v.2 + 8 * k))
  }

  lemma DynamicMoved(x: seq<byte>, d: seq<byte>, k: nat, p: nat)
    requires Contains(x, d, k) && (DynamicCodes(d, p).Some? || EndsWith(x, d, k))
    ensures DynamicCodes(x, p + 8 * k) == MovedCodes(DynamicCodes(d, p), k)
  {
    hide Num, Accepted, ClenLens, CodeLens;
    if Has(d, p, 14) {
      NumMoved(x, d, k, p, 5);
      NumMoved(x, d, k, p + 5, 5);
      NumMoved(x, d, k, p + 10, 4);
      var nlit, ndist, nclen := Num(d, p, 5) + 257, Num(d, p + 5, 5) + 1, Num(d, p + 10, 4) + 4;
      if nlit <= MAX_NUM_LIT && ndist <= MAX_NUM_DIST && nclen <= NUM_CODES && Has(d, p + 14, 3 * nclen) {
        ClenMoved(x, d, k, p + 14, nclen);
        var cl := ClenLens(d, p + 14, nclen);
        if Accepted(cl) {
          CodeLensMoved(x, d, k, p + 14 + 3 * nclen, cl, [], nlit + ndist);
        }
      }
    }
  }

  lemma StoredLenMoved(x: seq<byte>, d: seq<byte>, k: nat, p: nat)
    requires Contains(x, d, k) && NextByte(p) + 4 <= |d|
    ensures StoredLen(x, p + 8 * k) == StoredLen(d, p)
  {
    hide Word;
    WordMoved(x, d, k, NextByte(p));
    WordMoved(x, d, k, NextByte(p) + 2);
  }

  lemma StoredMoved(x: seq<byte>, d: seq<byte>, k: nat, p: nat)
    requires Contains(x, d, k) && (StoredLen(d, p).Some? || EndsWith(x, d, k))
    ensures StoredLen(x, p + 8 * k) == StoredLen(d, p) && NextByte(p + 8 * k) == NextByte(p) + k
  {
    hide Word;
    if NextByte(p) + 4 <= |d| {
      StoredLenMoved(x, d, k, p);
    }
  }

  lemma BlockMoved(x: seq<byte>, d: seq<byte>, k: nat, p: nat)
    requires Contains(x, d, k) && (BlockStep(d, p).Some? || EndsWith(x, d, k))
    ensures BlockStep(x, p + 8 * k) == match BlockStep(d, p)
                                       case None => None
                                       case Some(b) => Some((b.0, b.1 + 8 * k))
  {
    hide Num, DynamicCodes, StoredLen, FixedLit, FixedDist;
    if Has(d, p, 3) {
      NumMoved(x, d, k, p, 1);
      NumMoved(x, d, k, p + 1, 2);
      var typ := Num(d, p + 1, 2);
      if typ == 0 {
        StoredMoved(x, d, k, p + 3);
      } else if typ == 2 {
        DynamicMoved(x, d, k, p + 3);
      }
    }
  }

  // The machine

  function MovedConfig(c: Config, k: nat): Config {
    c.(p := c.p + 8 * k)
  }

  function MovedField(r: Option<(nat, nat)>, k: nat): Option<(nat, nat)> {
    match r
    case None => None
    case Some(v) => Some((v.0, v.1 + 8 * k))
  }

  lemma LengthMoved(x: seq<byte>, d: seq<byte>, k: nat, p: nat, sym: nat)
    requires Contains(x, d, k) && 257 <= sym < MAX_NUM_LIT && (LengthAt(d, p, sym).Some? || EndsWith(x, d, k))
    ensures LengthAt(x, p + 8 * k, sym) == MovedField(LengthAt(d, p, sym), k)
  {
    hide Num;
    if Has(d, p, LENGTH_EXTRA[sym - 257]) {
      NumMoved(x, d, k, p, LENGTH_EXTRA[sym - 257]);
    }
  }

  lemma DistMoved(x: seq<byte>, d: seq<byte>, k: nat, p: nat, dist: seq<nat>)
    requires Contains(x, d, k) && p <= 8 * |d| && (DistAt(d, p, dist).Some? || EndsWith(x, d, k))
    ensures DistAt(x, p + 8 * k, dist) == MovedField(DistAt(d, p, dist), k)
  {
    hide Num, SymbolAt;
    SymbolMoved(x, d, k, dist, p);
    match SymbolAt(dist, d, p)
    case None =>
    case Some(s) =>
      if s < MAX_NUM_DIST && Has(d, p + dist[s], DIST_EXTRA[s]) {
        NumMoved(x, d, k, p + dist[s], DIST_EXTRA[s]);
      }
  }

  lemma MatchMoved(x: seq<byte>, d: seq<byte>, k: nat, c: Config, p: nat, sym: nat)
    requires Contains(x, d, k) && c.mode.Symbols? && 257 <= sym < MAX_NUM_LIT && c.p < p <= 8 * |d|
    requires !MatchStep(d, c, p, sym).mode.Bad? || EndsWith(x, d, k)
    ensures MatchStep(x, MovedConfig(c, k), p + 8 * k, sym) == MovedConfig(MatchStep(d, c, p, sym), k)
  {
    hide DistAt;
    LengthMoved(x, d, k, p, sym);
    match LengthAt(d, p, sym)
    case None =>
    case Some(l) => DistMoved(x, d, k, l.1, c.mode.dist);
  }

  lemma SymbolStepMoved(x: seq<byte>, d: seq<byte>, k: nat, c: Config)
    requires Contains(x, d, k) && c.mode.Symbols? && c.p <= 8 * |d|
    requires !SymbolStep(d, c).mode.Bad? || EndsWith(x, d, k)
    ensures SymbolStep(x, MovedConfig(c, k)) == MovedConfig(SymbolStep(d, c), k)
  {
    hide SymbolAt, MatchStep, Contains;
    var lit := c.mode.lit;
    SymbolMoved(x, d, k, lit, c.p);
    match SymbolAt(lit, d, c.p)
    case None =>
    case Some(sym) =>
      if END_OF_BLOCK < sym < MAX_NUM_LIT {
        MatchMoved(x, d, k, c, c.p + lit[sym], sym);
      }
  }

  lemma StepInside(d: seq<byte>, c: Config)
    requires c.p <= 8 * |d|
    ensures Step(d, c).p <= 8 * |d|
  {
  }

  lemma StepMoved(x: seq<byte>, d: seq<byte>, k: nat, c: Config)
    requires Contains(x, d, k) && c.p <= 8 * |d| && (!Step(d, c).mode.Bad? || EndsWith(x, d, k))
    ensures Step(x, MovedConfig(c, k)) == MovedConfig(Step(d, c), k)
  {
    hide BlockStep, SymbolStep;
    match c.mode
    case Block => BlockMoved(x, d, k, c.p);
    case Symbols(_, _, _) => SymbolStepMoved(x, d, k, c);
    case Raw(len, _) =>
      if 0 < len && c.p % 8 == 0 && c.p / 8 < |d| {
        ByteMoved(x, d, k, c.p / 8);
      }
    case _ =>
  }

  /** The machine does not depend on where the stream stands, nor, if it gets to the end of the data,
      on what follows. */
  lemma {:induction false} RunMoved(x: seq<byte>, d: seq<byte>, k: nat, c: Config)
    requires Contains(x, d, k) && c.p <= 8 * |d| && (Run(d, c).mode.Done? || EndsWith(x, d, k))
    ensures Run(x, MovedConfig(c, k)) == MovedConfig(Run(d, c), k)
    decreases Left(d, c), Rank(c.mode)
  {
    hide Step;
    if !Stopped(c) {
      StepDescends(d, c);
      StepMoved(x, d, k, c);
      StepInside(d, c);
      RunMoved(x, d, k, Step(d, c));
    }
  }
}
