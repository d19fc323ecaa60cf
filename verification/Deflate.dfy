/** What a DEFLATE stream means (RFC 1951): a machine that reads one syntactic element, or writes
    one byte, at a time, with an unbounded output and no buffers. */
module Deflate {
  import opened Bits
  import opened Canonical
  import opened Window

  /** The largest distance of a back-reference, and so the size of the window. */
  const WINDOW_SIZE: nat := 32768

  const END_OF_BLOCK: nat := 256
  const MAX_NUM_LIT: nat := 286
  const MAX_NUM_DIST: nat := 30
  const NUM_CODES: nat := 19

  // The tables of section 3.2.5, from symbol 257 and from distance symbol 0

  const LENGTH_BASE: seq<nat> := [3, 4, 5, 6, 7, 8, 9, 10, 11, 13, 15, 17, 19, 23, 27, 31, 35, 43, 51, 59,
                                  67, 83, 99, 115, 131, 163, 195, 227, 258]
  const LENGTH_EXTRA: seq<nat> := [0, 0, 0, 0, 0, 0, 0, 0, 1, 1, 1, 1, 2, 2, 2, 2, 3, 3, 3, 3,
                                   4, 4, 4, 4, 5, 5, 5, 5, 0]
  const DIST_BASE: seq<nat> := [1, 2, 3, 4, 5, 7, 9, 13, 17, 25, 33, 49, 65, 97, 129, 193, 257, 385, 513, 769,
                                1025, 1537, 2049, 3073, 4097, 6145, 8193, 12289, 16385, 24577]
  const DIST_EXTRA: seq<nat> := [0, 0, 0, 0, 1, 1, 2, 2, 3, 3, 4, 4, 5, 5, 6, 6, 7, 7, 8, 8,
                                 9, 9, 10, 10, 11, 11, 12, 12, 13, 13]

  /** The order of the code length code lengths, section 3.2.7. */
  const CODE_ORDER: seq<nat> := [16, 17, 18, 0, 8, 7, 9, 6, 10, 5, 11, 4, 12, 3, 13, 2, 14, 1, 15]

  /** Literal/length code lengths of section 3.2.6. */
  function FixedLit(): (l: seq<nat>)
    ensures |l| == 288
  {
    seq(288, i => if i < 144 then 8 else if i < 256 then 9 else if i < 280 then 7 else 8)
  }

  /** Distance codes 0 to 31 of section 3.2.6 are five bits each. */
  function FixedDist(): (l: seq<nat>)
    ensures |l| == 32
  {
    seq(32, _ => 5)
  }

  datatype Mode =
    | Block
    | Symbols(lit: seq<nat>, dist: seq<nat>, final: bool)
    | Copy(from: nat, len: nat, lit: seq<nat>, dist: seq<nat>, final: bool)
    | Raw(len: nat, final: bool)
    | Done
    | Bad

  /** Where the reader is in the stream, in bits, and everything written so far. */
  datatype Config = Config(mode: Mode, p: nat, out: seq<byte>)

  predicate Has(d: seq<byte>, p: nat, n: nat) {
    p + n <= 8 * |d|
  }

  // Block headers

  /** The code length code lengths, once the first n are read. */
  function ClenLens(d: seq<byte>, p: nat, n: nat): (l: seq<nat>)
    requires n <= NUM_CODES && Has(d, p, 3 * n)
    ensures |l| == NUM_CODES
    ensures forall i | 0 <= i < |l| :: l[i] < 8
  {
    if n == 0 then seq(NUM_CODES, _ => 0)
    else
      assert Pow2(3) == 8 by { Pow2Values(); }
      ClenLens(d, p, n - 1)[CODE_ORDER[n - 1] := Num(d, p + 3 * (n - 1), 3)]
  }

  /** The run a code length symbol stands for, after the lengths in acc. */
  function RunOf(d: seq<byte>, p: nat, sym: nat, acc: seq<nat>): Option<(seq<nat>, nat)>
    requires p <= 8 * |d|
  {
    if sym < 16 then Some(([sym], p))
    else if sym == 16 then
      if 0 < |acc| && Has(d, p, 2) then Some((seq(3 + Num(d, p, 2), _ => acc[|acc| - 1]), p + 2)) else None
    else if sym == 17 then
      if Has(d, p, 3) then Some((seq(3 + Num(d, p, 3), _ => 0), p + 3)) else None
    else if sym == 18 then
      if Has(d, p, 7) then Some((seq(11 + Num(d, p, 7), _ => 0), p + 7)) else None
    else None
  }

  /** Reads code lengths until there are n, as one list across the boundary between literal and
      distance codes. */
  function CodeLens(d: seq<byte>, p: nat, cl: seq<nat>, acc: seq<nat>, n: nat): (r: Option<(seq<nat>, nat)>)
    requires p <= 8 * |d|
    ensures r.Some? ==> |r.value.0| == n && p <= r.value.1 <= 8 * |d|
    decreases 8 * |d| - p
  {
    if |acc| == n then Some((acc, p))
    else
      match SymbolAt(cl, d, p)
      case None => None
      case Some(s) =>
        match RunOf(d, p + cl[s], s, acc)
        case None => None
        case Some(run) =>
          if |acc| + |run.0| > n then None else CodeLens(d, run.1, cl, acc + run.0, n)
  }

  /** The codes a dynamic block defines (section 3.2.7), and where its data starts. */
  function DynamicCodes(d: seq<byte>, p: nat): (r: Option<(seq<nat>, seq<nat>, nat)>)
    ensures r.Some? ==> p <= r.value.2 <= 8 * |d|
  {
    if !Has(d, p, 14) then None
    else
      var nlit, ndist, nclen := Num(d, p, 5) + 257, Num(d, p + 5, 5) + 1, Num(d, p + 10, 4) + 4;
      if nlit > MAX_NUM_LIT || ndist > MAX_NUM_DIST || nclen > NUM_CODES || !Has(d, p + 14, 3 * nclen) then None
      else
        var cl := ClenLens(d, p + 14, nclen);
        if !Accepted(cl) then None
        else
          match CodeLens(d, p + 14 + 3 * nclen, cl, [], nlit + ndist)
          case None => None
          case Some(r) =>
            if Accepted(r.0[..nlit]) && Accepted(r.0[nlit..]) then Some((r.0[..nlit], r.0[nlit..], r.1)) else None
  }

  /** The first byte boundary at or after bit p. */
  function NextByte(p: nat): nat {
    (p + 7) / 8
  }

  /** Two bytes, least significant first. */
  function Word(d: seq<byte>, q: nat): (r: nat)
    requires q + 2 <= |d|
  {
    d[q] as int + 256 * d[q + 1] as int
  }

  /** The length of a stored block whose header ends at bit p (section 3.2.4). */
  function StoredLen(d: seq<byte>, p: nat): Option<nat> {
    var q := NextByte(p);
    if q + 4 > |d| then None
    else
      var n, nn := Word(d, q), Word(d, q + 2);
      if n + nn == 0xFFFF then Some(n) else None
  }

  /** The block at bit p is a stored block of length zero. */
  predicate StoresNothing(d: seq<byte>, p: nat) {
    Has(d, p, 3) && Num(d, p + 1, 2) == 0 && StoredLen(d, p + 3) == Some(0)
  }

  function BlockStep(d: seq<byte>, p: nat): (r: Option<(Mode, nat)>)
    ensures r.Some? ==> p < r.value.1 <= 8 * |d| && !r.value.0.Done? && !r.value.0.Copy?
  {
    if !Has(d, p, 3) then None
    else
      var final, typ := Num(d, p, 1) == 1, Num(d, p + 1, 2);
      if typ == 0 then
        match StoredLen(d, p + 3)
        case None => None
        case Some(n) => Some((Raw(n, final), 8 * (NextByte(p + 3) + 4)))
      else if typ == 1 then Some((Symbols(FixedLit(), FixedDist(), final), p + 3))
      else if typ == 2 then
        match DynamicCodes(d, p + 3)
        case None => None
        case Some(c) => Some((Symbols(c.0, c.1, final), c.2))
      else None
  }

  // Symbols

  /** The length of a match, whose symbol ends at bit p. */
  function LengthAt(d: seq<byte>, p: nat, sym: nat): (r: Option<(nat, nat)>)
    requires 257 <= sym < MAX_NUM_LIT
    ensures r.Some? ==> p <= r.value.1
  {
    var n := LENGTH_EXTRA[sym - 257];
    if Has(d, p, n) then Some((LENGTH_BASE[sym - 257] + Num(d, p, n), p + n)) else None
  }

  /** The distance of a match, whose distance symbol starts at bit p. */
  function DistAt(d: seq<byte>, p: nat, dist: seq<nat>): (r: Option<(nat, nat)>)
    ensures r.Some? ==> p <= r.value.1 <= 8 * |d| && 0 < r.value.0
  {
    match SymbolAt(dist, d, p)
    case None => None
    case Some(s) =>
      if s >= MAX_NUM_DIST || !Has(d, p + dist[s], DIST_EXTRA[s]) then None
      else Some((DIST_BASE[s] + Num(d, p + dist[s], DIST_EXTRA[s]), p + dist[s] + DIST_EXTRA[s]))
  }

  function EndBlock(final: bool): Mode {
    if final then Done else Block
  }

  function MatchStep(d: seq<byte>, c: Config, p: nat, sym: nat): (r: Config)
    requires c.mode.Symbols? && 257 <= sym < MAX_NUM_LIT && c.p < p <= 8 * |d|
    ensures r.mode.Bad? || (r.mode.Copy? && c.p < r.p <= 8 * |d|)
    ensures r.out == c.out
  {
    match LengthAt(d, p, sym)
    case None => c.(mode := Bad)
    case Some(l) =>
      match DistAt(d, l.1, c.mode.dist)
      case None => c.(mode := Bad)
      case Some(t) =>
        if t.0 > Min(|c.out|, WINDOW_SIZE) then c.(mode := Bad)
        else Config(Copy(t.0, l.0, c.mode.lit, c.mode.dist, c.mode.final), t.1, c.out)
  }

  /** What a literal/length symbol does that ends at bit p. */
  function AfterSymbol(d: seq<byte>, c: Config, p: nat, sym: nat): (r: Config)
    requires c.mode.Symbols? && c.p < p <= 8 * |d|
    ensures r.mode.Bad? || c.p < r.p <= 8 * |d|
    ensures c.out <= r.out
  {
    if sym < 256 then Config(c.mode, p, c.out + [sym])
    else if sym == END_OF_BLOCK then Config(EndBlock(c.mode.final), p, c.out)
    else if sym < MAX_NUM_LIT then MatchStep(d, c, p, sym)
    else c.(mode := Bad)
  }

  function SymbolStep(d: seq<byte>, c: Config): (r: Config)
    requires c.mode.Symbols?
    ensures r.mode.Bad? || c.p < r.p <= 8 * |d|
    ensures c.out <= r.out
  {
    match SymbolAt(c.mode.lit, d, c.p)
    case None => c.(mode := Bad)
    case Some(sym) => AfterSymbol(d, c, c.p + c.mode.lit[sym], sym)
  }

  function Step(d: seq<byte>, c: Config): (r: Config)
    ensures c.out <= r.out
  {
    match c.mode
    case Block =>
      (match BlockStep(d, c.p)
       case None => c.(mode := Bad)
       case Some(b) => Config(b.0, b.1, c.out))
    case Symbols(_, _, _) => SymbolStep(d, c)
    case Copy(from, len, lit, dist, final) =>
      if from == 0 || from > |c.out| then c.(mode := Bad)
      else if len == 0 then c.(mode := Symbols(lit, dist, final))
      else Config(Copy(from, len - 1, lit, dist, final), c.p, c.out + [c.out[|c.out| - from]])
    case Raw(len, final) =>
      if len == 0 then c.(mode := EndBlock(final))
      else if c.p % 8 != 0 || c.p / 8 >= |d| then c.(mode := Bad)
      else Config(Raw(len - 1, final), c.p + 8, c.out + [d[c.p / 8]])
    case Done => c
    case Bad => c
  }

  function Left(d: seq<byte>, c: Config): nat {
    if c.p <= 8 * |d| then 8 * |d| - c.p else 0
  }

  function Rank(m: Mode): nat {
    match m
    case Done => 0
    case Bad => 0
    case Block => 1
    case Symbols(_, _, _) => 1
    case Raw(_, _) => 2
    case Copy(_, len, _, _, _) => 2 + len
  }

  predicate Stopped(c: Config) {
    c.mode.Done? || c.mode.Bad?
  }

  lemma StepDescends(d: seq<byte>, c: Config)
    requires !Stopped(c)
    ensures var c' := Step(d, c);
            Left(d, c') < Left(d, c) || (Left(d, c') == Left(d, c) && Rank(c'.mode) < Rank(c.mode))
  {
  }

  /** Where the machine stops: Done with the whole output, or Bad at the first error. */
  function Run(d: seq<byte>, c: Config): (r: Config)
    ensures Stopped(r) && c.out <= r.out
    decreases Left(d, c), Rank(c.mode)
  {
    if Stopped(c) then c
    else
      StepDescends(d, c);
      Run(d, Step(d, c))
  }

  /** The machine stops inside the stream. */
  lemma {:induction false} RunInside(d: seq<byte>, c: Config)
    requires c.p <= 8 * |d|
    ensures c.p <= Run(d, c).p <= 8 * |d|
    decreases Left(d, c), Rank(c.mode)
  {
    if !Stopped(c) {
      StepDescends(d, c);
      RunInside(d, Step(d, c));
    }
  }

  lemma RunStep(d: seq<byte>, c: Config)
    requires !Stopped(c)
    ensures Run(d, c) == Run(d, Step(d, c))
  {
  }

  lemma RunTo(d: seq<byte>, c: Config, c': Config)
    requires !Stopped(c) && Step(d, c) == c'
    ensures Run(d, c) == Run(d, c')
  {
  }

  // Several steps at once

  lemma CopyNext(d: seq<byte>, from: nat, len: nat, lit: seq<nat>, dist: seq<nat>, final: bool,
                 p: nat, out: seq<byte>, out': seq<byte>)
    requires 0 < from <= |out| && 0 < len && out' == out + [out[|out| - from]]
    ensures Run(d, Config(Copy(from, len, lit, dist, final), p, out))
         == Run(d, Config(Copy(from, len - 1, lit, dist, final), p, out'))
  {
    RunTo(d, Config(Copy(from, len, lit, dist, final), p, out), Config(Copy(from, len - 1, lit, dist, final), p, out'));
  }

  lemma {:induction false} RunCopy(d: seq<byte>, from: nat, len: nat, lit: seq<nat>, dist: seq<nat>, final: bool,
                                   p: nat, out: seq<byte>, k: nat)
    requires 0 < from <= |out| && k <= len
    ensures Run(d, Config(Copy(from, len, lit, dist, final), p, out))
         == Run(d, Config(Copy(from, len - k, lit, dist, final), p, CopyBytes(out, from, k)))
    decreases k
  {
    hide Run, Step, Left, Rank;
    if k == 0 {
      assert CopyBytes(out, from, 0) == out;
    } else {
      RunCopy(d, from, len, lit, dist, final, p, out, k - 1);
      CopyNext(d, from, len - k + 1, lit, dist, final, p, CopyBytes(out, from, k - 1), CopyBytes(out, from, k));
    }
  }

  lemma SliceSnoc(out: seq<byte>, d: seq<byte>, lo: nat, hi: nat)
    requires lo <= hi < |d|
    ensures out + d[lo..hi] + [d[hi]] == out + d[lo..hi + 1]
  {
  }

  lemma RawNext(d: seq<byte>, len: nat, final: bool, q: nat, out: seq<byte>, out': seq<byte>)
    requires 0 < len && q < |d| && out' == out + [d[q]]
    ensures Run(d, Config(Raw(len, final), 8 * q, out)) == Run(d, Config(Raw(len - 1, final), 8 * (q + 1), out'))
  {
    hide Run, BlockStep, SymbolStep;
    ByteStart(q);
    RunTo(d, Config(Raw(len, final), 8 * q, out), Config(Raw(len - 1, final), 8 * (q + 1), out'));
  }

  lemma ByteStart(q: nat)
    ensures 8 * q % 8 == 0 && 8 * q / 8 == q
  {
  }

  lemma {:induction false} RunRaw(d: seq<byte>, len: nat, final: bool, q: nat, out: seq<byte>, k: nat)
    requires k <= len && q + k <= |d|
    ensures Run(d, Config(Raw(len, final), 8 * q, out))
         == Run(d, Config(Raw(len - k, final), 8 * (q + k), out + d[q..q + k]))
    decreases k
  {
    hide Run, Step, Left, Rank;
    if k == 0 {
      assert out + d[q..q] == out;
    } else {
      RunRaw(d, len, final, q, out, k - 1);
      SliceSnoc(out, d, q, q + k - 1);
      RawNext(d, len - k + 1, final, q + k - 1, out + d[q..q + k - 1], out + d[q..q + k]);
    }
  }

  // The machine depends on its output only through the window

  /** The same place in the stream with the same window; `more` is what a has produced in addition
      to the common beginning that b lacks. */
  ghost predicate SameWindow(a: Config, b: Config) {
    && a.mode == b.mode && a.p == b.p
    && Last(a.out, WINDOW_SIZE) == Last(b.out, WINDOW_SIZE)
    && (a.mode.Copy? ==> a.mode.from <= WINDOW_SIZE)
  }

  lemma LastByte(a: seq<byte>, b: seq<byte>, n: nat, from: nat)
    requires Last(a, n) == Last(b, n) && 0 < from <= n
    ensures from <= |a| <==> from <= |b|
    ensures from <= |a| ==> a[|a| - from] == b[|b| - from]
  {
    var x, y := Last(a, n), Last(b, n);
    if from <= |a| {
      assert a[|a| - from] == x[|x| - from];
    }
    if from <= |b| {
      assert b[|b| - from] == y[|y| - from];
    }
  }

  lemma LastSnoc(a: seq<byte>, b: seq<byte>, n: nat, x: byte)
    requires Last(a, n) == Last(b, n) && 0 < n
    ensures Last(a + [x], n) == Last(b + [x], n)
  {
    if |a| < n && |b| < n {
    } else {
      assert Last(a + [x], n) == Last(a, n)[1..] + [x];
      assert Last(b + [x], n) == Last(b, n)[1..] + [x];
    }
  }

  lemma SameWindowStep(d: seq<byte>, a: Config, b: Config)
    requires SameWindow(a, b) && !Stopped(a)
    ensures SameWindow(Step(d, a), Step(d, b))
    ensures Step(d, a).out[|a.out|..] == Step(d, b).out[|b.out|..]
  {
    if a.mode.Symbols? {
      SameWindowSymbol(d, a, b);
    } else if a.mode.Copy? {
      SameWindowCopy(d, a, b);
    } else if a.mode.Raw? && 0 < a.mode.len && a.p % 8 == 0 && a.p / 8 < |d| {
      LastSnoc(a.out, b.out, WINDOW_SIZE, d[a.p / 8]);
    }
  }

  lemma SameWindowSymbol(d: seq<byte>, a: Config, b: Config)
    requires SameWindow(a, b) && a.mode.Symbols?
    ensures SameWindow(SymbolStep(d, a), SymbolStep(d, b))
    ensures SymbolStep(d, a).out[|a.out|..] == SymbolStep(d, b).out[|b.out|..]
  {
    hide MatchStep, AfterSymbol, Last, CodeBits, Code;
    var sym := SymbolAt(a.mode.lit, d, a.p);
    if sym.Some? {
      SameWindowAfter(d, a, b, a.p + a.mode.lit[sym.value], sym.value);
    }
  }

  lemma SameWindowAfter(d: seq<byte>, a: Config, b: Config, p: nat, sym: nat)
    requires SameWindow(a, b) && a.mode.Symbols? && a.p < p <= 8 * |d|
    ensures SameWindow(AfterSymbol(d, a, p, sym), AfterSymbol(d, b, p, sym))
    ensures AfterSymbol(d, a, p, sym).out[|a.out|..] == AfterSymbol(d, b, p, sym).out[|b.out|..]
  {
    if sym < 256 {
      SameWindowByte(a, b, a.mode, p, sym);
    } else if END_OF_BLOCK < sym < MAX_NUM_LIT {
      SameWindowMatch(d, a, b, p, sym);
    }
  }

  lemma SameWindowByte(a: Config, b: Config, mode: Mode, p: nat, x: byte)
    requires SameWindow(a, b) && (mode.Copy? ==> mode.from <= WINDOW_SIZE)
    ensures SameWindow(Config(mode, p, a.out + [x]), Config(mode, p, b.out + [x]))
    ensures (a.out + [x])[|a.out|..] == (b.out + [x])[|b.out|..]
  {
    LastSnoc(a.out, b.out, WINDOW_SIZE, x);
  }

  lemma SameWindowMatch(d: seq<byte>, a: Config, b: Config, p: nat, sym: nat)
    requires SameWindow(a, b) && a.mode.Symbols? && 257 <= sym < MAX_NUM_LIT && a.p < p <= 8 * |d|
    ensures SameWindow(MatchStep(d, a, p, sym), MatchStep(d, b, p, sym))
  {
    assert Min(|a.out|, WINDOW_SIZE) == |Last(a.out, WINDOW_SIZE)| == Min(|b.out|, WINDOW_SIZE);
  }

  lemma SameWindowCopy(d: seq<byte>, a: Config, b: Config)
    requires SameWindow(a, b) && a.mode.Copy?
    ensures SameWindow(Step(d, a), Step(d, b))
    ensures Step(d, a).out[|a.out|..] == Step(d, b).out[|b.out|..]
  {
    var m := a.mode;
    if 0 < m.from {
      LastByte(a.out, b.out, WINDOW_SIZE, m.from);
      if m.from <= |a.out| && 0 < m.len {
        SameWindowByte(a, b, Copy(m.from, m.len - 1, m.lit, m.dist, m.final), a.p, a.out[|a.out| - m.from]);
      }
    }
  }

  /** From the same window, the machine writes the same bytes and stops at the same place. */
  lemma {:induction false} SameWindowRun(d: seq<byte>, a: Config, b: Config)
    requires SameWindow(a, b)
    ensures Run(d, a).mode == Run(d, b).mode && Run(d, a).p == Run(d, b).p
    ensures Run(d, a).out[|a.out|..] == Run(d, b).out[|b.out|..]
    decreases Left(d, a), Rank(a.mode)
  {
    if !Stopped(a) {
      StepDescends(d, a);
      SameWindowStep(d, a, b);
      var a', b' := Step(d, a), Step(d, b);
      SameWindowRun(d, a', b');
      TailParts(a.out, a'.out, Run(d, a).out);
      TailParts(b.out, b'.out, Run(d, b).out);
    }
  }

  lemma TailParts(x: seq<byte>, y: seq<byte>, z: seq<byte>)
    requires x <= y <= z
    ensures z[|x|..] == y[|x|..] + z[|y|..]
  {
    assert z[..|y|] == y;
  }

  // What is still needed to finish a block

  /** A block can only be finished if the end-of-block code still fits in the stream. */
  lemma {:induction false} NeedsEndOfBlock(d: seq<byte>, c: Config)
    requires c.mode.Symbols? || c.mode.Copy?
    requires Run(d, c).mode.Done?
    ensures END_OF_BLOCK < |c.mode.lit| && 0 < c.mode.lit[END_OF_BLOCK] && Has(d, c.p, c.mode.lit[END_OF_BLOCK])
    decreases Left(d, c), Rank(c.mode)
  {
    StepDescends(d, c);
    var c' := Step(d, c);
    if c'.mode.Symbols? || c'.mode.Copy? {
      NeedsEndOfBlock(d, c');
    }
  }

  // How a run goes on

  lemma RunAfter(d: seq<byte>, c: Config, sym: nat)
    requires c.mode.Symbols? && SymbolAt(c.mode.lit, d, c.p) == Some(sym)
    ensures sym < |c.mode.lit| && c.p < c.p + c.mode.lit[sym] <= 8 * |d|
    ensures Run(d, c) == Run(d, AfterSymbol(d, c, c.p + c.mode.lit[sym], sym))
  {
    hide AfterSymbol, CodeBits, Code;
    RunStep(d, c);
  }

  /** The ways a run goes on from a symbol that ends at bit q. */
  lemma RunSymbol(d: seq<byte>, c: Config, sym: nat, q: nat)
    requires c.mode.Symbols? && SymbolAt(c.mode.lit, d, c.p) == Some(sym) && q == c.p + c.mode.lit[sym]
    ensures c.p < q <= 8 * |d|
    ensures sym < 256 ==> Run(d, c) == Run(d, Config(c.mode, q, c.out + [sym]))
    ensures sym == END_OF_BLOCK ==> Run(d, c) == Run(d, Config(EndBlock(c.mode.final), q, c.out))
    ensures END_OF_BLOCK < sym < MAX_NUM_LIT ==> Run(d, c) == Run(d, MatchStep(d, c, q, sym))
    ensures MAX_NUM_LIT <= sym ==> Run(d, c).mode.Bad?
  {
    hide MatchStep, Run, SymbolAt;
    RunAfter(d, c, sym);
    if MAX_NUM_LIT <= sym {
      RunStopped(d, c.(mode := Bad));
    }
  }

  /** Without a symbol, or without room for the end-of-block code, the block fails. */
  lemma RunNoSymbol(d: seq<byte>, c: Config, m: nat)
    requires c.mode.Symbols? && c.p <= 8 * |d|
    requires END_OF_BLOCK < |c.mode.lit| && 0 < c.mode.lit[END_OF_BLOCK] ==> m <= c.mode.lit[END_OF_BLOCK]
    requires SymbolAt(c.mode.lit, d, c.p) == None || 8 * |d| < c.p + m
    ensures Run(d, c).mode.Bad?
  {
    if SymbolAt(c.mode.lit, d, c.p) == None {
      assert Step(d, c).mode.Bad?;
    } else if Run(d, c).mode.Done? {
      NeedsEndOfBlock(d, c);
    }
  }

  lemma RunCopied(d: seq<byte>, from: nat, len: nat, left: nat, lit: seq<nat>, dist: seq<nat>, final: bool,
                  p: nat, out: seq<byte>, out': seq<byte>)
    requires 0 < from <= |out| && left <= len && out' == CopyBytes(out, from, len - left)
    ensures Run(d, Config(Copy(from, len, lit, dist, final), p, out))
         == Run(d, Config(Copy(from, left, lit, dist, final), p, out'))
  {
    hide Run, CopyBytes;
    RunCopy(d, from, len, lit, dist, final, p, out, len - left);
  }

  lemma RunCopyEnd(d: seq<byte>, from: nat, lit: seq<nat>, dist: seq<nat>, final: bool, p: nat, out: seq<byte>)
    requires 0 < from <= |out|
    ensures Run(d, Config(Copy(from, 0, lit, dist, final), p, out)) == Run(d, Config(Symbols(lit, dist, final), p, out))
  {
    RunTo(d, Config(Copy(from, 0, lit, dist, final), p, out), Config(Symbols(lit, dist, final), p, out));
  }

  lemma RunStopped(d: seq<byte>, c: Config)
    requires Stopped(c)
    ensures Run(d, c) == c
  {
  }

  lemma RunNoHeader(d: seq<byte>, c: Config)
    requires c.mode.Block? && !Has(d, c.p, 3)
    ensures Run(d, c).mode.Bad?
  {
    hide Num;
    RunTo(d, c, c.(mode := Bad));
  }

  lemma RunStored(d: seq<byte>, c: Config)
    requires c.mode.Block? && Has(d, c.p, 3) && Num(d, c.p + 1, 2) == 0
    ensures match StoredLen(d, c.p + 3)
            case None => Run(d, c).mode.Bad?
            case Some(n) =>
              Run(d, c) == Run(d, Config(Raw(n, Num(d, c.p, 1) == 1), 8 * (NextByte(c.p + 3) + 4), c.out))
  {
    hide StoredLen, Num, FixedLit, FixedDist, DynamicCodes, NextByte;
    RunStep(d, c);
  }

  lemma RunFixed(d: seq<byte>, c: Config)
    requires c.mode.Block? && Has(d, c.p, 3) && Num(d, c.p + 1, 2) == 1
    ensures Run(d, c) == Run(d, Config(Symbols(FixedLit(), FixedDist(), Num(d, c.p, 1) == 1), c.p + 3, c.out))
  {
    hide FixedLit, FixedDist, Num, StoredLen, DynamicCodes, NextByte, SymbolStep;
    RunStep(d, c);
  }

  lemma RunDynamic(d: seq<byte>, c: Config)
    requires c.mode.Block? && Has(d, c.p, 3) && Num(d, c.p + 1, 2) == 2
    ensures match DynamicCodes(d, c.p + 3)
            case None => Run(d, c).mode.Bad?
            case Some(r) => Run(d, c) == Run(d, Config(Symbols(r.0, r.1, Num(d, c.p, 1) == 1), r.2, c.out))
  {
    hide FixedLit, FixedDist, Num, StoredLen, DynamicCodes, NextByte, SymbolStep;
    RunStep(d, c);
  }

  lemma RunReserved(d: seq<byte>, c: Config)
    requires c.mode.Block? && Has(d, c.p, 3) && 3 <= Num(d, c.p + 1, 2)
    ensures Run(d, c).mode.Bad?
  {
    hide Num;
    RunTo(d, c, c.(mode := Bad));
  }

  lemma RunRawEnd(d: seq<byte>, final: bool, p: nat, out: seq<byte>)
    ensures Run(d, Config(Raw(0, final), p, out)) == Run(d, Config(EndBlock(final), p, out))
  {
    RunTo(d, Config(Raw(0, final), p, out), Config(EndBlock(final), p, out));
  }

  lemma RunRawShort(d: seq<byte>, len: nat, final: bool, q: nat, out: seq<byte>)
    requires 0 < len && |d| <= q
    ensures Run(d, Config(Raw(len, final), 8 * q, out)).mode.Bad?
  {
    hide BlockStep, SymbolStep;
    ByteStart(q);
    RunTo(d, Config(Raw(len, final), 8 * q, out), Config(Bad, 8 * q, out));
  }
}
