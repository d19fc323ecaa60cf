/** The tokens of a compressed text, the codes the encoder has for them, and how a block of them is
    read. */
module Tokens {
  import opened Bits
  import opened Canonical
  import opened Window
  import opened Deflate

  /** A byte, or a repetition of `length` bytes from `distance` bytes before. A repetition of 258 bytes can also be
      written with the symbol before its own and 31 as the value of the five bits after that. */
  datatype Token = Literal(value: byte) | Match(length: nat, distance: nat) | LongMatch(distance: nat)

  // Codes of lengths and distances

  /** The code of a length less 3, from 0 for the first symbol after the end of block. */
  function LengthCode(x: nat): (c: nat)
    requires x < 256
    ensures c < 29
  {
    if x < 8 then x
    else if x < 16 then 8 + (x - 8) / 2
    else if x < 32 then 12 + (x - 16) / 4
    else if x < 64 then 16 + (x - 32) / 8
    else if x < 128 then 20 + (x - 64) / 16
    else if x < 255 then 24 + (x - 128) / 32
    else 28
  }

  /** The code of a distance less 1, if it is small. */
  function SmallOffsetCode(x: nat): (c: nat)
    requires x < 256
    ensures c < 16
  {
    if x < 4 then x
    else if x < 8 then 4 + (x - 4) / 2
    else if x < 16 then 6 + (x - 8) / 4
    else if x < 32 then 8 + (x - 16) / 8
    else if x < 64 then 10 + (x - 32) / 16
    else if x < 128 then 12 + (x - 64) / 32
    else 14 + (x - 128) / 64
  }

  function OffsetCode(x: nat): (c: nat)
    requires x < 0x40_0000
    ensures x < 32768 ==> c < 30
  {
    if x < 256 then SmallOffsetCode(x)
    else if x / 128 < 256 then SmallOffsetCode(x / 128) + 14
    else SmallOffsetCode(x / 16384) + 28
  }

  /** The symbol of a length. */
  function LengthSymbol(n: nat): (s: nat)
    requires 3 <= n <= 258
    ensures 257 <= s < 286
  {
    257 + LengthCode(n - 3)
  }

  /** The symbol of a distance. */
  function DistanceSymbol(t: nat): (s: nat)
    requires 1 <= t <= 32768
    ensures s < 30
  {
    OffsetCode(t - 1)
  }

  /** How many bits follow the symbol of a length, and their value. */
  function LengthBits(n: nat): (nat, int)
    requires 3 <= n <= 258
  {
    var c := LengthCode(n - 3);
    (LENGTH_EXTRA[c], n - LENGTH_BASE[c])
  }

  /** How many bits follow the symbol of a distance, and their value. */
  function DistanceBits(t: nat): (nat, int)
    requires 1 <= t <= 32768
  {
    var c := OffsetCode(t - 1);
    (DIST_EXTRA[c], t - DIST_BASE[c])
  }

  /** The n bits from p on are those of v. */
  predicate FieldAt(d: seq<byte>, p: nat, n: nat, v: int) {
    Has(d, p, n) && Num(d, p, n) == v
  }

  /** Every length can be written with its symbol and extra bits. */
  lemma LengthFits(n: nat)
    requires 3 <= n <= 258
    ensures 0 <= LengthBits(n).1 < Pow2(LengthBits(n).0)
  {
    hide Pow2, LengthCode;
    if n < 35 {
      ShortLength(n);
    } else {
      LongLength(n);
    }
  }

  /** And that is read as the length. */
  lemma LengthReads(d: seq<byte>, p: nat, n: nat)
    requires 3 <= n <= 258 && FieldAt(d, p, LengthBits(n).0, LengthBits(n).1)
    ensures LengthAt(d, p, LengthSymbol(n)) == Some((n, p + LengthBits(n).0))
  {
    hide LengthCode, Num;
    LengthIs(d, p, LengthCode(n - 3));
  }

  lemma LengthIs(d: seq<byte>, p: nat, c: nat)
    requires c < 29
    ensures LengthAt(d, p, 257 + c)
         == if Has(d, p, LENGTH_EXTRA[c]) then Some((LENGTH_BASE[c] + Num(d, p, LENGTH_EXTRA[c]), p + LENGTH_EXTRA[c]))
            else None
  {
    hide Num;
  }

  /** Every distance can be written with its symbol and extra bits. */
  lemma DistanceFits(t: nat)
    requires 1 <= t <= 32768
    ensures 0 <= DistanceBits(t).1 < Pow2(DistanceBits(t).0)
  {
    hide Pow2, OffsetCode;
    if t <= 32 {
      NearOffset(t);
    } else {
      FarOffset(t);
    }
  }

  /** A symbol stands at bit p. */
  predicate Stands(l: seq<nat>, d: seq<byte>, p: nat, s: nat) {
    s < |l| && CodeAt(l, d, p, s)
  }

  /** And that is read as the distance. */
  lemma DistanceReads(d: seq<byte>, p: nat, dist: seq<nat>, t: nat)
    requires 1 <= t <= 32768 && Stands(dist, d, p, DistanceSymbol(t))
    requires FieldAt(d, p + dist[DistanceSymbol(t)], DistanceBits(t).0, DistanceBits(t).1)
    ensures DistAt(d, p, dist) == Some((t, p + dist[DistanceSymbol(t)] + DistanceBits(t).0))
  {
    hide OffsetCode, SymbolAt, CodeAt;
    SymbolAtIs(dist, d, p, DistanceSymbol(t));
  }

  lemma ShortLength(n: nat)
    requires 3 <= n < 35
    ensures var c := LengthCode(n - 3); LENGTH_BASE[c] <= n < LENGTH_BASE[c] + Pow2(LENGTH_EXTRA[c])
  {
    hide Pow2;
    Pow2Values();
  }

  lemma LongLength(n: nat)
    requires 35 <= n <= 258
    ensures var c := LengthCode(n - 3); LENGTH_BASE[c] <= n < LENGTH_BASE[c] + Pow2(LENGTH_EXTRA[c])
  {
    hide Pow2;
    Pow2Values();
  }

  lemma NearOffset(t: nat)
    requires 1 <= t <= 32
    ensures var c := OffsetCode(t - 1);
            DIST_BASE[c] <= t < DIST_BASE[c] + Pow2(DIST_EXTRA[c])
  {
    hide Pow2;
    Pow2Values();
  }

  lemma FarOffset(t: nat)
    requires 32 < t <= 32768
    ensures var c := OffsetCode(t - 1);
            DIST_BASE[c] <= t < DIST_BASE[c] + Pow2(DIST_EXTRA[c])
  {
    hide Pow2;
    Pow2Values();
    MorePow2Values();
  }

  /** No symbol gives another length. */
  lemma LengthsRead(d: seq<byte>, p: nat, sym: nat)
    requires 257 <= sym < 286 && LengthAt(d, p, sym).Some?
    ensures 3 <= LengthAt(d, p, sym).value.0 <= 258
  {
    hide Pow2;
    Pow2Values();
  }

  /** No symbol gives another distance, and every distance is inside the window. */
  lemma DistancesRead(d: seq<byte>, p: nat, dist: seq<nat>)
    requires DistAt(d, p, dist).Some?
    ensures 1 <= DistAt(d, p, dist).value.0 <= 32768 == WINDOW_SIZE
  {
    hide Pow2, SymbolAt;
    Pow2Values();
    MorePow2Values();
    var s := SymbolAt(dist, d, p).value;
    assert DIST_BASE[s] + Pow2(DIST_EXTRA[s]) <= 32769;
  }

  // Blocks of tokens

  function LenOf(l: seq<nat>, s: nat): nat {
    if s < |l| then l[s] else 0
  }

  /** Its length is written by s and w bits after that, with value v. */
  predicate MatchAt(lit: seq<nat>, dist: seq<nat>, d: seq<byte>, p: nat, s: nat, w: nat, v: int, t: nat) {
    && 1 <= t <= 32768 && Stands(lit, d, p, s)
    && var q := p + LenOf(lit, s);
       && FieldAt(d, q, w, v) && Stands(dist, d, q + w, DistanceSymbol(t))
       && FieldAt(d, q + w + LenOf(dist, DistanceSymbol(t)), DistanceBits(t).0, DistanceBits(t).1)
  }

  /** A token stands at bit p, written with the codes lit and dist. */
  predicate TokenAt(lit: seq<nat>, dist: seq<nat>, d: seq<byte>, p: nat, tok: Token) {
    match tok
    case Literal(b) => Stands(lit, d, p, b)
    case Match(n, t) =>
      3 <= n <= 258 && MatchAt(lit, dist, d, p, LengthSymbol(n), LengthBits(n).0, LengthBits(n).1, t)
    case LongMatch(t) => MatchAt(lit, dist, d, p, 284, 5, 31, t)
  }

  function MatchWidth(lit: seq<nat>, dist: seq<nat>, s: nat, w: nat, t: nat): nat {
    if 1 <= t <= 32768 then LenOf(lit, s) + w + LenOf(dist, DistanceSymbol(t)) + DistanceBits(t).0 else 0
  }

  /** How many bits it has. */
  function Width(lit: seq<nat>, dist: seq<nat>, tok: Token): nat {
    match tok
    case Literal(b) => LenOf(lit, b)
    case Match(n, t) => if 3 <= n <= 258 then MatchWidth(lit, dist, LengthSymbol(n), LengthBits(n).0, t) else 0
    case LongMatch(t) => MatchWidth(lit, dist, 284, 5, t)
  }

  /** Tokens stand one after the other from bit p on, and then an end of block, up to bit q. */
  predicate TokensAt(lit: seq<nat>, dist: seq<nat>, d: seq<byte>, p: nat, toks: seq<Token>, q: nat)
    decreases |toks|
  {
    if toks == [] then Stands(lit, d, p, 256) && q == p + LenOf(lit, 256)
    else TokenAt(lit, dist, d, p, toks[0]) && TokensAt(lit, dist, d, p + Width(lit, dist, toks[0]), toks[1..], q)
  }

  /** The number of bytes a token stands for. */
  function Size(tok: Token): nat {
    match tok case Literal(_) => 1 case Match(n, _) => n case LongMatch(_) => 258
  }

  /** A match does not go back before the start. */
  predicate Reaches(size: nat, tok: Token) {
    tok.Literal? || 1 <= tok.distance <= size
  }

  /** What there is after a token. */
  function After(out: seq<byte>, tok: Token): (r: seq<byte>)
    requires Reaches(|out|, tok)
    ensures out <= r && |r| == |out| + Size(tok)
  {
    match tok
    case Literal(b) => out + [b]
    case Match(n, t) => CopyBytes(out, t, n)
    case LongMatch(t) => CopyBytes(out, t, 258)
  }

  /** No match goes back before the start. */
  predicate MatchesWithin(size: nat, toks: seq<Token>)
    decreases |toks|
  {
    toks == [] || (Reaches(size, toks[0]) && MatchesWithin(size + Size(toks[0]), toks[1..]))
  }

  /** What tokens stand for after `out`. */
  function Expand(out: seq<byte>, toks: seq<Token>): (r: seq<byte>)
    requires MatchesWithin(|out|, toks)
    ensures out <= r
    decreases |toks|
  {
    if toks == [] then out else Expand(After(out, toks[0]), toks[1..])
  }

  lemma RunLiteral(d: seq<byte>, c: Config, b: byte)
    requires c.mode.Symbols? && Stands(c.mode.lit, d, c.p, b)
    ensures Run(d, c) == Run(d, Config(c.mode, c.p + c.mode.lit[b], c.out + [b]))
  {
    hide Run, SymbolAt, CodeBits, Code, BlockStep, MatchStep;
    SymbolAtIs(c.mode.lit, d, c.p, b);
    RunTo(d, c, Config(c.mode, c.p + c.mode.lit[b], c.out + [b]));
  }

  lemma RunEnd(d: seq<byte>, c: Config)
    requires c.mode.Symbols? && Stands(c.mode.lit, d, c.p, 256)
    ensures Run(d, c) == Run(d, Config(if c.mode.final then Done else Block, c.p + LenOf(c.mode.lit, 256), c.out))
  {
    hide Run, SymbolAt, CodeBits, Code, BlockStep, MatchStep;
    SymbolAtIs(c.mode.lit, d, c.p, 256);
    RunTo(d, c, Config(if c.mode.final then Done else Block, c.p + c.mode.lit[256], c.out));
  }

  /** A match is read, and then copied. */
  lemma RunMatch(d: seq<byte>, c: Config, s: nat, w: nat, v: int, n: nat, t: nat)
    requires c.mode.Symbols? && MatchAt(c.mode.lit, c.mode.dist, d, c.p, s, w, v, t) && t <= |c.out|
    requires 257 <= s < 286 && LengthAt(d, c.p + c.mode.lit[s], s) == Some((n, c.p + c.mode.lit[s] + w))
    ensures Run(d, c)
         == Run(d, Config(c.mode, c.p + MatchWidth(c.mode.lit, c.mode.dist, s, w, t), CopyBytes(c.out, t, n)))
  {
    hide Run, SymbolAt, CodeAt, LengthAt, DistAt, DistanceSymbol, DistanceBits, FieldAt;
    var lit, dist, final := c.mode.lit, c.mode.dist, c.mode.final;
    SymbolAtIs(lit, d, c.p, s);
    DistanceReads(d, c.p + lit[s] + w, dist, t);
    var p' := c.p + MatchWidth(lit, dist, s, w, t);
    assert Step(d, c) == Config(Copy(t, n, lit, dist, final), p', c.out);
    RunStep(d, c);
    RunCopy(d, t, n, lit, dist, final, p', c.out, n);
    CopyDone(d, Config(Copy(t, 0, lit, dist, final), p', CopyBytes(c.out, t, n)));
  }

  lemma CopyDone(d: seq<byte>, c: Config)
    requires c.mode.Copy? && c.mode.len == 0 && 0 < c.mode.from <= |c.out|
    ensures Run(d, c) == Run(d, c.(mode := Symbols(c.mode.lit, c.mode.dist, c.mode.final)))
  {
    RunStep(d, c);
  }

  lemma LongReads(d: seq<byte>, p: nat)
    requires FieldAt(d, p, 5, 31)
    ensures LengthAt(d, p, 284) == Some((258, p + 5))
  {
    hide Num;
  }

  lemma RunToken(d: seq<byte>, c: Config, tok: Token)
    requires c.mode.Symbols? && TokenAt(c.mode.lit, c.mode.dist, d, c.p, tok) && Reaches(|c.out|, tok)
    ensures Run(d, c) == Run(d, Config(c.mode, c.p + Width(c.mode.lit, c.mode.dist, tok), After(c.out, tok)))
  {
    hide Run, CodeAt, LengthAt, LengthSymbol, DistanceSymbol, LengthBits, DistanceBits, FieldAt;
    match tok
    case Literal(b) => RunLiteral(d, c, b);
    case Match(n, t) =>
      var s := LengthSymbol(n);
      LengthReads(d, c.p + c.mode.lit[s], n);
      RunMatch(d, c, s, LengthBits(n).0, LengthBits(n).1, n, t);
    case LongMatch(t) =>
      LongReads(d, c.p + c.mode.lit[284]);
      RunMatch(d, c, 284, 5, 31, 258, t);
  }

  /** Tokens are read back as what they stand for. */
  lemma {:induction false} TokensRead(d: seq<byte>, c: Config, toks: seq<Token>, q: nat)
    requires c.mode.Symbols? && TokensAt(c.mode.lit, c.mode.dist, d, c.p, toks, q) && MatchesWithin(|c.out|, toks)
    ensures Run(d, c) == Run(d, Config(if c.mode.final then Done else Block, q, Expand(c.out, toks)))
    decreases |toks|
  {
    hide Run, TokenAt, Width, Stands, After, Reaches, Size;
    if toks == [] {
      RunEnd(d, c);
    } else {
      RunToken(d, c, toks[0]);
      TokensRead(d, Config(c.mode, c.p + Width(c.mode.lit, c.mode.dist, toks[0]), After(c.out, toks[0])), toks[1..], q);
    }
  }

  // Anything read has been so written

  /** The length a symbol and its extra bits are read as has that symbol, or is 258. */
  lemma LengthOfSymbol(c: nat, e: nat)
    requires c < 29 && e < Pow2(LENGTH_EXTRA[c])
    ensures var n := LENGTH_BASE[c] + e;
            3 <= n <= 258 && (LengthCode(n - 3) == c || (c == 27 && e == 31 && n == 258))
  {
    hide Pow2, LengthCode;
    if c < 12 {
      ShortSymbol(c, e);
    } else {
      LongSymbol(c, e);
    }
  }

  lemma ShortSymbol(c: nat, e: nat)
    requires c < 12 && e < Pow2(LENGTH_EXTRA[c])
    ensures var n := LENGTH_BASE[c] + e; 3 <= n <= 258 && LengthCode(n - 3) == c
  {
    hide Pow2;
    Pow2Values();
  }

  lemma LongSymbol(c: nat, e: nat)
    requires 12 <= c < 29 && e < Pow2(LENGTH_EXTRA[c])
    ensures var n := LENGTH_BASE[c] + e;
            3 <= n <= 258 && (LengthCode(n - 3) == c || (c == 27 && e == 31 && n == 258))
  {
    hide Pow2;
    Pow2Values();
  }

  lemma LengthWritten(d: seq<byte>, p: nat, s: nat)
    requires 257 <= s < 286 && LengthAt(d, p, s).Some?
    ensures var (n, q) := LengthAt(d, p, s).value;
            && 3 <= n <= 258
            && if s == LengthSymbol(n)
               then FieldAt(d, p, LengthBits(n).0, LengthBits(n).1) && q == p + LengthBits(n).0
               else s == 284 && n == 258 && FieldAt(d, p, 5, 31) && q == p + 5
  {
    hide Pow2, LengthCode, Num;
    LengthOfSymbol(s - 257, Num(d, p, LENGTH_EXTRA[s - 257]));
  }

  lemma DistanceOfSymbol(s: nat, e: nat)
    requires s < 30 && e < Pow2(DIST_EXTRA[s])
    ensures var t := DIST_BASE[s] + e; 1 <= t <= 32768 && OffsetCode(t - 1) == s
  {
    hide Pow2, OffsetCode;
    if s < 12 {
      NearSymbol(s, e);
    } else {
      FarSymbol(s, e);
    }
  }

  lemma NearSymbol(s: nat, e: nat)
    requires s < 12 && e < Pow2(DIST_EXTRA[s])
    ensures var t := DIST_BASE[s] + e; 1 <= t <= 32768 && OffsetCode(t - 1) == s
  {
    hide Pow2;
    Pow2Values();
  }

  lemma FarSymbol(s: nat, e: nat)
    requires 12 <= s < 30 && e < Pow2(DIST_EXTRA[s])
    ensures var t := DIST_BASE[s] + e; 1 <= t <= 32768 && OffsetCode(t - 1) == s
  {
    hide Pow2;
    Pow2Values();
    MorePow2Values();
  }

  lemma DistanceWritten(d: seq<byte>, p: nat, dist: seq<nat>)
    requires DistAt(d, p, dist).Some?
    ensures var (t, q) := DistAt(d, p, dist).value;
            && 1 <= t <= 32768 && Stands(dist, d, p, DistanceSymbol(t))
            && FieldAt(d, p + LenOf(dist, DistanceSymbol(t)), DistanceBits(t).0, DistanceBits(t).1)
            && q == p + LenOf(dist, DistanceSymbol(t)) + DistanceBits(t).0
  {
    hide Pow2, OffsetCode, Num, SymbolAt, CodeAt;
    var s := SymbolAt(dist, d, p).value;
    DistanceOfSymbol(s, Num(d, p + dist[s], DIST_EXTRA[s]));
  }

  /** A symbol read, with what follows it, is a token. */
  lemma TokenWritten(d: seq<byte>, c: Config) returns (tok: Token)
    requires c.mode.Symbols? && !SymbolStep(d, c).mode.Bad? && SymbolAt(c.mode.lit, d, c.p) != Some(256)
    ensures TokenAt(c.mode.lit, c.mode.dist, d, c.p, tok) && Reaches(|c.out|, tok)
    ensures 0 < Width(c.mode.lit, c.mode.dist, tok) && Has(d, c.p, Width(c.mode.lit, c.mode.dist, tok))
  {
    hide SymbolAt, CodeBits, Code, LengthAt, DistAt, DistanceSymbol, DistanceBits, LengthSymbol, LengthBits, Num;
    var lit, s := c.mode.lit, SymbolAt(c.mode.lit, d, c.p).value;
    if s < 256 {
      tok := Literal(s);
    } else {
      LengthWritten(d, c.p + lit[s], s);
      var (n, q) := LengthAt(d, c.p + lit[s], s).value;
      DistanceWritten(d, q, c.mode.dist);
      var (t, _) := DistAt(d, q, c.mode.dist).value;
      tok := if s == LengthSymbol(n) then Match(n, t) else LongMatch(t);
    }
  }

  lemma BadStays(d: seq<byte>, c: Config)
    requires !Stopped(c) && Run(d, c).mode.Done?
    ensures !Step(d, c).mode.Bad? && Run(d, Step(d, c)) == Run(d, c)
  {
    hide Step;
    RunStep(d, c);
    if Step(d, c).mode.Bad? {
      RunStopped(d, Step(d, c));
    }
  }

  /** A block that is decoded has been so written. */
  lemma {:induction false} TokensWritten(d: seq<byte>, c: Config) returns (toks: seq<Token>, q: nat)
    requires c.mode.Symbols? && Run(d, c).mode.Done? && c.p <= 8 * |d|
    ensures TokensAt(c.mode.lit, c.mode.dist, d, c.p, toks, q) && MatchesWithin(|c.out|, toks) && q <= 8 * |d|
    ensures c.p < q
    decreases 8 * |d| - c.p
  {
    hide Run, SymbolAt, TokenAt, Width, CodeBits, Code, AfterSymbol, Reaches, After, Size;
    BadStays(d, c);
    if SymbolAt(c.mode.lit, d, c.p) == Some(256) {
      toks, q := [], c.p + c.mode.lit[256];
    } else {
      var tok := TokenWritten(d, c);
      RunToken(d, c, tok);
      var rest;
      rest, q := TokensWritten(d, Config(c.mode, c.p + Width(c.mode.lit, c.mode.dist, tok), After(c.out, tok)));
      toks := [tok] + rest;
      assert toks[1..] == rest;
    }
  }
}
