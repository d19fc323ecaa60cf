/** Reading a match: the length and the distance of a back-reference (section 3.2.5 of RFC 1951). */
module Matches {
  import opened Bits
  import opened Canonical
  import opened HuffmanTable
  import opened Deflate
  import opened Embedding
  import Window
  import opened Input
  import opened BitReader
  import opened BlockCodes

  /** The base length and number of extra bits the decoder computes for a length symbol. */
  function LengthParts(v: nat): (nat, nat)
    requires 257 <= v < MAX_NUM_LIT
  {
    if v < 265 then (v - (257 - 3), 0)
    else if v < 269 then (v * 2 - (265 * 2 - 11), 1)
    else if v < 273 then (v * 4 - (269 * 4 - 19), 2)
    else if v < 277 then (v * 8 - (273 * 8 - 35), 3)
    else if v < 281 then (v * 16 - (277 * 16 - 67), 4)
    else if v < 285 then (v * 32 - (281 * 32 - 131), 5)
    else (258, 0)
  }

  /** The computed values are those of the table. */
  lemma LengthTable(v: nat)
    requires 257 <= v < MAX_NUM_LIT
    ensures |LENGTH_BASE| == |LENGTH_EXTRA| == 29
    ensures LengthParts(v) == (LENGTH_BASE[v - 257], LENGTH_EXTRA[v - 257])
  {
  }

  /** The number of extra bits and the distance without them. */
  function DistParts(s: nat): (nat, nat)
    requires s < MAX_NUM_DIST
  {
    if s < 4 then (s + 1, 0)
    else
      var nb := (s - 2) / 2;
      (Pow2(nb + 1) + 1 + (s % 2) * Pow2(nb), nb)
  }

  lemma DistTable(s: nat)
    requires s < MAX_NUM_DIST
    ensures |DIST_BASE| == |DIST_EXTRA| == 30
    ensures DistParts(s) == (DIST_BASE[s], DIST_EXTRA[s])
  {
    hide Pow2;
    Pow2Values();
    MorePow2Values();
    if s < 4 {
    } else {
      assert DIST_EXTRA[s] == (s - 2) / 2;
    }
  }

  lemma LengthIs(d: seq<byte>, p: nat, v: nat)
    requires 257 <= v < MAX_NUM_LIT
    ensures LengthAt(d, p, v)
         == if Has(d, p, LengthParts(v).1)
            then Some((LengthParts(v).0 + Num(d, p, LengthParts(v).1), p + LengthParts(v).1))
            else None
  {
    LengthTable(v);
  }

  /** The length of a match for symbol v, and its extra bits. */
  method ReadLength(in_: BitReader, v: nat) returns (length: nat, err: Err)
    requires in_.Valid() && 257 <= v < MAX_NUM_LIT
    modifies in_, in_.r
    ensures in_.Valid() && in_.Drift() == old(in_.Drift())
    ensures err == Ok ==> LengthAt(in_.r.data, old(in_.P()), v) == Some((length, in_.P()))
    ensures err == Ok ==> 0 < length && (in_.nb < 8 || in_.nb <= old(in_.nb))
    ensures err != Ok ==> LengthAt(in_.r.data, old(in_.P()), v) == None && in_.Exhausted(err)
  {
    hide BitReader.InStep, LengthAt;
    LengthIs(in_.r.data, in_.P(), v);
    var n := 0;
    if v < 265 {
      length := v - (257 - 3);
    } else if v < 269 {
      length, n := v * 2 - (265 * 2 - 11), 1;
    } else if v < 273 {
      length, n := v * 4 - (269 * 4 - 19), 2;
    } else if v < 277 {
      length, n := v * 8 - (273 * 8 - 35), 3;
    } else if v < 281 {
      length, n := v * 16 - (277 * 16 - 67), 4;
    } else if v < 285 {
      length, n := v * 32 - (281 * 32 - 131), 5;
    } else {
      length := 258;
    }
    err := Ok;
    if n > 0 {
      var more;
      more, err := in_.Take(n);
      length := length + more;
    }
  }

  lemma DistIs(d: seq<byte>, p: nat, dist: seq<nat>, s: nat, base: nat, n: nat, q: nat)
    requires SymbolAt(dist, d, p) == Some(s) && s < MAX_NUM_DIST && q == p + dist[s]
    requires base == DistParts(s).0 && n == DistParts(s).1
    ensures DistAt(d, p, dist) == if Has(d, q, n) then Some((base + Num(d, q, n), q + n)) else None
  {
    hide SymbolAt, DistParts, Num;
    DistTable(s);
  }

  lemma DistSmall(d: seq<byte>, p: nat, dist: seq<nat>, s: nat, q: nat)
    requires SymbolAt(dist, d, p) == Some(s) && s < 4 && q == p + dist[s] && q <= 8 * |d|
    ensures DistAt(d, p, dist) == Some((s + 1, q))
  {
    DistIs(d, p, dist, s, s + 1, 0, q);
  }

  lemma DistReserved(d: seq<byte>, p: nat, dist: seq<nat>, s: nat)
    requires SymbolAt(dist, d, p) == Some(s) && MAX_NUM_DIST <= s
    ensures DistAt(d, p, dist) == None
  {
  }

  lemma NoDist(d: seq<byte>, p: nat, dist: seq<nat>)
    requires SymbolAt(dist, d, p) == None
    ensures DistAt(d, p, dist) == None
  {
  }

  /** The distance code a block uses: its own, or the fixed one. */
  ghost function DistCode(hd: HuffmanDecoder?): seq<nat>
    reads hd
  {
    if hd == null then FixedDist() else hd.lens
  }

  /** The distance symbol at the current position. */
  method ReadDistSymbol(in_: BitReader, hd: HuffmanDecoder?) returns (s: nat, err: Err)
    requires in_.Valid()
    requires hd != null ==> hd.Valid() && hd.MinIsLeast()
    modifies in_, in_.r
    ensures in_.Valid() && in_.Drift() == old(in_.Drift())
    ensures err == Ok ==> SymbolAt(DistCode(hd), in_.r.data, old(in_.P())) == Some(s)
    ensures err == Ok ==> in_.P() == old(in_.P()) + DistCode(hd)[s] && (in_.nb < 8 || in_.nb <= old(in_.nb))
    ensures err != Ok ==> SymbolAt(DistCode(hd), in_.r.data, old(in_.P())) == None
    ensures err == Corrupt ==> Dead(DistCode(hd), in_.r.data, old(in_.P()))
    ensures err !in {Ok, Corrupt} ==> in_.Exhausted(err)
  {
    hide HuffmanDecoder.Consistent, BitReader.InStep, Dead;
    ghost var d, p := in_.r.data, in_.P();
    if hd == null {
      FixedDistSymbol(d, p);
      s, err := in_.Take(5);
      if err == Ok {
        FiveBitCode(d, p);
        s := Rev(s * 8, 8);
      }
    } else {
      s, err := in_.HuffSym(hd);
    }
  }

  /** The rest of a distance whose symbol s has been read. */
  method ReadExtra(in_: BitReader, s: nat, ghost p: nat, ghost code: seq<nat>) returns (dist: nat, err: Err)
    requires in_.Valid() && 4 <= s < MAX_NUM_DIST
    requires SymbolAt(code, in_.r.data, p) == Some(s) && in_.P() == p + code[s]
    modifies in_, in_.r
    ensures in_.Valid() && in_.Drift() == old(in_.Drift()) && (err == Ok ==> in_.nb < 8 || in_.nb <= old(in_.nb))
    ensures err == Ok ==> DistAt(in_.r.data, p, code) == Some((dist, in_.P()))
    ensures err != Ok ==> DistAt(in_.r.data, p, code) == None && err != Corrupt && in_.Exhausted(err)
  {
    hide BitReader.InStep, FixedDist, DistAt, SymbolAt, Num, Pow2;
    var nb := (s - 2) / 2;
    // one bit is in the bottom of s, nb more are needed
    var extra := (s % 2) * Pow2(nb);
    DistIs(in_.r.data, p, code, s, Pow2(nb + 1) + 1 + extra, nb, in_.P());
    dist, err := in_.Take(nb);
    if err == Ok {
      dist := Pow2(nb + 1) + 1 + (extra + dist);
    }
  }

  /** The distance of a match. */
  method ReadDist(in_: BitReader, hd: HuffmanDecoder?) returns (dist: nat, err: Err)
    requires in_.Valid()
    requires hd != null ==> hd.Valid() && hd.MinIsLeast()
    modifies in_, in_.r
    ensures in_.Valid() && in_.Drift() == old(in_.Drift())
    ensures err == Ok ==> DistAt(in_.r.data, old(in_.P()), DistCode(hd)) == Some((dist, in_.P()))
    ensures err == Ok ==> in_.nb < 8 || in_.nb <= old(in_.nb)
    ensures err != Ok ==> DistAt(in_.r.data, old(in_.P()), DistCode(hd)) == None
    ensures err == Corrupt ==> NoDistAt(in_.r.data, old(in_.P()), DistCode(hd))
    ensures err !in {Ok, Corrupt} ==> in_.Exhausted(err)
  {
    hide HuffmanDecoder.Consistent, BitReader.InStep, FixedDist, DistAt, SymbolAt, Num, DistCode, Pow2, Dead;
    hide NoDistAt, BitReader.Exhausted;
    ghost var d, p, code := in_.r.data, in_.P(), DistCode(hd);
    dist, err := ReadDistSymbol(in_, hd);
    if err != Ok {
      NoDist(d, p, code);
      NoDistDead(d, p, code);
    } else if dist < 4 {
      DistSmall(d, p, code, dist, in_.P());
      dist := dist + 1;
    } else if dist < MAX_NUM_DIST {
      dist, err := ReadExtra(in_, dist, p, code);
    } else {
      DistReserved(d, p, code, dist);
      NoDistReserved(d, p, code, dist);
      err := Corrupt;
    }
  }

  /** The length and distance of a match, whose symbol ends at bit p. */
  function MatchAt(d: seq<byte>, p: nat, v: nat, dist: seq<nat>): Option<(nat, nat, nat)>
    requires 257 <= v < MAX_NUM_LIT
  {
    match LengthAt(d, p, v)
    case None => None
    case Some(l) =>
      match DistAt(d, l.1, dist)
      case None => None
      case Some(t) => Some((l.0, t.0, t.1))
  }

  /** Reads the rest of a match whose symbol v has been read. */
  method ReadLengthDist(in_: BitReader, hd: HuffmanDecoder?, v: nat) returns (length: nat, dist: nat, err: Err)
    requires in_.Valid() && 257 <= v < MAX_NUM_LIT
    requires hd != null ==> hd.Valid() && hd.MinIsLeast()
    modifies in_, in_.r
    ensures in_.Valid() && in_.Drift() == old(in_.Drift())
    ensures err == Ok ==> MatchAt(in_.r.data, old(in_.P()), v, DistCode(hd)) == Some((length, dist, in_.P()))
    ensures err == Ok ==> in_.nb < 8 || in_.nb <= old(in_.nb)
    ensures err != Ok ==> MatchAt(in_.r.data, old(in_.P()), v, DistCode(hd)) == None
    ensures err == Corrupt ==> NoMatchAt(in_.r.data, old(in_.P()), v, DistCode(hd))
    ensures err !in {Ok, Corrupt} ==> in_.Exhausted(err)
  {
    hide BitReader.InStep, HuffmanDecoder.Consistent, LengthAt, DistAt, DistCode, NoDistAt, NoMatchAt;
    dist := 0;
    ghost var p := in_.P();
    length, err := ReadLength(in_, v);
    if err == Ok {
      NoMatchDist(in_.r.data, p, v, DistCode(hd), length, in_.P());
      dist, err := ReadDist(in_, hd);
    }
  }

  // Matches that are bad whatever follows the data

  ghost predicate NoDistAt(d: seq<byte>, p: nat, dist: seq<nat>) {
    forall x | d <= x :: DistAt(x, p, dist) == None
  }

  ghost predicate NoMatchAt(d: seq<byte>, p: nat, v: nat, dist: seq<nat>)
    requires 257 <= v < MAX_NUM_LIT
  {
    forall x | d <= x :: MatchAt(x, p, v, dist) == None
  }

  lemma NoDistDead(d: seq<byte>, p: nat, dist: seq<nat>)
    ensures Dead(dist, d, p) ==> NoDistAt(d, p, dist)
  {
    hide SymbolAt;
  }

  lemma NoDistReserved(d: seq<byte>, p: nat, dist: seq<nat>, s: nat)
    requires p <= 8 * |d| && SymbolAt(dist, d, p) == Some(s) && MAX_NUM_DIST <= s
    ensures NoDistAt(d, p, dist)
  {
    hide SymbolAt;
    forall x | d <= x ensures DistAt(x, p, dist) == None {
      SymbolMoved(x, d, 0, dist, p);
    }
  }

  lemma NoMatchDist(d: seq<byte>, p: nat, v: nat, dist: seq<nat>, length: nat, q: nat)
    requires 257 <= v < MAX_NUM_LIT && LengthAt(d, p, v) == Some((length, q))
    ensures NoDistAt(d, q, dist) ==> NoMatchAt(d, p, v, dist)
  {
    hide LengthAt, DistAt;
    if NoDistAt(d, q, dist) {
      forall x | d <= x ensures MatchAt(x, p, v, dist) == None {
        LengthMoved(x, d, 0, p, v);
      }
    }
  }

  lemma MatchStepIs(d: seq<byte>, c: Config, p: nat, v: nat)
    requires c.mode.Symbols? && 257 <= v < MAX_NUM_LIT && c.p < p <= 8 * |d|
    ensures MatchStep(d, c, p, v)
         == match MatchAt(d, p, v, c.mode.dist)
            case None => c.(mode := Bad)
            case Some(m) =>
              if m.1 > Window.Min(|c.out|, WINDOW_SIZE) then c.(mode := Bad)
              else Config(Copy(m.1, m.0, c.mode.lit, c.mode.dist, c.mode.final), m.2, c.out)
  {
    hide LengthAt, DistAt;
  }

  lemma MatchDist(d: seq<byte>, p: nat, v: nat, dist: seq<nat>)
    requires 257 <= v < MAX_NUM_LIT
    ensures MatchAt(d, p, v, dist).Some? ==>
              0 < MatchAt(d, p, v, dist).value.1 && p <= MatchAt(d, p, v, dist).value.2 <= 8 * |d|
  {
    hide SymbolAt;
  }
}
