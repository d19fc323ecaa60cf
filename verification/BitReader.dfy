/** The input side of the inflater: whole bytes are taken from the reader only when the bits at
    hand do not suffice, so that nothing is read past the end of the stream. */
module BitReader {
  import opened Bits
  import opened Canonical
  import opened HuffmanTable
  import opened Input

  class BitReader {
    const r: CountReader
    /** File offset of the next byte, as the decoder counts it. */
    var roffset: int
    /** Pending bits, the next one lowest, and their number. */
    var b: nat
    var nb: nat

    ghost predicate Valid()
      reads this, r
    {
      r.Valid() && nb <= 8 * r.pos && nb < 32 && InStep()
    }

    /** The pending bits are the last nb bits of what has been read. */
    ghost predicate InStep()
      reads this, r
      requires r.pos <= |r.data| && nb <= 8 * r.pos
    {
      b == Num(r.data, 8 * r.pos - nb, nb)
    }

    /** The position of the next bit in the file. */
    ghost function P(): nat
      reads this, r
    {
      if nb <= 8 * r.pos then 8 * r.pos - nb else 0
    }

    /** The data has run out, which is the error e. */
    ghost predicate Exhausted(e: Err)
      reads r
    {
      r.pos == |r.data| && e == NoEof(r.atEnd) && e !in {Ok, Corrupt}
    }

    /** Whether a read keeps step with the file; a decoder continued from a checkpoint of a later
        member does not. */
    ghost function Drift(): int
      reads this, r
    {
      roffset - r.pos
    }

    constructor (r: CountReader, roffset: int, b: nat, nb: nat)
      requires r.Valid() && nb <= 8 * r.pos && nb < 8 && b == Num(r.data, 8 * r.pos - nb, nb)
      ensures Valid() && this.r == r && this.roffset == roffset && this.b == b && this.nb == nb
    {
      this.r, this.roffset, this.b, this.nb := r, roffset, b, nb;
    }

    method MoreBits() returns (err: Err)
      requires Valid() && nb < 16
      modifies this, r
      ensures Valid() && P() == old(P()) && Drift() == old(Drift())
      ensures err == Ok ==> nb == old(nb) + 8 && r.pos == old(r.pos) + 1
      ensures err != Ok ==> nb == old(nb) && Exhausted(err)
    {
      hide Num, Pow2;
      var c, e := r.ReadByte();
      if e != Ok {
        return NoEof(e);
      }
      roffset := roffset + 1;
      AppendByte(r.data, 8 * (r.pos - 1) - nb, nb, r.pos - 1);
      b := b + Pow2(nb) * c;
      nb := nb + 8;
      err := Ok;
    }

    /** Drops n of the pending bits. */
    method Drop(n: nat)
      requires Valid() && n <= nb
      modifies this
      ensures Valid() && P() == old(P()) + n && nb == old(nb) - n && Drift() == old(Drift())
    {
      NumSplit(r.data, 8 * r.pos - nb, n, nb - n);
      b := b / Pow2(n);
      nb := nb - n;
    }

    /** Reads bytes up to n bits, as far as there are any. */
    method Fill(n: nat) returns (err: Err)
      requires Valid() && n <= 16
      modifies this, r
      ensures Valid() && P() == old(P()) && Drift() == old(Drift())
      ensures old(r.pos) <= r.pos && (r.pos == old(r.pos) ==> nb == old(nb))
      ensures nb == old(nb) || nb < n + 8
      ensures err == Ok ==> n <= nb && (old(nb) < n ==> old(r.pos) < r.pos)
      ensures err != Ok ==> 8 * |r.data| < P() + n && Exhausted(err)
    {
      while nb < n
        invariant Valid() && P() == old(P()) && Drift() == old(Drift())
        invariant old(r.pos) <= r.pos && (r.pos == old(r.pos) ==> nb == old(nb))
        invariant nb == old(nb) || nb < n + 8
        decreases |r.data| - r.pos
      {
        err := MoreBits();
        if err != Ok {
          return;
        }
      }
      err := Ok;
    }

    /** The next n bits, which are at hand. */
    method Low(n: nat) returns (v: nat)
      requires Valid() && n <= nb
      ensures P() + n <= 8 * |r.data| && v == Num(r.data, P(), n)
    {
      NumSplit(r.data, P(), n, nb - n);
      v := b % Pow2(n);
    }

    /** Reads a field of n bits. */
    method Take(n: nat) returns (v: nat, err: Err)
      requires Valid() && n <= 16
      modifies this, r
      ensures Valid() && Drift() == old(Drift())
      ensures err == Ok ==> old(P()) + n <= 8 * |r.data| && v == Num(r.data, old(P()), n)
      ensures err == Ok ==> P() == old(P()) + n && (nb < 8 || nb == old(nb) - n)
      ensures err != Ok ==> 8 * |r.data| < old(P()) + n && Exhausted(err)
    {
      v := 0;
      err := Fill(n);
      if err == Ok {
        v := Low(n);
        Drop(n);
      }
    }

    /** Reads the three bits a block starts with: whether it is the last one, and its type. */
    method ReadBlockHeader() returns (final: bool, typ: nat, err: Err)
      requires Valid() && nb < 8
      modifies this, r
      ensures Valid() && Drift() == old(Drift())
      ensures err == Ok ==> nb < 8 && P() == old(P()) + 3 && P() <= 8 * |r.data|
      ensures err == Ok ==> final == (Num(r.data, old(P()), 1) == 1) && typ == Num(r.data, old(P()) + 1, 2) < 4
      ensures err != Ok ==> 8 * |r.data| < old(P()) + 3 && Exhausted(err)
    {
      hide BitReader.InStep, Num;
      final, typ := false, 0;
      err := Fill(3);
      if err != Ok {
        return;
      }
      var bit := Low(1);
      final := bit == 1;
      Drop(1);
      typ := Low(2);
      Drop(2);
      TypeBound(r.data, P() - 2);
    }

    /** Starts again at the next byte boundary, dropping what is left of the current byte. */
    method Align()
      requires Valid() && nb < 8
      modifies this
      ensures Valid() && nb == 0 && P() == 8 * ((old(P()) + 7) / 8) && Drift() == old(Drift())
    {
      nb := 0;
      b := 0;
    }

    /** Reads whole bytes into a, bypassing the pending bits, of which there are none. */
    method ReadBytes(a: array<byte>, lo: nat, n: nat) returns (got: nat, err: Err)
      requires Valid() && nb == 0 && lo + n <= a.Length
      modifies this, r, a
      ensures Valid() && nb == 0 && Drift() == old(Drift())
      ensures got <= n && P() == 8 * (old(r.pos) + got) && r.pos == old(r.pos) + got
      ensures got == n || r.pos == |r.data|
      ensures (err == Ok) == (got == n) && (err != Ok ==> Exhausted(err))
      ensures a[..][lo..lo + got] == r.data[old(r.pos)..old(r.pos) + got]
      ensures forall i | 0 <= i < a.Length && !(lo <= i < lo + got) :: a[i] == old(a[i])
    {
      got, err := r.ReadFull(a, lo, n);
      roffset := roffset + got;
      err := NoEof(err);
    }

    /** The table entry the bits at hand lead to. */
    method Peek(h: HuffmanDecoder) returns (chunk: nat)
      requires Valid() && h.Valid()
      ensures 0 < chunk % 16 <= nb ==>
                && chunk / 16 < |h.lens| && h.lens[chunk / 16] == chunk % 16
                && SymbolAt(h.lens, r.data, P()) == Some(chunk / 16)
      ensures chunk % 16 == 0 ==> Dead(h.lens, r.data, P())
      ensures AtLeast(h.lens, r.data, P(), chunk % 16) && chunk % 16 <= MaxLen(h.lens, |h.lens|)
    {
      chunk := h.Lookup(b);
      Entered(h.lens, r.data, P(), nb, chunk);
    }

    /** Decodes one symbol, looking it up with the bits at hand and reading more only when the entry
        found asks for it. A symbol of n bits is accepted exactly when its code stands at the
        current position; the read goes on past it by less than a byte, or up to h.min bits. */
    method HuffSym(h: HuffmanDecoder) returns (sym: nat, err: Err)
      requires Valid() && h.Valid()
      modifies this, r
      ensures Valid() && Drift() == old(Drift())
      ensures err == Ok ==> SymbolAt(h.lens, r.data, old(P())) == Some(sym) && P() == old(P()) + h.lens[sym]
      ensures err == Ok ==> nb == old(nb) - h.lens[sym] || nb < 8 || nb + h.lens[sym] < h.min + 8
      ensures err != Ok ==> SymbolAt(h.lens, r.data, old(P())) == None || 8 * |r.data| < old(P()) + h.min
      ensures err == Corrupt ==> Dead(h.lens, r.data, old(P()))
      ensures err !in {Ok, Corrupt} ==> Exhausted(err)
      ensures err !in {Ok, Corrupt} && h.min <= MaxLen(h.lens, |h.lens|) ==> !Dead(h.lens, r.data, old(P()))
      ensures h.MinIsLeast() ==> (err == Ok <==> SymbolAt(h.lens, r.data, old(P())).Some?)
      ensures h.MinIsLeast() && err == Ok ==> h.min <= h.lens[sym]
    {
      hide BitReader.InStep, HuffmanDecoder.Consistent, Dead, MaxLen, Accepted, SymbolAt;
      hide HuffmanDecoder.MinIsLeast, AtLeast, CodeAt, Num, Slot;
      ghost var p := P();
      sym := 0;
      var n := h.min;
      while true
        invariant Valid() && P() == p && Drift() == old(Drift()) && n <= 16
        invariant nb == old(nb) || nb < h.min + 8 || (0 < n && nb < n + 8)
        invariant n == h.min || (0 < n <= MaxLen(h.lens, |h.lens|) && AtLeast(h.lens, r.data, p, n))
        decreases |r.data| - r.pos, if nb < n then 0 else 1
      {
        err := Fill(n);
        if err != Ok {
          OutOfData(h, r.data, p, n);
          return;
        }
        ghost var least := n;
        var chunk := Peek(h);
        n := chunk % 16;
        if n <= nb {
          if n == 0 {
            DeadHere(h.lens, r.data, p);
            return 0, Corrupt;
          }
          Drop(n);
          LeastLen(h, r.data, p, least, chunk / 16);
          return chunk / 16, Ok;
        }
      }
    }
  }

  lemma AppendByte(d: seq<byte>, p: nat, n: nat, q: nat)
    requires q < |d| && p + n == 8 * q
    ensures Num(d, p, n + 8) == Num(d, p, n) + Pow2(n) * d[q]
  {
    NumSplit(d, p, n, 8);
    NumByte(d, q);
  }

  /** No symbol whose code stands at p is shorter than n bits. */
  ghost predicate AtLeast(l: seq<nat>, d: seq<byte>, p: nat, n: nat) {
    forall j | 0 <= j < |l| && CodeAt(l, d, p, j) :: n <= l[j]
  }

  /** No symbol stands at p, and whatever may come after the end of the data would not make one. */
  ghost predicate Dead(l: seq<nat>, d: seq<byte>, p: nat) {
    forall x | d <= x :: SymbolAt(l, x, p) == None
  }

  lemma DeadHere(l: seq<nat>, d: seq<byte>, p: nat)
    requires Dead(l, d, p)
    ensures SymbolAt(l, d, p) == None
  {
  }

  lemma Entered(l: seq<nat>, d: seq<byte>, p: nat, n: nat, e: nat)
    requires p + n <= 8 * |d| && forall i | 0 <= i < |l| :: l[i] < MAX_CODE_LEN
    requires e == Slot(l, |l|, 0, MAX_CODE_LEN, Num(d, p, n))
    ensures 0 < e % 16 <= n ==> e / 16 < |l| && l[e / 16] == e % 16 && SymbolAt(l, d, p) == Some(e / 16)
    ensures e % 16 == 0 ==> Dead(l, d, p)
    ensures AtLeast(l, d, p, e % 16) && e % 16 <= MaxLen(l, |l|)
  {
    hide Slot, SymbolAt, MaxLen;
    LazyLookup(l, d, p, n);
    if e % 16 == 0 {
      forall x | d <= x ensures SymbolAt(l, x, p) == None {
        NumMoved(x, d, 0, p, n);
        LazyLookup(l, x, p, n);
      }
    }
  }

  /** The data ends before the n bits that may be needed. */
  lemma OutOfData(h: HuffmanDecoder, d: seq<byte>, p: nat, n: nat)
    requires h.Valid() && p <= 8 * |d| < p + n
    requires n == h.min || (n <= MaxLen(h.lens, |h.lens|) && AtLeast(h.lens, d, p, n))
    ensures SymbolAt(h.lens, d, p) == None || 8 * |d| < p + h.min
    ensures h.MinIsLeast() ==> SymbolAt(h.lens, d, p) == None
    ensures h.min <= MaxLen(h.lens, |h.lens|) ==> !Dead(h.lens, d, p)
  {
    hide MaxLen, Dead, Accepted, HuffmanDecoder.Consistent;
    ValidCodes(h);
    if n <= MaxLen(h.lens, |h.lens|) {
      Alive(h.lens, d, p, n);
    }
  }

  lemma LeastLen(h: HuffmanDecoder, d: seq<byte>, p: nat, n: nat, i: nat)
    requires SymbolAt(h.lens, d, p) == Some(i)
    ensures i < |h.lens| && (h.MinIsLeast() ==> h.min <= h.lens[i]) && (AtLeast(h.lens, d, p, n) ==> n <= h.lens[i])
  {
  }

  lemma ValidCodes(h: HuffmanDecoder)
    requires h.Valid()
    ensures Accepted(h.lens) && forall i | 0 <= i < |h.lens| :: h.lens[i] < MAX_CODE_LEN
  {
  }

  /** If there are codes of n bits or more, and not n bits of data, some continuation of the data has a
      symbol: the code is complete, or its one code is a zero bit, and no bit is there. */
  lemma Alive(l: seq<nat>, d: seq<byte>, p: nat, n: nat)
    requires Accepted(l) && (forall i | 0 <= i < |l| :: l[i] < MAX_CODE_LEN)
    requires 0 < n <= MaxLen(l, |l|) && p <= 8 * |d| < p + n
    ensures !Dead(l, d, p)
  {
    var m := MaxLen(l, |l|);
    var x := d + [0, 0];
    EndIsKraft(l, |l|, m);
    if Kraft(l, |l|, m) == Pow2(m) {
      var i := CompleteMatch(l, Num(x, p, m), m);
      CodeAtMatches(l, x, p, i, m);
    } else {
      var i :| 0 <= i < |l| && l[i] == 1;
      CodeBelowEnd(l, i);
      ZeroBit(d, p);
      assert CodeAt(l, x, p, i);
    }
    assert d <= x && SymbolAt(l, x, p).Some?;
  }

  lemma ZeroBit(d: seq<byte>, p: nat)
    requires p == 8 * |d|
    ensures CodeBits(d + [0, 0], p, 1) == 0
  {
    assert (d + [0, 0])[p / 8] == 0;
  }
}
