/** The codes of a block: the fixed ones of section 3.2.6 of RFC 1951, and those a dynamic block
    defines in its header (section 3.2.7). */
module BlockCodes {
  import opened Bits
  import opened Canonical
  import opened HuffmanTable
  import opened Deflate
  import opened Embedding
  import opened Input
  import opened BitReader

  /** Width of the primary tables. */
  const CHUNK_BITS: nat := 9

  // Fixed codes

  lemma {:induction false} KraftOfEqual(l: seq<nat>, lo: nat, hi: nat, n: nat, m: nat)
    requires lo <= hi <= |l| && 0 < n <= m && forall i | lo <= i < hi :: l[i] == n
    ensures Kraft(l, hi, m) == Kraft(l, lo, m) + (hi - lo) * Pow2(m - n)
  {
    if lo < hi {
      KraftOfEqual(l, lo, hi - 1, n, m);
      assert (hi - lo) * Pow2(m - n) == (hi - 1 - lo) * Pow2(m - n) + Pow2(m - n);
    }
  }

  lemma FixedLitKraft(l: seq<nat>)
    requires l == FixedLit()
    ensures Kraft(l, 288, 9) == 512
  {
    KraftOfEqual(l, 0, 144, 8, 9);
    KraftOfEqual(l, 144, 256, 9, 9);
    KraftOfEqual(l, 256, 280, 7, 9);
    KraftOfEqual(l, 280, 288, 8, 9);
    assert Pow2(1) == 2 && Pow2(0) == 1 && Pow2(2) == 4 by { Pow2Values(); }
  }

  lemma FixedLitAccepted()
    ensures Accepted(FixedLit())
  {
    hide Kraft, FixedLit, MaxLen;
    var l := FixedLit();
    FixedLitKraft(l);
    FixedLitRange(l);
    Pow2Values();
  }

  lemma FixedLitRange(l: seq<nat>)
    requires l == FixedLit()
    ensures forall i | 0 <= i < |l| :: 7 <= l[i] < 10
    ensures l[144] == 9 && l[256] == 7
  {
  }

  lemma {:induction false} FixedDistCount(i: nat)
    requires i <= 32
    ensures CountTo(FixedDist(), i, 5) == i
  {
    if 0 < i {
      FixedDistCount(i - 1);
    }
  }

  /** The fixed distance code is plain five-bit numbers. */
  lemma FixedDistSymbol(d: seq<byte>, p: nat)
    ensures SymbolAt(FixedDist(), d, p) == if p + 5 <= 8 * |d| then Some(CodeBits(d, p, 5)) else None
  {
    var l := FixedDist();
    if p + 5 <= 8 * |d| {
      var s := CodeBits(d, p, 5);
      assert Pow2(5) == 32 by { Pow2Values(); }
      FixedDistCount(s);
      EndShort(l, 32, 4);
      assert First(l, 5) == 0;
      assert Code(l, s) == s;
      SymbolAtIs(l, d, p, s);
    }
  }

  lemma {:induction false} RevOfShifted(x: nat, k: nat, n: nat)
    ensures Rev(x * Pow2(k), k + n) == Rev(x, n)
  {
    if n == 0 {
      ZeroLowBits(x, k, k);
    } else {
      RevOfShifted(x, k, n - 1);
      var i := n - 1;
      Pow2Add(k, i);
      DivTwice(x * Pow2(k), Pow2(k), Pow2(i));
      DivModUnique(x * Pow2(k), x, 0, Pow2(k));
    }
  }

  lemma {:induction false} ZeroLowBits(x: nat, k: nat, n: nat)
    requires n <= k
    ensures Rev(x * Pow2(k), n) == 0
  {
    if 0 < n {
      ZeroLowBits(x, k, n - 1);
      ShiftedBit(x, k, n - 1);
    }
  }

  lemma ShiftedBit(x: nat, k: nat, i: nat)
    requires i < k
    ensures BitOf(x * Pow2(k), i) == 0
  {
    var h := k - i - 1;
    Pow2Add(i, h + 1);
    assert Pow2(h + 1) == 2 * Pow2(h);
    EvenMultiple(x, Pow2(i), Pow2(h));
    EvenQuotient(x * Pow2(k), Pow2(i), x * Pow2(h));
  }

  lemma EvenQuotient(z: nat, m: nat, y: nat)
    requires 0 < m && z == (2 * y) * m
    ensures (z / m) % 2 == 0
  {
    DivModUnique(z, 2 * y, 0, m);
  }

  lemma EvenMultiple(x: nat, a: nat, h: nat)
    ensures x * (a * (2 * h)) == (2 * (x * h)) * a
  {
    assert x * (a * (2 * h)) == (x * h) * (2 * a);
  }

  /** Five bits reversed as the top of a byte are the same bits read as a code. */
  lemma FiveBitCode(d: seq<byte>, p: nat)
    requires p + 5 <= 8 * |d|
    ensures Rev(Num(d, p, 5) * 8, 8) == CodeBits(d, p, 5)
  {
    Pow2Values();
    RevOfShifted(Num(d, p, 5), 3, 5);
    CodeBitsRev(d, p, 5, 5);
  }

  /** Built once and shared by all decoders. */
  method FixedHuffmanDecoder() returns (h: HuffmanDecoder)
    ensures fresh(h) && fresh(h.chunks)
    ensures h.Valid() && h.lens == FixedLit() && h.min == 7
  {
    var l := FixedLit();
    assert Accepted(l) && (forall i | 0 <= i < |l| :: l[i] < MAX_CODE_LEN) by {
      FixedLitAccepted();
      FixedLitRange(l);
    }
    h := DecoderFor(l);
    FixedMin(h);
  }

  lemma FixedMin(h: HuffmanDecoder)
    requires h.Valid() && h.lens == FixedLit() && h.MinIsLeast()
    ensures h.min == 7
  {
    var l := h.lens;
    FixedLitRange(l);
    assert h.min <= l[256] && l[256] <= MaxLen(l, |l|);
    assert h.min in l;
  }

  method DecoderFor(l: seq<nat>) returns (h: HuffmanDecoder)
    requires Accepted(l) && (forall i | 0 <= i < |l| :: l[i] < MAX_CODE_LEN) && 0 < |l|
    ensures fresh(h) && fresh(h.chunks)
    ensures h.Valid() && h.lens == l && h.MinIsLeast()
  {
    h := new HuffmanDecoder(CHUNK_BITS);
    var ok := h.Init(l);
  }

  // Dynamic codes

  /** Where in the code length order the length for symbol s comes. */
  const ORDER_INDEX: seq<nat> := [3, 17, 15, 13, 11, 9, 7, 5, 4, 6, 8, 10, 12, 14, 16, 18, 0, 1, 2]

  lemma OrderThenIndex()
    ensures |CODE_ORDER| == |ORDER_INDEX| == NUM_CODES
    ensures forall k | 0 <= k < NUM_CODES :: CODE_ORDER[k] < NUM_CODES && ORDER_INDEX[CODE_ORDER[k]] == k
  {
  }

  lemma IndexThenOrder()
    ensures |CODE_ORDER| == |ORDER_INDEX| == NUM_CODES
    ensures forall s | 0 <= s < NUM_CODES :: ORDER_INDEX[s] < NUM_CODES && CODE_ORDER[ORDER_INDEX[s]] == s
  {
  }

  /** An order in which each of the code length codes comes once. */
  predicate IsOrder(order: seq<nat>) {
    && |order| == NUM_CODES
    && (forall k | 0 <= k < NUM_CODES :: order[k] < NUM_CODES)
    && (forall j, k | 0 <= j < k < NUM_CODES :: order[j] != order[k])
  }

  lemma CodeOrderIsOrder()
    ensures IsOrder(CODE_ORDER)
  {
    OrderThenIndex();
  }

  lemma {:induction false} ClenLensAt(d: seq<byte>, p: nat, n: nat, k: nat, order: seq<nat>)
    requires n <= NUM_CODES && Has(d, p, 3 * n) && k < NUM_CODES && order == CODE_ORDER && IsOrder(order)
    ensures ClenLens(d, p, n)[order[k]] == if k < n then Num(d, p + 3 * k, 3) else 0
  {
    hide Num, Pow2;
    if 0 < n {
      ClenLensAt(d, p, n - 1, k, order);
      assert ClenLens(d, p, n) == ClenLens(d, p, n - 1)[order[n - 1] := Num(d, p + 3 * (n - 1), 3)];
      assert k != n - 1 ==> order[k] != order[n - 1];
    }
  }

  /** The first i slots along the order are filled: the first n of them with what the stream has
      from bit p on, the others with zeros. */
  ghost predicate ClensFilled(order: seq<nat>, d: seq<byte>, p: nat, n: nat, i: nat, a: seq<nat>)
  {
    && IsOrder(order) && n <= NUM_CODES && i <= NUM_CODES == |a| && Has(d, p, 3 * n)
    && forall k | 0 <= k < i :: a[order[k]] == if k < n then Num(d, p + 3 * k, 3) else 0
  }

  lemma ClensStep(order: seq<nat>, d: seq<byte>, p: nat, n: nat, i: nat, a: seq<nat>, v: nat)
    requires i < NUM_CODES && n <= i && ClensFilled(order, d, p, n, i, a)
    requires v == 0 || i == n
    ensures (i == n && Has(d, p, 3 * (n + 1)) && v == Num(d, p + 3 * n, 3)) ==>
              ClensFilled(order, d, p, n + 1, i + 1, a[order[i] := v])
    ensures v == 0 ==> ClensFilled(order, d, p, n, i + 1, a[order[i] := v])
  {
  }

  lemma ClensAll(d: seq<byte>, p: nat, n: nat, a: seq<nat>)
    requires ClensFilled(CODE_ORDER, d, p, n, NUM_CODES, a)
    ensures a == ClenLens(d, p, n)
  {
    IndexThenOrder();
    forall s | 0 <= s < NUM_CODES ensures a[s] == ClenLens(d, p, n)[s] {
      var k := ORDER_INDEX[s];
      ClenLensAt(d, p, n, k, CODE_ORDER);
      assert CODE_ORDER[k] == s;
    }
  }

  /** Bits a decoder may have to read at once to be able to reach the end of the block: the length
      of the end-of-block code, or any code length if the block cannot end. */
  function EndBits(l: seq<nat>): (n: nat)
  {
    if END_OF_BLOCK < |l| && 0 < l[END_OF_BLOCK] < MAX_CODE_LEN then l[END_OF_BLOCK] else MAX_CODE_LEN - 1
  }

  /** The decoders a dynamic block is read with, and the scratch arrays for its header. */
  class HuffmanCodes {
    const h1: HuffmanDecoder
    const h2: HuffmanDecoder
    const bits: array<nat>
    const codebits: array<nat>

    ghost function Repr(): set<object>
    {
      {this, h1, h1.chunks, h2, h2.chunks, bits, codebits}
    }

    ghost predicate Valid()
      reads this, h1, h1.chunks, h2, h2.chunks
    {
      Consistent()
    }

    ghost predicate Consistent()
      reads this, h1, h1.chunks, h2, h2.chunks
    {
      && h1.Valid() && h2.Valid()
      && h1 != h2 && h1.chunks != h2.chunks
      && bits.Length == MAX_NUM_LIT + MAX_NUM_DIST && codebits.Length == NUM_CODES
      && bits != codebits
      && bits != h1.chunks && bits != h2.chunks && codebits != h1.chunks && codebits != h2.chunks
    }

    constructor ()
      ensures Valid() && fresh(Repr())
    {
      h1 := new HuffmanDecoder(CHUNK_BITS);
      h2 := new HuffmanDecoder(CHUNK_BITS);
      bits := new nat[MAX_NUM_LIT + MAX_NUM_DIST](_ => 0);
      codebits := new nat[NUM_CODES](_ => 0);
    }

    /** Reads nclen code length code lengths; the others are zero. */
    method ReadClens(in_: BitReader, order: seq<nat>, nclen: nat) returns (err: Err)
      requires in_.Valid() && in_.nb < 8 && nclen <= NUM_CODES == codebits.Length && IsOrder(order)
      modifies in_, in_.r, codebits
      ensures in_.Valid() && in_.Drift() == old(in_.Drift())
      ensures err != Ok ==> !Has(in_.r.data, old(in_.P()), 3 * nclen) && in_.Exhausted(err)
      ensures err == Ok ==> in_.nb < 8 && in_.P() == old(in_.P()) + 3 * nclen
      ensures err == Ok ==> ClensFilled(order, in_.r.data, old(in_.P()), nclen, NUM_CODES, codebits[..])
    {
      ghost var d, p := in_.r.data, in_.P();
      for i := 0 to nclen
        invariant in_.Valid() && in_.nb < 8 && in_.Drift() == old(in_.Drift())
        invariant in_.P() == p + 3 * i && ClensFilled(order, d, p, i, i, codebits[..])
      {
        err := ReadClen(in_, order, p, i);
        if err != Ok {
          return;
        }
      }
      ZeroRest(order, d, p, nclen);
      err := Ok;
    }

    method ReadClen(in_: BitReader, order: seq<nat>, ghost p: nat, i: nat) returns (err: Err)
      requires in_.Valid() && in_.nb < 8 && i < NUM_CODES == codebits.Length
      requires in_.P() == p + 3 * i && ClensFilled(order, in_.r.data, p, i, i, codebits[..])
      modifies in_, in_.r, codebits
      ensures in_.Valid() && in_.Drift() == old(in_.Drift())
      ensures err != Ok ==> !Has(in_.r.data, p, 3 * (i + 1)) && in_.Exhausted(err)
      ensures err == Ok ==> in_.nb < 8 && in_.P() == p + 3 * (i + 1)
      ensures err == Ok ==> ClensFilled(order, in_.r.data, p, i + 1, i + 1, codebits[..])
    {
      var v;
      v, err := in_.Take(3);
      if err != Ok {
        return;
      }
      ghost var a := codebits[..];
      ClensStep(order, in_.r.data, p, i, i, a, v);
      codebits[order[i]] := v;
      assert codebits[..] == a[order[i] := v];
    }

    method ZeroRest(order: seq<nat>, ghost d: seq<byte>, ghost p: nat, nclen: nat)
      requires codebits.Length == NUM_CODES && ClensFilled(order, d, p, nclen, nclen, codebits[..])
      modifies codebits
      ensures ClensFilled(order, d, p, nclen, NUM_CODES, codebits[..])
    {
      for i := nclen to NUM_CODES
        invariant ClensFilled(order, d, p, nclen, i, codebits[..])
      {
        ghost var a := codebits[..];
        ClensStep(order, d, p, nclen, i, a, 0);
        codebits[order[i]] := 0;
        assert codebits[..] == a[order[i] := 0];
      }
    }

    // Code lengths

    /** Stores the same length rep times. */
    method StoreRun(i: nat, rep: nat, v: nat)
      requires i + rep <= bits.Length
      modifies bits
      ensures bits[..i + rep] == old(bits[..i]) + seq(rep, _ => v)
    {
      for j := 0 to rep
        invariant bits[..i] == old(bits[..i])
        invariant forall k | i <= k < i + j :: bits[k] == v
      {
        bits[i + j] := v;
      }
    }

    /** What a code length symbol repeats, and how often: a length itself, or the previous length or
        zero with a count that follows in the stream. */
    method RepeatOf(in_: BitReader, x: nat, i: nat) returns (rep: nat, v: nat, err: Err)
      requires in_.Valid() && in_.nb < 8 && x < NUM_CODES && i < bits.Length
      requires forall k | 0 <= k < i :: bits[k] < MAX_CODE_LEN
      modifies in_, in_.r
      ensures in_.Valid() && in_.Drift() == old(in_.Drift()) && bits[..] == old(bits[..])
      ensures err != Ok ==> RunOf(in_.r.data, old(in_.P()), x, bits[..i]) == None
      ensures err == Ok ==> RunOf(in_.r.data, old(in_.P()), x, bits[..i]) == Some((seq(rep, _ => v), in_.P()))
      ensures err == Ok ==> in_.nb < 8 && 0 < rep && v < MAX_CODE_LEN
      ensures err == Corrupt ==> NoRun(in_.r.data, old(in_.P()), x, bits[..i])
      ensures err !in {Ok, Corrupt} ==> in_.Exhausted(err)
    {
      hide BitReader.InStep;
      rep, v, err := 1, x, Ok;
      var more := 0;
      if x < 16 {
        assert seq(rep, _ => v) == [x];
      } else if x == 16 {
        if i == 0 {
          return 0, 0, Corrupt;
        }
        v := bits[i - 1];
        more, err := in_.Take(2);
        rep := 3 + more;
      } else if x == 17 {
        more, err := in_.Take(3);
        rep, v := 3 + more, 0;
      } else {
        more, err := in_.Take(7);
        rep, v := 11 + more, 0;
      }
    }

    /** Reads one code length symbol, with its repeat count, and stores the lengths it stands for
        from slot i on. */
    method ReadRun(in_: BitReader, i: nat, n: nat) returns (next: nat, err: Err)
      requires in_.Valid() && in_.nb < 8 && h1.Valid() && h1.MinIsLeast() && |h1.lens| == NUM_CODES
      requires i < n <= bits.Length && bits != h1.chunks
      requires LensBelow(bits[..i])
      modifies in_, in_.r, bits
      ensures in_.Valid() && in_.Drift() == old(in_.Drift())
      ensures err != Ok ==> CodeLens(in_.r.data, old(in_.P()), h1.lens, old(bits[..i]), n) == None
      ensures err == Ok ==> i < next <= n && in_.nb < 8 && LensBelow(bits[..next])
      ensures err == Ok ==>
                CodeLens(in_.r.data, old(in_.P()), h1.lens, old(bits[..i]), n)
                == CodeLens(in_.r.data, in_.P(), h1.lens, bits[..next], n)
      ensures err == Corrupt ==> NoLens(in_.r.data, old(in_.P()), h1.lens, old(bits[..i]), n)
      ensures err == Ok && NoLens(in_.r.data, in_.P(), h1.lens, bits[..next], n) ==>
                NoLens(in_.r.data, old(in_.P()), h1.lens, old(bits[..i]), n)
      ensures err !in {Ok, Corrupt} ==> in_.Exhausted(err)
    {
      hide HuffmanDecoder.Consistent, BitReader.InStep, Accepted, CodeLens, DynamicCodes, Dead, NoRun, NoLens;
      ghost var d, p, acc, cl := in_.r.data, in_.P(), bits[..i], h1.lens;
      next := i;
      var x;
      x, err := in_.HuffSym(h1);
      if err != Ok {
        CodeLensNoSymbol(d, p, cl, acc, n);
        NoLensDead(d, p, cl, acc, n);
        return;
      }
      var rep, v;
      rep, v, err := RepeatOf(in_, x, i);
      if err != Ok {
        CodeLensNoRun(d, p, cl, acc, n, x);
        NoLensRun(d, p, cl, acc, n, x);
        return;
      }
      if i + rep > n {
        CodeLensLong(d, p, cl, acc, n, x, seq(rep, _ => v), in_.P());
        NoLensLong(d, p, cl, acc, n, x, seq(rep, _ => v), in_.P());
        return i, Corrupt;
      }
      StoreRun(i, rep, v);
      next := i + rep;
      CodeLensStep(d, p, cl, acc, n, x, seq(rep, _ => v), in_.P(), bits[..next]);
      NoLensStep(d, p, cl, acc, n, x, seq(rep, _ => v), in_.P(), bits[..next]);
    }

    /** Reads the code lengths of both codes as one list. */
    method ReadLens(in_: BitReader, n: nat) returns (err: Err)
      requires in_.Valid() && in_.nb < 8 && h1.Valid() && h1.MinIsLeast() && |h1.lens| == NUM_CODES
      requires n <= bits.Length && bits != h1.chunks
      modifies in_, in_.r, bits
      ensures in_.Valid() && in_.Drift() == old(in_.Drift())
      ensures err != Ok ==> CodeLens(in_.r.data, old(in_.P()), h1.lens, [], n) == None
      ensures err == Ok ==> in_.nb < 8 && LensBelow(bits[..n])
      ensures err == Ok ==> CodeLens(in_.r.data, old(in_.P()), h1.lens, [], n) == Some((bits[..n], in_.P()))
      ensures err == Corrupt ==> NoLens(in_.r.data, old(in_.P()), h1.lens, [], n)
      ensures err !in {Ok, Corrupt} ==> in_.Exhausted(err)
    {
      hide HuffmanDecoder.Consistent, BitReader.InStep, Accepted, DynamicCodes, NoLens;
      ghost var d, p, cl := in_.r.data, in_.P(), h1.lens;
      var i := 0;
      while i < n
        invariant i <= n && in_.Valid() && in_.nb < 8 && in_.Drift() == old(in_.Drift()) && LensBelow(bits[..i])
        invariant CodeLens(d, p, cl, [], n) == CodeLens(d, in_.P(), cl, bits[..i], n)
        invariant NoLens(d, in_.P(), cl, bits[..i], n) ==> NoLens(d, p, cl, [], n)
      {
        i, err := ReadRun(in_, i, n);
        if err != Ok {
          return;
        }
      }
      err := Ok;
    }

    /** The three counts at the start of a dynamic header. */
    method ReadCounts(in_: BitReader) returns (nlit: nat, ndist: nat, nclen: nat, err: Err)
      requires in_.Valid() && in_.nb < 8
      modifies in_, in_.r
      ensures in_.Valid() && in_.Drift() == old(in_.Drift())
      ensures err != Ok ==> !GoodCounts(in_.r.data, old(in_.P()))
      ensures err == Ok ==> Counts(in_.r.data, old(in_.P()), nlit, ndist, nclen)
      ensures err == Ok ==> in_.nb < 8 && in_.P() == old(in_.P()) + 14
      ensures err == Corrupt ==> NoCodes(in_.r.data, old(in_.P()))
      ensures err !in {Ok, Corrupt} ==> in_.Exhausted(err)
    {
      hide BitReader.InStep, DynamicCodes, Num, NoCodes;
      nlit, ndist, nclen := 0, 0, 0;
      err := in_.Fill(14);
      if err != Ok {
        return;
      }
      ghost var p := in_.P();
      var v := in_.Low(5);
      nlit := v + 257;
      if nlit > MAX_NUM_LIT {
        NoCodesCounts(in_.r.data, p);
        return nlit, 0, 0, Corrupt;
      }
      in_.Drop(5);
      v := in_.Low(5);
      ndist := v + 1;
      if ndist > MAX_NUM_DIST {
        NoCodesCounts(in_.r.data, p);
        return nlit, ndist, 0, Corrupt;
      }
      in_.Drop(5);
      v := in_.Low(4);
      assert Pow2(4) == 16 by { Pow2Values(); }
      nclen := v + 4;
      in_.Drop(4);
    }

    /** Reads the header of a dynamic block and builds its two decoders. The smallest read for the
        literal/length decoder becomes the length of the end-of-block code. */
    method ReadHuffman(in_: BitReader) returns (err: Err)
      requires Valid() && in_.Valid() && in_.nb < 8
      modifies in_, in_.r, Repr()
      ensures Valid() && in_.Valid() && in_.Drift() == old(in_.Drift())
      ensures err != Ok ==> DynamicCodes(in_.r.data, old(in_.P())) == None
      ensures err == Ok ==> DynamicCodes(in_.r.data, old(in_.P())) == Some((h1.lens, h2.lens, in_.P()))
      ensures err == Ok ==> in_.nb < 8 && h1.min <= EndBits(h1.lens) && h2.MinIsLeast()
      ensures err == Corrupt ==> NoCodes(in_.r.data, old(in_.P()))
      ensures err !in {Ok, Corrupt} ==> in_.Exhausted(err)
    {
      hide HuffmanDecoder.Consistent, BitReader.InStep, Accepted, CodeLens, DynamicCodes, NoCodes;
      ghost var d, p := in_.r.data, in_.P();
      var nlit, ndist;
      ghost var header;
      nlit, ndist, err, header := ReadHeader(in_);
      if err != Ok {
        HeaderFails(d, p, header);
        return;
      }
      ghost var lens := bits[..nlit + ndist];
      HeaderGives(d, p, header, lens, in_.P());
      GivesNoCodes(d, p, header, lens, in_.P());
      err := BuildBoth(nlit, ndist, lens);
    }

    /** The header up to the list of code lengths. */
    method ReadHeader(in_: BitReader) returns (nlit: nat, ndist: nat, err: Err, header: Header)
      requires Valid() && in_.Valid() && in_.nb < 8
      modifies in_, in_.r, bits, codebits, h1, h1.chunks
      ensures Valid() && in_.Valid() && in_.Drift() == old(in_.Drift())
      ensures err != Ok ==> Fails(in_.r.data, old(in_.P()), header)
      ensures err == Ok ==> nlit == header.nlit && ndist == header.ndist && in_.nb < 8
      ensures err == Ok ==> END_OF_BLOCK < nlit && nlit + ndist <= bits.Length && LensBelow(bits[..nlit + ndist])
      ensures err == Ok ==> Gives(in_.r.data, old(in_.P()), header, bits[..nlit + ndist], in_.P())
      ensures err == Corrupt ==> NoCodes(in_.r.data, old(in_.P()))
      ensures err !in {Ok, Corrupt} ==> in_.Exhausted(err)
    {
      hide HuffmanDecoder.Consistent, BitReader.InStep, Accepted, CodeLens, DynamicCodes, Num, ClenLens, NoCodes;
      hide HasLengthCode, BitReader.Valid;
      ghost var p := in_.P();
      header, err := ReadFront(in_);
      nlit, ndist := header.nlit, header.ndist;
      if err == Ok {
        err := ReadList(in_, p, header);
      }
    }

    /** The counts and the code the code lengths are written in. */
    method ReadFront(in_: BitReader) returns (header: Header, err: Err)
      requires Valid() && in_.Valid() && in_.nb < 8
      modifies in_, in_.r, codebits, h1, h1.chunks
      ensures Valid() && in_.Valid() && in_.Drift() == old(in_.Drift())
      ensures err != Ok ==> Fails(in_.r.data, old(in_.P()), header)
      ensures err == Ok ==> Counts(in_.r.data, old(in_.P()), header.nlit, header.ndist, header.nclen)
      ensures err == Ok ==> HasLengthCode(in_.r.data, old(in_.P()), header.nclen)
      ensures err == Ok ==> in_.nb < 8 && in_.P() == old(in_.P()) + 14 + 3 * header.nclen
      ensures err == Ok ==> h1.lens == ClenLens(in_.r.data, old(in_.P()) + 14, header.nclen) && h1.MinIsLeast()
      ensures err == Corrupt ==> NoCodes(in_.r.data, old(in_.P()))
      ensures err !in {Ok, Corrupt} ==> in_.Exhausted(err)
    {
      hide HuffmanDecoder.Consistent, BitReader.InStep, Accepted, CodeLens, DynamicCodes, Num, ClenLens, NoCodes;
      hide HasLengthCode, HuffmanDecoder.Valid, BitReader.Valid;
      ghost var p := in_.P();
      var nlit, ndist, nclen;
      nlit, ndist, nclen, err := ReadCounts(in_);
      header := Header(nlit, ndist, nclen);
      if err == Ok {
        err := ReadLengthCode(in_, p, nclen);
        if err == Corrupt {
          NoCodesLengthCode(in_.r.data, p, nlit, ndist, nclen);
        }
      }
    }

    method ReadList(in_: BitReader, ghost p: nat, h: Header) returns (err: Err)
      requires in_.Valid() && in_.nb < 8 && h1.Valid() && h1.MinIsLeast() && bits != h1.chunks
      requires Counts(in_.r.data, p, h.nlit, h.ndist, h.nclen) && HasLengthCode(in_.r.data, p, h.nclen)
      requires in_.P() == p + 14 + 3 * h.nclen && h1.lens == ClenLens(in_.r.data, p + 14, h.nclen)
      requires h.nlit + h.ndist <= bits.Length
      modifies in_, in_.r, bits
      ensures in_.Valid() && in_.Drift() == old(in_.Drift())
      ensures err != Ok ==> HeaderLens(in_.r.data, p, h) == None
      ensures err == Ok ==> in_.nb < 8 && LensBelow(bits[..h.nlit + h.ndist])
      ensures err == Ok ==> HeaderLens(in_.r.data, p, h) == Some((bits[..h.nlit + h.ndist], in_.P()))
      ensures err == Corrupt ==> NoCodes(in_.r.data, p)
      ensures err !in {Ok, Corrupt} ==> in_.Exhausted(err)
    {
      hide HuffmanDecoder.Consistent, BitReader.InStep, Accepted, CodeLens, DynamicCodes, NoLens, NoCodes;
      ghost var d, q, cl := in_.r.data, in_.P(), h1.lens;
      HeaderLensAt(d, p, h, q, cl);
      err := ReadLens(in_, h.nlit + h.ndist);
      if err == Corrupt {
        NoCodesLens(d, p, h, cl);
      }
    }

    /** The code the code lengths are written in. */
    method ReadLengthCode(in_: BitReader, ghost p: nat, nclen: nat) returns (err: Err)
      requires Valid() && in_.Valid() && in_.nb < 8 && nclen <= NUM_CODES && in_.P() == p + 14
      modifies in_, in_.r, codebits, h1, h1.chunks
      ensures Valid() && in_.Valid() && in_.Drift() == old(in_.Drift())
      ensures err != Ok ==> !HasLengthCode(in_.r.data, p, nclen)
      ensures err == Ok ==> HasLengthCode(in_.r.data, p, nclen) && in_.nb < 8 && in_.P() == p + 14 + 3 * nclen
      ensures err == Ok ==> h1.lens == ClenLens(in_.r.data, p + 14, nclen) && h1.MinIsLeast()
      ensures err == Corrupt ==> Has(in_.r.data, p + 14, 3 * nclen)
      ensures err !in {Ok, Corrupt} ==> in_.Exhausted(err)
    {
      hide HuffmanDecoder.Consistent, BitReader.InStep, Accepted, CodeLens, DynamicCodes, ClensFilled, Num;
      CodeOrderIsOrder();
      err := ReadClens(in_, CODE_ORDER, nclen);
      if err != Ok {
        return;
      }
      ghost var cl := codebits[..];
      ClensAll(in_.r.data, p + 14, nclen, cl);
      assert forall i | 0 <= i < |cl| :: cl[i] < 8;
      var ok := h1.Init(codebits[..]);
      err := if ok then Ok else Corrupt;
    }

    method BuildBoth(nlit: nat, ndist: nat, ghost lens: seq<nat>) returns (err: Err)
      requires Valid() && END_OF_BLOCK < nlit && nlit + ndist <= bits.Length
      requires lens == bits[..nlit + ndist] && LensBelow(lens)
      modifies h1, h1.chunks, h2, h2.chunks
      ensures Valid()
      ensures err == if Accepted(lens[..nlit]) && Accepted(lens[nlit..]) then Ok else Corrupt
      ensures err == Ok ==> h1.lens == lens[..nlit] && h2.lens == lens[nlit..]
      ensures err == Ok ==> h1.min <= EndBits(h1.lens) && h2.MinIsLeast()
    {
      hide HuffmanDecoder.Consistent, BitReader.InStep, Accepted, CodeLens, DynamicCodes;
      assert bits[..nlit] == lens[..nlit];
      var ok := h1.Init(bits[..nlit]);
      if !ok {
        return Corrupt;
      }
      assert bits[nlit..nlit + ndist] == lens[nlit..];
      ok := h2.Init(bits[nlit..nlit + ndist]);
      if !ok {
        return Corrupt;
      }
      RaiseMin();
      err := Ok;
    }

    method RaiseMin()
      requires Valid() && END_OF_BLOCK < |h1.lens| && END_OF_BLOCK < bits.Length
      requires bits[END_OF_BLOCK] == h1.lens[END_OF_BLOCK] && h1.MinIsLeast()
      modifies h1`min
      ensures Valid() && h1.min <= EndBits(h1.lens)
    {
      if h1.min < bits[END_OF_BLOCK] {
        h1.min := bits[END_OF_BLOCK];
      }
    }
  }

  predicate Counts(d: seq<byte>, p: nat, nlit: nat, ndist: nat, nclen: nat) {
    && Has(d, p, 14)
    && nlit == Num(d, p, 5) + 257 && ndist == Num(d, p + 5, 5) + 1 && nclen == Num(d, p + 10, 4) + 4
    && nlit <= MAX_NUM_LIT && ndist <= MAX_NUM_DIST && nclen <= NUM_CODES
  }

  predicate GoodCounts(d: seq<byte>, p: nat) {
    Has(d, p, 14) && Num(d, p, 5) + 257 <= MAX_NUM_LIT && Num(d, p + 5, 5) + 1 <= MAX_NUM_DIST
  }

  predicate HasLengthCode(d: seq<byte>, p: nat, nclen: nat)
    requires nclen <= NUM_CODES
  {
    Has(d, p + 14, 3 * nclen) && Accepted(ClenLens(d, p + 14, nclen))
  }

  datatype Header = Header(nlit: nat, ndist: nat, nclen: nat)

  /** The list of code lengths that follows the counts, and where it ends. */
  ghost function HeaderLens(d: seq<byte>, p: nat, h: Header): Option<(seq<nat>, nat)>
    requires Counts(d, p, h.nlit, h.ndist, h.nclen) && HasLengthCode(d, p, h.nclen)
  {
    CodeLens(d, p + 14 + 3 * h.nclen, ClenLens(d, p + 14, h.nclen), [], h.nlit + h.ndist)
  }

  lemma HeaderLensAt(d: seq<byte>, p: nat, h: Header, q: nat, cl: seq<nat>)
    requires Counts(d, p, h.nlit, h.ndist, h.nclen) && HasLengthCode(d, p, h.nclen)
    requires q == p + 14 + 3 * h.nclen && cl == ClenLens(d, p + 14, h.nclen)
    ensures HeaderLens(d, p, h) == CodeLens(d, q, cl, [], h.nlit + h.ndist)
  {
  }

  ghost predicate Fails(d: seq<byte>, p: nat, h: Header) {
    || !GoodCounts(d, p)
    || (Counts(d, p, h.nlit, h.ndist, h.nclen) && (!HasLengthCode(d, p, h.nclen) || HeaderLens(d, p, h) == None))
  }

  ghost predicate Gives(d: seq<byte>, p: nat, h: Header, lens: seq<nat>, end: nat) {
    && Counts(d, p, h.nlit, h.ndist, h.nclen) && HasLengthCode(d, p, h.nclen)
    && |lens| == h.nlit + h.ndist && HeaderLens(d, p, h) == Some((lens, end))
  }

  lemma HeaderFails(d: seq<byte>, p: nat, h: Header)
    requires Fails(d, p, h)
    ensures DynamicCodes(d, p) == None
  {
    hide CodeLens, Accepted, ClenLens, Num;
  }

  lemma HeaderGives(d: seq<byte>, p: nat, h: Header, lens: seq<nat>, end: nat)
    requires Gives(d, p, h, lens, end)
    ensures DynamicCodes(d, p)
         == if Accepted(lens[..h.nlit]) && Accepted(lens[h.nlit..]) then Some((lens[..h.nlit], lens[h.nlit..], end))
             else None
  {
  }

  ghost predicate LensBelow(l: seq<nat>) {
    forall k | 0 <= k < |l| :: l[k] < MAX_CODE_LEN
  }

  lemma CodeLensNoSymbol(d: seq<byte>, p: nat, cl: seq<nat>, acc: seq<nat>, n: nat)
    requires p <= 8 * |d| && |acc| < n && SymbolAt(cl, d, p) == None
    ensures CodeLens(d, p, cl, acc, n) == None
  {
  }

  lemma CodeLensNoRun(d: seq<byte>, p: nat, cl: seq<nat>, acc: seq<nat>, n: nat, s: nat)
    requires p <= 8 * |d| && |acc| < n && SymbolAt(cl, d, p) == Some(s)
    requires RunOf(d, p + cl[s], s, acc) == None
    ensures CodeLens(d, p, cl, acc, n) == None
  {
  }

  lemma CodeLensLong(d: seq<byte>, p: nat, cl: seq<nat>, acc: seq<nat>, n: nat, s: nat, run: seq<nat>, q: nat)
    requires p <= 8 * |d| && |acc| < n && SymbolAt(cl, d, p) == Some(s)
    requires RunOf(d, p + cl[s], s, acc) == Some((run, q)) && |acc| + |run| > n
    ensures CodeLens(d, p, cl, acc, n) == None
  {
  }

  lemma CodeLensStep(d: seq<byte>, p: nat, cl: seq<nat>, acc: seq<nat>, n: nat, s: nat, run: seq<nat>, q: nat,
      acc': seq<nat>)
    requires p <= 8 * |d| && |acc| < n && SymbolAt(cl, d, p) == Some(s)
    requires RunOf(d, p + cl[s], s, acc) == Some((run, q)) && acc' == acc + run && |acc'| <= n && q <= 8 * |d|
    ensures CodeLens(d, p, cl, acc, n) == CodeLens(d, q, cl, acc', n)
  {
    hide RunOf, CodeAt, Num, Code;
  }

  // Headers that are bad whatever follows the data

  ghost predicate NoRun(d: seq<byte>, p: nat, sym: nat, acc: seq<nat>)
    requires p <= 8 * |d|
  {
    forall x | d <= x :: RunOf(x, p, sym, acc) == None
  }

  ghost predicate NoLens(d: seq<byte>, p: nat, cl: seq<nat>, acc: seq<nat>, n: nat)
    requires p <= 8 * |d|
  {
    forall x | d <= x :: CodeLens(x, p, cl, acc, n) == None
  }

  ghost predicate NoCodes(d: seq<byte>, p: nat) {
    forall x | d <= x :: DynamicCodes(x, p) == None
  }

  lemma NoLensDead(d: seq<byte>, p: nat, cl: seq<nat>, acc: seq<nat>, n: nat)
    requires p <= 8 * |d| && |acc| < n
    ensures Dead(cl, d, p) ==> NoLens(d, p, cl, acc, n)
  {
    hide CodeLens, SymbolAt;
    if Dead(cl, d, p) {
      forall x | d <= x ensures CodeLens(x, p, cl, acc, n) == None {
        CodeLensNoSymbol(x, p, cl, acc, n);
      }
    }
  }

  lemma NoLensRun(d: seq<byte>, p: nat, cl: seq<nat>, acc: seq<nat>, n: nat, s: nat)
    requires p <= 8 * |d| && |acc| < n && SymbolAt(cl, d, p) == Some(s)
    ensures NoRun(d, p + cl[s], s, acc) ==> NoLens(d, p, cl, acc, n)
  {
    hide CodeLens, SymbolAt, RunOf;
    if NoRun(d, p + cl[s], s, acc) {
      forall x | d <= x ensures CodeLens(x, p, cl, acc, n) == None {
        SymbolMoved(x, d, 0, cl, p);
        CodeLensNoRun(x, p, cl, acc, n, s);
      }
    }
  }

  lemma NoLensLong(d: seq<byte>, p: nat, cl: seq<nat>, acc: seq<nat>, n: nat, s: nat, run: seq<nat>, q: nat)
    requires p <= 8 * |d| && |acc| < n && SymbolAt(cl, d, p) == Some(s)
    requires RunOf(d, p + cl[s], s, acc) == Some((run, q)) && |acc| + |run| > n
    ensures NoLens(d, p, cl, acc, n)
  {
    hide CodeLens, SymbolAt, RunOf;
    forall x | d <= x ensures CodeLens(x, p, cl, acc, n) == None {
      SymbolMoved(x, d, 0, cl, p);
      RunOfMoved(x, d, 0, p + cl[s], s, acc);
      CodeLensLong(x, p, cl, acc, n, s, run, q);
    }
  }

  lemma NoLensStep(d: seq<byte>, p: nat, cl: seq<nat>, acc: seq<nat>, n: nat, s: nat, run: seq<nat>, q: nat,
                   acc': seq<nat>)
    requires p <= 8 * |d| && |acc| < n && SymbolAt(cl, d, p) == Some(s)
    requires RunOf(d, p + cl[s], s, acc) == Some((run, q)) && acc' == acc + run && |acc'| <= n && q <= 8 * |d|
    ensures NoLens(d, q, cl, acc', n) ==> NoLens(d, p, cl, acc, n)
  {
    hide CodeLens, SymbolAt, RunOf;
    if NoLens(d, q, cl, acc', n) {
      forall x | d <= x ensures CodeLens(x, p, cl, acc, n) == None {
        SymbolMoved(x, d, 0, cl, p);
        RunOfMoved(x, d, 0, p + cl[s], s, acc);
        CodeLensStep(x, p, cl, acc, n, s, run, q, acc');
      }
    }
  }

  lemma NoCodesCounts(d: seq<byte>, p: nat)
    requires Has(d, p, 14) && !GoodCounts(d, p)
    ensures NoCodes(d, p)
  {
    hide Num, CodeLens, ClenLens, Accepted;
    forall x | d <= x ensures DynamicCodes(x, p) == None {
      NumMoved(x, d, 0, p, 5);
      NumMoved(x, d, 0, p + 5, 5);
    }
  }

  /** The counts are the same whatever follows. */
  lemma CountsMoved(x: seq<byte>, d: seq<byte>, p: nat, nlit: nat, ndist: nat, nclen: nat)
    requires d <= x && Counts(d, p, nlit, ndist, nclen)
    ensures Counts(x, p, nlit, ndist, nclen)
  {
    hide Num;
    NumMoved(x, d, 0, p, 5);
    NumMoved(x, d, 0, p + 5, 5);
    NumMoved(x, d, 0, p + 10, 4);
  }

  lemma NoCodesLengthCode(d: seq<byte>, p: nat, nlit: nat, ndist: nat, nclen: nat)
    requires Counts(d, p, nlit, ndist, nclen) && Has(d, p + 14, 3 * nclen) && !HasLengthCode(d, p, nclen)
    ensures NoCodes(d, p)
  {
    hide Num, DynamicCodes, ClenLens, Accepted;
    forall x | d <= x ensures DynamicCodes(x, p) == None {
      CountsMoved(x, d, p, nlit, ndist, nclen);
      ClenMoved(x, d, 0, p + 14, nclen);
      HeaderFails(x, p, Header(nlit, ndist, nclen));
    }
  }

  lemma NoCodesLens(d: seq<byte>, p: nat, h: Header, cl: seq<nat>)
    requires Counts(d, p, h.nlit, h.ndist, h.nclen) && HasLengthCode(d, p, h.nclen)
    requires cl == ClenLens(d, p + 14, h.nclen) && NoLens(d, p + 14 + 3 * h.nclen, cl, [], h.nlit + h.ndist)
    ensures NoCodes(d, p)
  {
    hide Num, DynamicCodes, ClenLens, Accepted, CodeLens;
    forall x | d <= x ensures DynamicCodes(x, p) == None {
      CountsMoved(x, d, p, h.nlit, h.ndist, h.nclen);
      ClenMoved(x, d, 0, p + 14, h.nclen);
      HeaderFails(x, p, h);
    }
  }

  lemma GivesNoCodes(d: seq<byte>, p: nat, h: Header, lens: seq<nat>, end: nat)
    requires Gives(d, p, h, lens, end)
    ensures !Accepted(lens[..h.nlit]) || !Accepted(lens[h.nlit..]) ==> NoCodes(d, p)
  {
    hide Num, DynamicCodes, ClenLens, Accepted, CodeLens;
    if !Accepted(lens[..h.nlit]) || !Accepted(lens[h.nlit..]) {
      forall x | d <= x ensures DynamicCodes(x, p) == None {
        CountsMoved(x, d, p, h.nlit, h.ndist, h.nclen);
        ClenMoved(x, d, 0, p + 14, h.nclen);
        CodeLensMoved(x, d, 0, p + 14 + 3 * h.nclen, ClenLens(d, p + 14, h.nclen), [], h.nlit + h.ndist);
        HeaderGives(x, p, h, lens, end);
      }
    }
  }
}
