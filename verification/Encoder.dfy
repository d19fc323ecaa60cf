/** The Huffman encoder: from frequencies to code lengths and codes, and what the decoder makes of
    them. */
module Encoder {
  import opened Bits
  import opened Canonical
  import opened PackageMerge
  import opened CodeLengths

  datatype HCode = HCode(code: nat, len: nat)

  // Reversed codes

  /** The n bits of a number reversed, with the 16-bit reversal there is. */
  function ReverseBits(number: nat, n: nat): nat
    requires n <= 16
  {
    Rev(number * Pow2(16 - n), 16)
  }

  lemma BitOfShift(x: nat, k: nat, i: nat)
    ensures BitOf(x * Pow2(k), i) == if i < k then 0 else BitOf(x, i - k)
  {
    if i < k {
      Pow2Add(i, k - i);
      var y := x * Pow2(k - i);
      assert x * Pow2(k) == y * Pow2(i) + 0 by {
        Regroup(x, Pow2(i), Pow2(k - i));
      }
      DivModUnique(x * Pow2(k), y, 0, Pow2(i));
      Regroup(x, 2, Pow2(k - i - 1));
      assert Pow2(k - i) == 2 * Pow2(k - i - 1);
      assert y == 2 * (x * Pow2(k - i - 1));
    } else {
      Pow2Add(k, i - k);
      DivTwice(x * Pow2(k), Pow2(k), Pow2(i - k));
      DivModUnique(x * Pow2(k), x, 0, Pow2(k));
    }
  }

  lemma Regroup(x: nat, a: nat, b: nat)
    ensures x * (a * b) == (x * b) * a
  {
  }

  lemma ReverseBitsIs(x: nat, n: nat)
    requires n <= 16 && x < Pow2(n)
    ensures ReverseBits(x, n) == Rev(x, n)
  {
    hide Pow2;
    var k := 16 - n;
    var y, z := ReverseBits(x, n), Rev(x, n);
    forall i: nat | i < 16 ensures BitOf(y, i) == BitOf(z, i) {
      RevBit(x * Pow2(k), 16, i);
      BitOfShift(x, k, 15 - i);
      if i < n {
        RevBit(x, n, i);
      } else {
        Pow2Mono(n, i);
        ModSmall(z, Pow2(i));
      }
    }
    SameBitsSameMod(y, z, 16);
    Pow2Mono(n, 16);
    ModSmall(y, Pow2(16));
    ModSmall(z, Pow2(16));
  }

  // Sorting

  predicate Before(a: LiteralNode, b: LiteralNode, byFreq: bool) {
    if byFreq && a.freq != b.freq then a.freq < b.freq else a.literal < b.literal
  }

  ghost predicate InOrder(s: seq<LiteralNode>, byFreq: bool) {
    forall i, j | 0 <= i < j < |s| :: !Before(s[j], s[i], byFreq)
  }

  function Insert(s: seq<LiteralNode>, x: LiteralNode, byFreq: bool): (r: seq<LiteralNode>)
    requires InOrder(s, byFreq)
    ensures InOrder(r, byFreq) && multiset(r) == multiset(s) + multiset{x}
  {
    if s == [] then [x]
    else if Before(x, s[|s| - 1], byFreq) then
      assert s == s[..|s| - 1] + [s[|s| - 1]];
      var r := Insert(s[..|s| - 1], x, byFreq);
      InsertLast(r, s[..|s| - 1], x, s[|s| - 1], byFreq);
      r + [s[|s| - 1]]
    else
      s + [x]
  }

  lemma InsertLast(r: seq<LiteralNode>, s: seq<LiteralNode>, x: LiteralNode, last: LiteralNode, byFreq: bool)
    requires multiset(r) == multiset(s) + multiset{x} && InOrder(s + [last], byFreq) && Before(x, last, byFreq)
    ensures forall i | 0 <= i < |r| :: !Before(last, r[i], byFreq)
  {
    forall i | 0 <= i < |r| ensures !Before(last, r[i], byFreq) {
      assert r[i] in multiset(r);
      if r[i] != x {
        assert r[i] in s;
        var j :| 0 <= j < |s| && s[j] == r[i];
        assert (s + [last])[j] == s[j] && (s + [last])[|s|] == last;
      }
    }
  }

  function Sort(s: seq<LiteralNode>, byFreq: bool): (r: seq<LiteralNode>)
    ensures InOrder(r, byFreq) && multiset(r) == multiset(s)
  {
    if s == [] then []
    else
      assert s == s[..|s| - 1] + [s[|s| - 1]];
      Insert(Sort(s[..|s| - 1], byFreq), s[|s| - 1], byFreq)
  }

  // Codes

  /** The value after the last code of n bits. */
  function EndOf(counts: seq<nat>, n: nat): nat
    requires n < |counts|
  {
    if n == 0 then 0 else 2 * EndOf(counts, n - 1) + counts[n]
  }

  /** The codes of n bits fit. */
  lemma {:induction false} EndOfKraft(counts: seq<nat>, n: nat, L: nat)
    requires n <= L < |counts|
    ensures EndOf(counts, n) * Pow2(L - n) == KraftCounts(counts, n, L)
  {
    if n > 0 {
      EndOfKraft(counts, n - 1, L);
      AddTimes(2 * EndOf(counts, n - 1), counts[n], Pow2(L - n));
      Rearrange(EndOf(counts, n - 1), Pow2(L - n));
    }
  }

  lemma {:induction false} KraftGrows(counts: seq<nat>, n: nat, L: nat)
    requires n <= L < |counts|
    ensures KraftCounts(counts, n, L) <= KraftCounts(counts, L, L)
    decreases L - n
  {
    if n < L {
      KraftGrows(counts, n + 1, L);
    }
  }

  lemma CodesFit(counts: seq<nat>, n: nat, L: nat)
    requires n <= L < |counts| && KraftCounts(counts, L, L) == Pow2(L)
    ensures EndOf(counts, n) <= Pow2(n)
  {
    EndOfKraft(counts, n, L);
    KraftGrows(counts, n, L);
    Pow2Add(n, L - n);
    CancelMul(EndOf(counts, n), Pow2(n), Pow2(L - n));
  }

  // Ranks among codes of the same length

  ghost predicate Increasing(c: seq<nat>) {
    forall i, j | 0 <= i < j < |c| :: c[i] < c[j]
  }

  /** c lists the symbols with codes of n bits in order. */
  ghost predicate Lists(l: seq<nat>, n: nat, c: seq<nat>) {
    && Increasing(c)
    && (forall i | 0 <= i < |c| :: c[i] < |l| && l[c[i]] == n)
    && (forall x | 0 <= x < |l| && l[x] == n :: x in c)
  }

  /** The number of n-bit codes below y is the number of listed symbols below y. */
  lemma {:induction false} RankBelow(l: seq<nat>, n: nat, c: seq<nat>, i: nat, y: nat)
    requires Lists(l, n, c) && i <= |c| && y <= |l|
    requires forall j | 0 <= j < i :: c[j] < y
    requires forall j | i <= j < |c| :: y <= c[j]
    ensures CountTo(l, y, n) == i
    decreases y
  {
    if y > 0 {
      if l[y - 1] == n {
        assert y - 1 in c;
        var k :| 0 <= k < |c| && c[k] == y - 1;
        assert k < i && c[i - 1] <= c[k];
        assert k == i - 1;
        assert forall j | 0 <= j < k :: c[j] < c[k];
        RankBelow(l, n, c, i - 1, y - 1);
      } else {
        RankBelow(l, n, c, i, y - 1);
      }
    }
  }

  /** The codes of n bits, given to the listed symbols in order. */
  ghost predicate Assigned(counts: seq<nat>, n: nat, c: seq<nat>, codes: seq<HCode>)
    requires 0 < n < |counts| && n <= 16
  {
    && |c| == counts[n] && Increasing(c)
    && forall i | 0 <= i < |c| ::
         c[i] < |codes| && codes[c[i]] == HCode(Rev(2 * EndOf(counts, n - 1) + i, n), n)
  }

  function Lens(codes: seq<HCode>): (l: seq<nat>)
    ensures |l| == |codes| && forall i | 0 <= i < |l| :: l[i] == codes[i].len
  {
    seq(|codes|, i requires 0 <= i < |codes| => codes[i].len)
  }

  /** The symbols of each length, by length. */
  ghost predicate Complete(counts: seq<nat>, L: nat, chunks: seq<seq<nat>>, codes: seq<HCode>) {
    && L < |counts| && L <= 16 && |chunks| == L + 1
    && (forall n | 1 <= n <= L :: Assigned(counts, n, chunks[n], codes))
    && (forall x | 0 <= x < |codes| && 0 < codes[x].len :: 1 <= codes[x].len <= L && x in chunks[codes[x].len])
  }

  lemma ChunkLists(counts: seq<nat>, L: nat, chunks: seq<seq<nat>>, codes: seq<HCode>, n: nat)
    requires Complete(counts, L, chunks, codes) && 1 <= n <= L
    ensures Lists(Lens(codes), n, chunks[n])
    ensures CountTo(Lens(codes), |codes|, n) == counts[n]
  {
    hide Rev;
    assert Assigned(counts, n, chunks[n], codes);
    RankBelow(Lens(codes), n, chunks[n], counts[n], |codes|);
  }

  lemma {:induction false} EndsAgree(counts: seq<nat>, L: nat, chunks: seq<seq<nat>>, codes: seq<HCode>, n: nat)
    requires Complete(counts, L, chunks, codes) && n <= L
    ensures End(Lens(codes), |codes|, n) == EndOf(counts, n)
  {
    hide Complete;
    if n > 0 {
      EndsAgree(counts, L, chunks, codes, n - 1);
      ChunkLists(counts, L, chunks, codes, n);
    }
  }

  /** Every symbol has got its canonical code, reversed. */
  lemma CodesAreCanonical(counts: seq<nat>, L: nat, chunks: seq<seq<nat>>, codes: seq<HCode>, x: nat)
    requires Complete(counts, L, chunks, codes) && x < |codes| && 0 < codes[x].len
    ensures codes[x].code == Rev(Code(Lens(codes), x), codes[x].len)
  {
    hide Rev, End, EndOf, Lists, CountTo;
    var n, l := codes[x].len, Lens(codes);
    ChunkLists(counts, L, chunks, codes, n);
    EndsAgree(counts, L, chunks, codes, n - 1);
    assert Assigned(counts, n, chunks[n], codes);
    var i :| 0 <= i < |chunks[n]| && chunks[n][i] == x;
    RankBelow(l, n, chunks[n], i, x);
  }

  // Lengths and codes

  /** The Kraft sum of the symbols is that of the counts. */
  lemma {:induction false} KraftOfCounts(l: seq<nat>, counts: seq<nat>, k: nat, L: nat)
    requires k <= L < |counts| && forall n | 1 <= n <= L :: CountTo(l, |l|, n) == counts[n]
    ensures End(l, |l|, k) == EndOf(counts, k)
  {
    if k > 0 {
      KraftOfCounts(l, counts, k - 1, L);
    }
  }

  lemma {:induction false} KraftScales(l: seq<nat>, i: nat, m: nat, L: nat)
    requires i <= |l| && m <= L && forall x | 0 <= x < i :: l[x] <= m
    ensures Kraft(l, i, L) == Kraft(l, i, m) * Pow2(L - m)
  {
    if i > 0 {
      KraftScales(l, i - 1, m, L);
      if 0 < l[i - 1] {
        Pow2Add(m - l[i - 1], L - m);
        AddTimes(Kraft(l, i - 1, m), Pow2(m - l[i - 1]), Pow2(L - m));
      }
    }
  }

  lemma CodeAccepted(l: seq<nat>, counts: seq<nat>, L: nat)
    requires 1 <= L < |counts| && KraftCounts(counts, L, L) == Pow2(L)
    requires forall x | 0 <= x < |l| :: l[x] <= L
    requires forall n | 1 <= n <= L :: CountTo(l, |l|, n) == counts[n]
    ensures Accepted(l)
  {
    hide Pow2, KraftCounts, EndOf, Kraft, End;
    var m := MaxLen(l, |l|);
    KraftOfCounts(l, counts, L, L);
    EndOfKraft(counts, L, L);
    EndIsKraft(l, |l|, L);
    assert Pow2(0) == 1 by { Pow2Values(); }
    KraftScales(l, |l|, m, L);
    Pow2Add(m, L - m);
    CancelMul(Kraft(l, |l|, m), Pow2(m), Pow2(L - m));
    CancelMul(Pow2(m), Kraft(l, |l|, m), Pow2(L - m));
  }

  // Generating a code

  function Literals(list: seq<LiteralNode>): (r: seq<nat>)
    ensures |r| == |list| && forall i | 0 <= i < |r| :: r[i] == list[i].literal
  {
    seq(|list|, i requires 0 <= i < |list| => list[i].literal)
  }

  ghost predicate Distinct(list: seq<LiteralNode>) {
    forall i, j | 0 <= i < j < |list| :: list[i].literal != list[j].literal
  }

  /** Gives the literals of a chunk consecutive codes of n bits. */
  method AssignChunk(codes: array<HCode>, chunk: seq<LiteralNode>, n: nat, code0: nat) returns (code: nat)
    requires 0 < n <= 15 && code0 + |chunk| <= Pow2(n) && Increasing(Literals(chunk))
    requires forall i | 0 <= i < |chunk| :: chunk[i].literal < codes.Length
    modifies codes
    ensures code == code0 + |chunk|
    ensures forall i | 0 <= i < |chunk| :: codes[chunk[i].literal] == HCode(Rev(code0 + i, n), n)
    ensures forall x | 0 <= x < codes.Length && x !in Literals(chunk) :: codes[x] == old(codes[x])
  {
    hide Rev, Pow2, ReverseBits;
    code := code0;
    ghost var lits := Literals(chunk);
    for i := 0 to |chunk|
      invariant code == code0 + i
      invariant forall j | 0 <= j < i :: codes[lits[j]] == HCode(Rev(code0 + j, n), n)
      invariant forall x | 0 <= x < codes.Length && x !in lits[..i] :: codes[x] == old(codes[x])
    {
      ReverseBitsIs(code, n);
      codes[chunk[i].literal] := HCode(ReverseBits(code, n), n);
      code := code + 1;
      assert lits[..i + 1] == lits[..i] + [lits[i]];
    }
    assert lits[..|chunk|] == lits;
  }

  /** Sorting by literal puts distinct literals in increasing order, and they are the same literals. */
  lemma SortedLiterals(chunk: seq<LiteralNode>)
    requires Distinct(chunk)
    ensures |Sort(chunk, false)| == |chunk| && Increasing(Literals(Sort(chunk, false)))
    ensures forall x :: x in Literals(Sort(chunk, false)) <==> x in Literals(chunk)
  {
    var r := Sort(chunk, false);
    assert |multiset(r)| == |r| && |multiset(chunk)| == |chunk|;
    DistinctSorted(chunk, r);
    forall x ensures x in Literals(r) <==> x in Literals(chunk) {
      SameLiterals(chunk, r, x);
      SameLiterals(r, chunk, x);
    }
    forall i, j | 0 <= i < j < |r| ensures Literals(r)[i] < Literals(r)[j] {
      assert !Before(r[j], r[i], false);
    }
  }

  lemma SameLiterals(s: seq<LiteralNode>, r: seq<LiteralNode>, x: nat)
    requires multiset(s) == multiset(r)
    ensures x in Literals(s) ==> x in Literals(r)
  {
    if x in Literals(s) {
      var i :| 0 <= i < |s| && Literals(s)[i] == x;
      assert s[i] in multiset(r);
      var j :| 0 <= j < |r| && r[j] == s[i];
      assert Literals(r)[j] == x;
    }
  }

  lemma DistinctSorted(s: seq<LiteralNode>, r: seq<LiteralNode>)
    requires multiset(s) == multiset(r) && Distinct(s)
    ensures Distinct(r)
  {
    forall i, j | 0 <= i < j < |r| && r[i].literal == r[j].literal ensures false {
      assert r[i] in multiset(s) && r[j] in multiset(s);
      var a :| 0 <= a < |s| && s[a] == r[i];
      var b :| 0 <= b < |s| && s[b] == r[j];
      assert a == b;
      TwiceIn(r, i, j);
      OnceIn(s, a);
    }
  }

  lemma TwiceIn(r: seq<LiteralNode>, i: nat, j: nat)
    requires i < j < |r| && r[i] == r[j]
    ensures multiset(r)[r[i]] >= 2
  {
    assert r == r[..j] + [r[j]] + r[j + 1..];
    assert r[i] in r[..j];
  }

  lemma OnceIn(s: seq<LiteralNode>, a: nat)
    requires a < |s| && Distinct(s)
    ensures multiset(s)[s[a]] == 1
  {
    assert s == s[..a] + [s[a]] + s[a + 1..];
    assert s[a] !in s[..a] && s[a] !in s[a + 1..];
  }

  /** The symbols in `tail` have got the codes of fewer than n bits. */
  ghost predicate Done(counts: seq<nat>, n: nat, chunks: seq<seq<nat>>, codes: seq<HCode>, tail: seq<nat>) {
    && n <= |counts| <= 16 && |chunks| == n
    && (forall m | 1 <= m < n :: Assigned(counts, m, chunks[m], codes))
    && (forall m, x | 1 <= m < n && x in chunks[m] :: x in tail)
    && (forall x | x in tail :: exists m | 1 <= m < n :: x in chunks[m])
  }

  lemma DoneMore(counts: seq<nat>, n: nat, chunks: seq<seq<nat>>, codes: seq<HCode>, tail: seq<nat>,
                 c: seq<nat>, codes': seq<HCode>, tail': seq<nat>)
    requires Done(counts, n, chunks, codes, tail) && 0 < n < |counts| && Assigned(counts, n, c, codes')
    requires |codes'| == |codes| && forall x | 0 <= x < |codes| && x !in c :: codes'[x] == codes[x]
    requires (forall x | x in tail :: x !in c) && (forall x :: x in tail' <==> x in tail || x in c)
    ensures Done(counts, n + 1, chunks + [c], codes', tail')
  {
    hide Rev, EndOf;
    var chunks' := chunks + [c];
    forall m | 1 <= m < n + 1 ensures Assigned(counts, m, chunks'[m], codes') {
      if m < n {
        assert Assigned(counts, m, chunks[m], codes);
        forall i | 0 <= i < |chunks[m]| ensures codes'[chunks[m][i]] == codes[chunks[m][i]] {
          assert chunks[m][i] in chunks[m];
        }
      }
    }
    forall x | x in tail' ensures exists m | 1 <= m < n + 1 :: x in chunks'[m] {
      if x in c {
        assert x in chunks'[n];
      } else {
        var m :| 1 <= m < n && x in chunks[m];
        assert x in chunks'[m];
      }
    }
  }

  /** The literals of a list are those of its end, of a piece before that, and of the rest. */
  lemma TailGrows(list: seq<LiteralNode>, k: nat, bits: nat)
    requires bits <= k <= |list|
    ensures forall x ::
              x in Literals(list[k - bits..]) <==> x in Literals(list[k..]) || x in Literals(list[k - bits..k])
  {
    var all := Literals(list[k - bits..]);
    assert all == Literals(list[k - bits..k]) + Literals(list[k..]);
  }

  lemma TailApart(list: seq<LiteralNode>, k: nat, bits: nat)
    requires bits <= k <= |list| && Distinct(list)
    ensures forall x | x in Literals(list[k..]) :: x !in Literals(list[k - bits..k])
    ensures Distinct(list[k - bits..k])
  {
  }

  /** From place k on, the symbols of a list have got the lengths the counts give them, the last ones the
      shortest. */
  ghost predicate RankLens(list: seq<LiteralNode>, counts: seq<nat>, n: nat, codes: seq<HCode>, k: nat) {
    && n <= |counts|
    && forall i | k <= i < |list| ::
         && list[i].literal < |codes|
         && var b := codes[list[i].literal].len;
            && 1 <= b < n && |list| - CountSum(counts, b) <= i < |list| - CountSum(counts, b - 1)
  }

  lemma RankMore(list: seq<LiteralNode>, counts: seq<nat>, n: nat, codes: seq<HCode>, k: nat, codes': seq<HCode>,
                 c: seq<nat>)
    requires RankLens(list, counts, n, codes, k) && 1 <= n < |counts| && Distinct(list) && |codes'| == |codes|
    requires counts[n] <= k <= |list| && k + CountSum(counts, n - 1) == |list|
    requires forall i | 0 <= i < |list| :: list[i].literal < |codes|
    requires forall x :: x in c <==> x in Literals(list[k - counts[n]..k])
    requires (forall x | x in c :: x < |codes| && codes'[x].len == n)
    requires forall x | 0 <= x < |codes| && x !in c :: codes'[x] == codes[x]
    ensures RankLens(list, counts, n + 1, codes', k - counts[n])
  {
    hide CountSum;
    CountStep(counts, n);
    TailApart(list, k, counts[n]);
    forall i | k - counts[n] <= i < |list|
      ensures if i < k then list[i].literal in c else list[i].literal !in c
    {
      if i < k {
        assert Literals(list[k - counts[n]..k])[i - (k - counts[n])] == list[i].literal;
      } else {
        assert Literals(list[k..])[i - k] == list[i].literal;
      }
    }
  }

  lemma CountStep(counts: seq<nat>, n: nat)
    requires 1 <= n < |counts|
    ensures CountSum(counts, n) == CountSum(counts, n - 1) + counts[n]
  {
  }

  /** Gives the symbols of a list their codes, the last ones the shortest. */
  method AssignEncodingAndSize(codes: array<HCode>, bitCount: seq<nat>, L: nat, list: seq<LiteralNode>)
    returns (ghost chunks: seq<seq<nat>>)
    requires 1 <= L <= 15 && |bitCount| == L + 1 && bitCount[0] == 0
    requires CountSum(bitCount, L) == |list| && KraftCounts(bitCount, L, L) == Pow2(L)
    requires Distinct(list) && forall i | 0 <= i < |list| :: list[i].literal < codes.Length
    modifies codes
    ensures Done(bitCount, L + 1, chunks, codes[..], Literals(list))
    ensures RankLens(list, bitCount, L + 1, codes[..], 0)
    ensures forall x | 0 <= x < codes.Length && x !in Literals(list) :: codes[x] == old(codes[x])
  {
    hide Done, KraftCounts, Pow2, Rev, Sort, RankLens;
    var code := 0;
    var k := |list|;
    chunks := [[]];
    var n := 1;
    assert list[k..] == [];
    DoneNone(bitCount, codes[..]);
    RankNone(list, bitCount, codes[..]);
    while n <= L
      invariant 1 <= n <= L + 1 && code == EndOf(bitCount, n - 1)
      invariant 0 <= k <= |list| && k + CountSum(bitCount, n - 1) == |list|
      invariant Done(bitCount, n, chunks, codes[..], Literals(list[k..]))
      invariant RankLens(list, bitCount, n, codes[..], k)
      invariant forall x | 0 <= x < codes.Length && x !in Literals(list[k..]) :: codes[x] == old(codes[x])
    {
      code := 2 * code;
      var bits := bitCount[n];
      CountMonotone(bitCount, n, L);
      CountStep(bitCount, n);
      CodesFit(bitCount, n, L);
      TailGrows(list, k, bits);
      TailApart(list, k, bits);
      ghost var before := codes[..];
      var chunk := Sort(list[k - bits..k], false);
      SortedLiterals(list[k - bits..k]);
      SortedBelow(list[k - bits..k], codes.Length, false);
      code := AssignChunk(codes, chunk, n, code);
      ghost var c := Literals(chunk);
      ChunkAssigned(bitCount, n, chunk, codes[..]);
      DoneMore(bitCount, n, chunks, before, Literals(list[k..]), c, codes[..], Literals(list[k - bits..]));
      ChunkLens(bitCount, n, c, codes[..]);
      RankMore(list, bitCount, n, before, k, codes[..], c);
      chunks := chunks + [Literals(chunk)];
      k := k - bits;
      n := n + 1;
    }
    assert k == 0 && list[0..] == list;
  }

  lemma ChunkAssigned(counts: seq<nat>, n: nat, chunk: seq<LiteralNode>, codes: seq<HCode>)
    requires 0 < n < |counts| <= 16 && |chunk| == counts[n] && Increasing(Literals(chunk))
    requires forall i | 0 <= i < |chunk| ::
               chunk[i].literal < |codes| && codes[chunk[i].literal] == HCode(Rev(2 * EndOf(counts, n - 1) + i, n), n)
    ensures Assigned(counts, n, Literals(chunk), codes)
  {
    hide Rev, EndOf;
  }

  lemma ChunkLens(counts: seq<nat>, n: nat, c: seq<nat>, codes: seq<HCode>)
    requires 0 < n < |counts| <= 16 && Assigned(counts, n, c, codes)
    ensures forall x | x in c :: x < |codes| && codes[x].len == n
  {
    hide Rev, EndOf;
  }

  lemma RankNone(list: seq<LiteralNode>, counts: seq<nat>, codes: seq<HCode>)
    requires 1 <= |counts|
    ensures RankLens(list, counts, 1, codes, |list|)
  {
  }

  lemma DoneNone(counts: seq<nat>, codes: seq<HCode>)
    requires 1 <= |counts| <= 16
    ensures Done(counts, 1, [[]], codes, [])
  {
  }

  lemma SortedBelow(s: seq<LiteralNode>, m: nat, byFreq: bool)
    requires forall i | 0 <= i < |s| :: s[i].literal < m
    ensures forall i | 0 <= i < |Sort(s, byFreq)| :: Sort(s, byFreq)[i].literal < m
  {
    var r := Sort(s, byFreq);
    forall i | 0 <= i < |r| ensures r[i].literal < m {
      assert r[i] in multiset(s);
    }
  }

  // The whole construction

  /** The symbols that occur, among the first k. */
  function Occurring(freq: seq<nat>, k: nat): (r: seq<LiteralNode>)
    requires k <= |freq|
    ensures OccurringIs(freq, k, r)
  {
    if k == 0 then []
    else
      var r := Occurring(freq, k - 1);
      OccurringStep(freq, k, r);
      if 0 < freq[k - 1] then r + [LiteralNode(k - 1, freq[k - 1])] else r
  }

  /** They are listed in order, with their frequencies. */
  ghost predicate OccurringIs(freq: seq<nat>, k: nat, r: seq<LiteralNode>)
    requires k <= |freq|
  {
    && |r| <= k
    && (forall i | 0 <= i < |r| :: r[i].literal < k && r[i].freq == freq[r[i].literal] > 0)
    && (forall i, j | 0 <= i < j < |r| :: r[i].literal < r[j].literal)
    && (forall x {:trigger x in Literals(r)} | 0 <= x < k && 0 < freq[x] :: x in Literals(r))
  }

  lemma OccurringStep(freq: seq<nat>, k: nat, r: seq<LiteralNode>)
    requires 0 < k <= |freq| && OccurringIs(freq, k - 1, r)
    ensures OccurringIs(freq, k, if 0 < freq[k - 1] then r + [LiteralNode(k - 1, freq[k - 1])] else r)
  {
    if 0 < freq[k - 1] {
      OccurringMore(freq, k, r, r + [LiteralNode(k - 1, freq[k - 1])]);
    }
  }

  lemma OccurringMore(freq: seq<nat>, k: nat, r: seq<LiteralNode>, r': seq<LiteralNode>)
    requires 0 < k <= |freq| && OccurringIs(freq, k - 1, r) && 0 < freq[k - 1]
    requires r' == r + [LiteralNode(k - 1, freq[k - 1])]
    ensures OccurringIs(freq, k, r')
  {
    hide Literals;
    LiteralsSnoc(r, r'[|r|]);
    var l, l' := Literals(r), Literals(r');
    forall x | 0 <= x < k && 0 < freq[x] ensures x in l' {
      if x < k - 1 {
        assert x in l;
      }
    }
  }

  lemma LiteralsSnoc(r: seq<LiteralNode>, x: LiteralNode)
    ensures Literals(r + [x]) == Literals(r) + [x.literal]
  {
  }

  lemma SumStep(f: seq<nat>, i: nat)
    requires i < |f|
    ensures Sum(f, i + 1) == Sum(f, i) + f[i]
  {
  }

  lemma SumEmpty(f: seq<nat>, list: seq<LiteralNode>)
    ensures Sum(f, 0) == 0 == Sum(Freqs(list), 0)
  {
  }

  lemma SumSnoc(r: seq<LiteralNode>, x: LiteralNode)
    ensures Sum(Freqs(r + [x]), |r| + 1) == Sum(Freqs(r), |r|) + x.freq
  {
    SumPrefix(Freqs(r), Freqs(r + [x]), |r|);
  }

  /** What a code for symbols with these frequencies must be like: a code word for every symbol that
      occurs and no other, in the canonical order, and such that the decoder takes it. */
  ghost predicate CodeFor(freq: seq<nat>, codes: seq<HCode>) {
    && |codes| == |freq| && Accepted(Lens(codes))
    && forall x | 0 <= x < |freq| ::
         && (0 < codes[x].len <==> 0 < freq[x])
         && (0 < freq[x] ==> codes[x].code == Rev(Code(Lens(codes), x), codes[x].len))
  }

  // What a code costs

  function SumBy(list: seq<LiteralNode>, g: LiteralNode -> nat): nat {
    if list == [] then 0 else SumBy(list[..|list| - 1], g) + g(list[|list| - 1])
  }

  lemma {:induction false} SumByRemove(r: seq<LiteralNode>, j: nat, g: LiteralNode -> nat)
    requires j < |r|
    ensures SumBy(r, g) == SumBy(r[..j] + r[j + 1..], g) + g(r[j])
  {
    var t, last := r[..|r| - 1], r[|r| - 1];
    if j == |r| - 1 {
      assert r[..j] + r[j + 1..] == t;
    } else {
      SumByRemove(t, j, g);
      var u := r[..j] + r[j + 1..];
      assert u[..|u| - 1] == t[..j] + t[j + 1..] && u[|u| - 1] == last;
    }
  }

  /** The last element of a list in the same list in another order; what is left is the same as well. */
  lemma FindLast(s: seq<LiteralNode>, r: seq<LiteralNode>) returns (j: nat)
    requires multiset(s) == multiset(r) && s != []
    ensures j < |r| && r[j] == s[|s| - 1]
    ensures multiset(r[..j] + r[j + 1..]) == multiset(s[..|s| - 1])
  {
    var t, x := s[..|s| - 1], s[|s| - 1];
    assert s == t + [x];
    assert x in multiset(r);
    j :| 0 <= j < |r| && r[j] == x;
    WithoutOne(r, j);
    WithoutOne(s, |s| - 1);
    assert t + s[|s|..] == t;
  }

  lemma WithoutOne(r: seq<LiteralNode>, j: nat)
    requires j < |r|
    ensures multiset(r[..j] + r[j + 1..]) == multiset(r) - multiset{r[j]}
  {
    var a, b := r[..j], r[j + 1..];
    assert r == a + [r[j]] + b;
    assert multiset(r) == multiset(a) + multiset{r[j]} + multiset(b);
  }

  lemma NoneLeft(r: seq<LiteralNode>)
    requires multiset(r) == multiset{}
    ensures r == []
  {
    assert |multiset(r)| == |r|;
  }

  /** The order of a list does not matter. */
  lemma {:induction false} SumBySame(s: seq<LiteralNode>, r: seq<LiteralNode>, g: LiteralNode -> nat)
    requires multiset(s) == multiset(r)
    ensures SumBy(s, g) == SumBy(r, g)
    decreases |s|
  {
    if s == [] {
      NoneLeft(r);
    } else {
      var j := FindLast(s, r);
      SumByRemove(r, j, g);
      SumBySame(s[..|s| - 1], r[..j] + r[j + 1..], g);
    }
  }

  /** The bits of a symbol in all, with codes of m bits. */
  function WeightIn(m: seq<nat>): LiteralNode -> nat {
    (x: LiteralNode) => if x.literal < |m| then x.freq * m[x.literal] else 0
  }

  /** The share of a symbol in the Kraft sum. */
  function ShareIn(m: seq<nat>, M: nat): LiteralNode -> nat {
    (x: LiteralNode) => if x.literal < |m| && 0 < m[x.literal] <= M then Pow2(M - m[x.literal]) else 0
  }

  /** The lengths of the symbols of a list. */
  function Pick(list: seq<LiteralNode>, m: seq<nat>): (l: seq<nat>)
    requires forall i | 0 <= i < |list| :: list[i].literal < |m|
    ensures |l| == |list| && forall i | 0 <= i < |l| :: l[i] == m[list[i].literal]
  {
    seq(|list|, i requires 0 <= i < |list| => m[list[i].literal])
  }

  lemma {:induction false} PickTotal(list: seq<LiteralNode>, m: seq<nat>, M: nat, i: nat)
    requires i <= |list| && forall j | 0 <= j < |list| :: list[j].literal < |m|
    ensures Total(Freqs(list), Pick(list, m), i) == SumBy(list[..i], WeightIn(m))
    ensures Kraft(Pick(list, m), i, M) == SumBy(list[..i], ShareIn(m, M))
  {
    hide Pow2;
    if i > 0 {
      PickTotal(list, m, M, i - 1);
      assert list[..i][..i - 1] == list[..i - 1];
    }
  }

  lemma {:induction false} OccurringTotal(freq: seq<nat>, m: seq<nat>, M: nat, k: nat)
    requires k <= |freq| == |m|
    ensures SumBy(Occurring(freq, k), WeightIn(m)) == Total(freq, m, k)
    ensures SumBy(Occurring(freq, k), ShareIn(m, M)) <= Kraft(m, k, M)
  {
    hide Pow2, OccurringIs;
    if k > 0 {
      OccurringTotal(freq, m, M, k - 1);
      var r := Occurring(freq, k - 1);
      if 0 < freq[k - 1] {
        var x := LiteralNode(k - 1, freq[k - 1]);
        assert (r + [x])[..|r|] == r;
      }
    }
  }

  /** Codes with at least t bits are those of the first symbols of the list. */
  lemma {:induction false} AboveFirst(f: seq<nat>, l: seq<nat>, i: nat, t: nat, m: nat)
    requires i <= |f| == |l| && m <= |f| && forall j | 0 <= j < |l| :: t <= l[j] <==> j < m
    ensures Above(f, l, i, t) == Sum(f, if i < m then i else m)
  {
    if i > 0 {
      AboveFirst(f, l, i - 1, t, m);
    }
  }

  lemma {:induction false} CountMonotone(counts: seq<nat>, a: nat, b: nat)
    requires a <= b < |counts|
    ensures CountSum(counts, a) <= CountSum(counts, b)
    decreases b
  {
    if a < b {
      CountMonotone(counts, a, b - 1);
    }
  }

  /** With lengths by rank, a code costs what its counts say. */
  lemma {:induction false} RankCost(list: seq<LiteralNode>, counts: seq<nat>, codes: seq<HCode>, L: nat, k: nat)
    requires |counts| == L + 1 && k <= L && CountSum(counts, L) == |list| && RankLens(list, counts, L + 1, codes, 0)
    ensures CountSum(counts, k) <= |list|
    ensures var f, l := Freqs(list), Pick(list, Lens(codes));
            BitsTotal(f, l, |l|, L, L) == BitsTotal(f, l, |l|, L, L - k) + CodeCost(f, counts, k)
  {
    hide BitsTotal, CountSum;
    CountMonotone(counts, k, L);
    if k > 0 {
      RankCost(list, counts, codes, L, k - 1);
      var f, l, m := Freqs(list), Pick(list, Lens(codes)), |list| - CountSum(counts, k - 1);
      BitsStep(f, l, |l|, L, L - k);
      forall j | 0 <= j < |l| ensures k <= l[j] <==> j < m {
        RankAbove(list, counts, codes, L, k, j);
      }
      AboveFirst(f, l, |l|, k, m);
    }
  }

  lemma RankAbove(list: seq<LiteralNode>, counts: seq<nat>, codes: seq<HCode>, L: nat, t: nat, j: nat)
    requires |counts| == L + 1 && 1 <= t <= L && RankLens(list, counts, L + 1, codes, 0) && j < |list|
    ensures list[j].literal < |codes|
    ensures t <= codes[list[j].literal].len <==> j < |list| - CountSum(counts, t - 1)
  {
    hide CountSum;
    var b := codes[list[j].literal].len;
    if t <= b {
      CountMonotone(counts, t - 1, b - 1);
    } else {
      CountMonotone(counts, b, t - 1);
    }
  }

  /** What it costs to write all symbols. */
  method BitLength(codes: seq<HCode>, freq: seq<nat>) returns (total: nat)
    requires |codes| == |freq|
    ensures total == Total(freq, Lens(codes), |freq|)
  {
    total := 0;
    for i := 0 to |freq|
      invariant total == Total(freq, Lens(codes), i)
    {
      if freq[i] != 0 {
        total := total + freq[i] * codes[i].len;
      }
    }
  }

  /** No code with lengths in 1 to maxBits bits, for the symbols that occur, costs less than these. */
  ghost predicate Least(freq: seq<nat>, codes: seq<HCode>, maxBits: nat)
    requires |codes| == |freq|
  {
    forall m: seq<nat> |
      && |m| == |freq| && (forall x | 0 <= x < |freq| && 0 < freq[x] :: 1 <= m[x] <= maxBits)
      && Kraft(m, |m|, maxBits) <= Pow2(maxBits) ::
      Total(freq, Lens(codes), |freq|) <= Total(freq, m, |freq|)
  }

  /** The lengths of any other code, by rank. */
  lemma OtherCode(freq: seq<nat>, sorted: seq<LiteralNode>, m: seq<nat>, M: nat)
    requires |m| == |freq| && multiset(sorted) == multiset(Occurring(freq, |freq|))
    requires forall i | 0 <= i < |sorted| :: sorted[i].literal < |m|
    ensures Total(Freqs(sorted), Pick(sorted, m), |sorted|) == Total(freq, m, |freq|)
    ensures Kraft(Pick(sorted, m), |sorted|, M) <= Kraft(m, |m|, M)
  {
    hide Total, Kraft, Occurring, SumBy, WeightIn, ShareIn;
    var list := Occurring(freq, |freq|);
    PickTotal(sorted, m, M, |sorted|);
    assert sorted[..|sorted|] == sorted;
    SumBySame(sorted, list, WeightIn(m));
    SumBySame(sorted, list, ShareIn(m, M));
    OccurringTotal(freq, m, M, |freq|);
  }

  lemma LeastOfRanks(freq: seq<nat>, codes: seq<HCode>, sorted: seq<LiteralNode>, counts: seq<nat>, L: nat,
                     maxBits: nat)
    requires |codes| == |freq| && multiset(sorted) == multiset(Occurring(freq, |freq|)) && |counts| == L + 1
    requires CountSum(counts, L) == |sorted| && RankLens(sorted, counts, L + 1, codes, 0)
    requires forall i | 0 <= i < |sorted| :: sorted[i].literal < |freq| && 0 < freq[sorted[i].literal]
    requires forall l: seq<nat> |
               && |l| == |sorted| && (forall i | 0 <= i < |l| :: 1 <= l[i] <= maxBits)
               && Kraft(l, |l|, maxBits) <= Pow2(maxBits) ::
               CodeCost(Freqs(sorted), counts, L) <= Total(Freqs(sorted), l, |l|)
    ensures Least(freq, codes, maxBits)
  {
    hide Total, Kraft, Occurring, CountSum, CodeCost, BitsTotal;
    var l := Pick(sorted, Lens(codes));
    RankCost(sorted, counts, codes, L, L);
    RankShort(sorted, counts, codes, L);
    BitsNone(Freqs(sorted), l, |l|, L);
    OtherCode(freq, sorted, Lens(codes), maxBits);
    forall m: seq<nat> |
      && |m| == |freq| && (forall x | 0 <= x < |freq| && 0 < freq[x] :: 1 <= m[x] <= maxBits)
      && Kraft(m, |m|, maxBits) <= Pow2(maxBits)
      ensures Total(freq, Lens(codes), |freq|) <= Total(freq, m, |freq|)
    {
      OtherCode(freq, sorted, m, maxBits);
      assert |Pick(sorted, m)| == |sorted|;
    }
  }

  lemma RankShort(list: seq<LiteralNode>, counts: seq<nat>, codes: seq<HCode>, L: nat)
    requires RankLens(list, counts, L + 1, codes, 0)
    ensures forall i | 0 <= i < |list| :: list[i].literal < |codes| && codes[list[i].literal].len <= L
  {
    hide CountSum;
  }

  /** With one bit for each symbol, no code costs less. */
  lemma {:induction false} OneBitLeast(freq: seq<nat>, l: seq<nat>, m: seq<nat>, i: nat)
    requires i <= |freq| == |l| == |m|
    requires forall x | 0 <= x < |freq| && 0 < freq[x] :: l[x] == 1 <= m[x]
    ensures Total(freq, l, i) <= Total(freq, m, i)
  {
    if i > 0 {
      OneBitLeast(freq, l, m, i - 1);
      MulMono(freq[i - 1], if freq[i - 1] == 0 then 0 else l[i - 1], m[i - 1]);
    }
  }

  /** No symbol has a longer code than one that occurs less often. */
  ghost predicate Falling(freq: seq<nat>, codes: seq<HCode>)
    requires |codes| == |freq|
  {
    forall x, y | 0 <= x < |freq| && 0 <= y < |freq| && 0 < freq[x] < freq[y] :: codes[y].len <= codes[x].len
  }

  lemma RanksFall(freq: seq<nat>, codes: seq<HCode>, sorted: seq<LiteralNode>, counts: seq<nat>, L: nat)
    requires |codes| == |freq| && |counts| == L + 1 && RankLens(sorted, counts, L + 1, codes, 0) && Ranked(sorted)
    requires forall i | 0 <= i < |sorted| ::
               sorted[i].literal < |freq| && sorted[i].freq == freq[sorted[i].literal]
    requires forall x | 0 <= x < |freq| && 0 < freq[x] :: x in Literals(sorted)
    ensures Falling(freq, codes)
  {
    hide CountSum;
    forall x, y | 0 <= x < |freq| && 0 <= y < |freq| && 0 < freq[x] < freq[y]
      ensures codes[y].len <= codes[x].len
    {
      assert x in Literals(sorted) && y in Literals(sorted);
      var i :| 0 <= i < |sorted| && Literals(sorted)[i] == x;
      var j :| 0 <= j < |sorted| && Literals(sorted)[j] == y;
      assert sorted[i].freq < sorted[j].freq;
      var a, b := codes[x].len, codes[y].len;
      if a < b {
        CountMonotone(counts, a, b - 1);
      }
    }
  }

  /** Makes the code for the given frequencies, with at most maxBits bits. No other code costs less. */
  method Generate(codes: array<HCode>, freq: seq<nat>, maxBits: nat)
    requires codes.Length == |freq| && maxBits < MAX_BITS_LIMIT
    requires var n := |Occurring(freq, |freq|)|;
             2 < n ==> n <= Pow2(maxBits) && TopLevel(n, maxBits) * Sum(freq, |freq|) < MAX_INT32
    modifies codes
    ensures CodeFor(freq, codes[..]) && Least(freq, codes[..], maxBits) && Falling(freq, codes[..])
    ensures forall x | 0 <= x < codes.Length ::
              codes[x].len <= if |Occurring(freq, |freq|)| <= 2 then 1 else maxBits
  {
    hide CodeFor, Least, Falling, Occurring, Pow2, Sum, Freqs;
    var list := Collect(codes, freq);
    if |list| <= 2 {
      AssignBits(codes, freq, list, maxBits);
    } else {
      AssignLengths(codes, freq, maxBits, list);
    }
  }

  /** With at most two symbols, each gets a code of one bit. */
  method AssignBits(codes: array<HCode>, ghost freq: seq<nat>, list: seq<LiteralNode>, ghost maxBits: nat)
    requires codes.Length == |freq| && OccurringIs(freq, |freq|, list) && |list| <= 2
    requires forall x | 0 <= x < |freq| && freq[x] == 0 :: codes[x].len == 0
    modifies codes
    ensures CodeFor(freq, codes[..]) && Least(freq, codes[..], maxBits) && Falling(freq, codes[..])
    ensures forall x | 0 <= x < codes.Length :: codes[x].len <= 1
  {
    hide CodeFor, Least, Falling;
    for i := 0 to |list|
      invariant forall j | 0 <= j < i :: codes[list[j].literal] == HCode(j, 1)
      invariant forall x | 0 <= x < |freq| && freq[x] == 0 :: codes[x].len == 0
    {
      codes[list[i].literal] := HCode(i, 1);
    }
    FewCodes(freq, codes[..], list);
    FewLeast(freq, codes[..], maxBits);
  }

  lemma FewLeast(freq: seq<nat>, codes: seq<HCode>, maxBits: nat)
    requires CodeFor(freq, codes) && forall x | 0 <= x < |codes| :: codes[x].len <= 1
    ensures Least(freq, codes, maxBits) && Falling(freq, codes)
  {
    hide Accepted, Kraft, Total, Rev, Code;
    forall m: seq<nat> |
      && |m| == |freq| && (forall x | 0 <= x < |freq| && 0 < freq[x] :: 1 <= m[x] <= maxBits)
      && Kraft(m, |m|, maxBits) <= Pow2(maxBits)
      ensures Total(freq, Lens(codes), |freq|) <= Total(freq, m, |freq|)
    {
      OneBitLeast(freq, Lens(codes), m, |freq|);
    }
  }

  /** With more, the lengths come from the frequencies, and the codes from the lengths. */
  method AssignLengths(codes: array<HCode>, ghost freq: seq<nat>, maxBits: nat, list: seq<LiteralNode>)
    requires codes.Length == |freq| && list == Occurring(freq, |freq|) && 3 <= |list| <= Pow2(maxBits)
    requires maxBits < MAX_BITS_LIMIT && TopLevel(|list|, maxBits) * Sum(Freqs(list), |list|) < MAX_INT32
    requires forall x | 0 <= x < |freq| && freq[x] == 0 :: codes[x].len == 0
    modifies codes
    ensures CodeFor(freq, codes[..]) && Least(freq, codes[..], maxBits) && Falling(freq, codes[..])
    ensures forall x | 0 <= x < codes.Length :: codes[x].len <= maxBits
  {
    hide Pow2, Sum, CodeFor, Freqs, Sort, KraftCounts, CountSum, TopLevel, Done, Ranked, Distinct, Least, RankLens;
    hide Falling;
    hide Occurring, Kraft, Total, CodeCost;
    var sorted := Sort(list, true);
    SortedRanked(list, sorted);
    SortedBelow(list, codes.Length, true);
    TopLevelFits(|list|, maxBits);
    var bitCount := BitCounts(sorted, maxBits);
    var L := |bitCount| - 1;
    ghost var chunks := AssignEncodingAndSize(codes, bitCount, L, sorted);
    ManyCodes(freq, codes[..], list, sorted, bitCount, L, chunks);
    SortedOccur(freq, list, sorted);
    LeastOfRanks(freq, codes[..], sorted, bitCount, L, maxBits);
    RanksFall(freq, codes[..], sorted, bitCount, L);
  }

  lemma SortedOccur(freq: seq<nat>, list: seq<LiteralNode>, sorted: seq<LiteralNode>)
    requires list == Occurring(freq, |freq|) && multiset(sorted) == multiset(list)
    ensures forall i | 0 <= i < |sorted| ::
              sorted[i].literal < |freq| && 0 < freq[sorted[i].literal] == sorted[i].freq
    ensures forall x | 0 <= x < |freq| && 0 < freq[x] :: x in Literals(sorted)
  {
    hide Occurring;
    forall i | 0 <= i < |sorted|
      ensures sorted[i].literal < |freq| && 0 < freq[sorted[i].literal] == sorted[i].freq
    {
      assert sorted[i] in multiset(list);
    }
    forall x | 0 <= x < |freq| && 0 < freq[x] ensures x in Literals(sorted) {
      assert x in Literals(list);
      SameLiterals(list, sorted, x);
    }
  }

  /** Lists the symbols that occur, and clears the lengths of the others. */
  method Collect(codes: array<HCode>, freq: seq<nat>) returns (list: seq<LiteralNode>)
    requires codes.Length == |freq|
    modifies codes
    ensures list == Occurring(freq, |freq|) && Sum(Freqs(list), |list|) == Sum(freq, |freq|)
    ensures forall x | 0 <= x < |freq| && freq[x] == 0 :: codes[x].len == 0
  {
    hide OccurringIs, Freqs, Sum;
    list := [];
    SumEmpty(freq, list);
    for i := 0 to |freq|
      invariant list == Occurring(freq, i) && Sum(Freqs(list), |list|) == Sum(freq, i)
      invariant forall x | 0 <= x < i && freq[x] == 0 :: codes[x].len == 0
    {
      SumStep(freq, i);
      if freq[i] != 0 {
        SumSnoc(list, LiteralNode(i, freq[i]));
        list := list + [LiteralNode(i, freq[i])];
      } else {
        codes[i] := codes[i].(len := 0);
      }
    }
  }

  /** At most two codes of one bit. */
  lemma FewCodes(freq: seq<nat>, codes: seq<HCode>, list: seq<LiteralNode>)
    requires |codes| == |freq| && OccurringIs(freq, |freq|, list) && |list| <= 2
    requires forall j | 0 <= j < |list| :: codes[list[j].literal] == HCode(j, 1)
    requires forall x | 0 <= x < |freq| && freq[x] == 0 :: codes[x].len == 0
    ensures CodeFor(freq, codes) && forall x | 0 <= x < |codes| :: codes[x].len <= 1
  {
    hide Kraft, Accepted, Rev, Code, CountTo;
    var l, c := Lens(codes), Literals(list);
    forall x | 0 <= x < |l| ensures if 0 < freq[x] then x in c && l[x] == 1 else l[x] == 0 {
      if 0 < freq[x] {
        assert x in c;
      }
    }
    assert Lists(l, 1, c);
    OneBitCode(l, c);
    forall x | 0 <= x < |freq| && 0 < freq[x] ensures codes[x].code == Rev(Code(l, x), 1) {
      assert x in c;
      var j :| 0 <= j < |c| && c[j] == x;
      OneBit(j);
    }
  }

  lemma OneBitCode(l: seq<nat>, c: seq<nat>)
    requires Lists(l, 1, c) && |c| <= 2 && forall x | 0 <= x < |l| :: l[x] <= 1
    ensures Accepted(l) && forall j | 0 <= j < |c| :: Code(l, c[j]) == j
  {
    hide Kraft;
    RankBelow(l, 1, c, |c|, |l|);
    EndIsKraft(l, |l|, 1);
    assert End(l, |l|, 1) == 2 * End(l, |l|, 0) + |c|;
    assert Pow2(1) == 2 * Pow2(0) && Pow2(0) == 1;
    if |c| > 0 {
      assert l[c[0]] == 1;
    }
    forall j | 0 <= j < |c| ensures Code(l, c[j]) == j {
      RankBelow(l, 1, c, j, c[j]);
    }
  }

  lemma OneBit(j: nat)
    requires j < 2
    ensures Rev(j, 1) == j
  {
    assert Rev(j, 0) == 0 && Pow2(0) == 1;
    assert j / 1 == j;
  }

  lemma {:induction false} FreqsSum(s: seq<LiteralNode>, i: nat)
    requires i <= |s|
    ensures Sum(Freqs(s), i) == SumBy(s[..i], Freq)
  {
    if i > 0 {
      FreqsSum(s, i - 1);
      assert s[..i][..i - 1] == s[..i - 1];
    }
  }

  function Freq(x: LiteralNode): nat {
    x.freq
  }

  lemma SameLength(s: seq<LiteralNode>, r: seq<LiteralNode>)
    requires multiset(s) == multiset(r)
    ensures |s| == |r|
  {
    assert |multiset(s)| == |s| && |multiset(r)| == |r|;
  }

  lemma SortedRanked(list: seq<LiteralNode>, sorted: seq<LiteralNode>)
    requires sorted == Sort(list, true) && forall i | 0 <= i < |list| :: 0 < list[i].freq
    requires forall i, j | 0 <= i < j < |list| :: list[i].literal < list[j].literal
    ensures |sorted| == |list| && Ranked(sorted) && Distinct(sorted)
    ensures Sum(Freqs(sorted), |sorted|) == Sum(Freqs(list), |list|)
    ensures forall x :: x in Literals(sorted) <==> x in Literals(list)
  {
    hide Sum, Freqs, Sort, SumBy;
    SameLength(list, sorted);
    SumBySame(list, sorted, Freq);
    FreqsSum(list, |list|);
    FreqsSum(sorted, |sorted|);
    assert list[..|list|] == list && sorted[..|sorted|] == sorted;
    DistinctSorted(list, sorted);
    forall x ensures x in Literals(sorted) <==> x in Literals(list) {
      SameLiterals(list, sorted, x);
      SameLiterals(sorted, list, x);
    }
    forall i | 0 <= i < |sorted| ensures 0 < sorted[i].freq {
      assert sorted[i] in multiset(list);
    }
    forall i, j | 0 <= i <= j < |sorted| ensures sorted[i].freq <= sorted[j].freq {
      assert i < j ==> !Before(sorted[j], sorted[i], true);
    }
  }

  lemma ManyCodes(freq: seq<nat>, codes: seq<HCode>, list: seq<LiteralNode>, sorted: seq<LiteralNode>, counts: seq<nat>,
                  L: nat, chunks: seq<seq<nat>>)
    requires |codes| == |freq| && OccurringIs(freq, |freq|, list) && 1 <= L <= 15 && |counts| == L + 1
    requires KraftCounts(counts, L, L) == Pow2(L) && Done(counts, L + 1, chunks, codes, Literals(sorted))
    requires forall x :: x in Literals(sorted) <==> x in Literals(list)
    requires forall x | 0 <= x < |freq| && freq[x] == 0 :: codes[x].len == 0
    ensures CodeFor(freq, codes) && forall x | 0 <= x < |codes| :: codes[x].len <= L
  {
    hide Pow2, KraftCounts, Accepted, Rev, EndOf, Code;
    forall x | 0 <= x < |freq| && 0 < freq[x] ensures 1 <= codes[x].len <= L && x in chunks[codes[x].len] {
      assert x in Literals(list);
      var m :| 1 <= m < L + 1 && x in chunks[m];
      assert Assigned(counts, m, chunks[m], codes);
    }
    assert Complete(counts, L, chunks, codes);
    forall n | 1 <= n <= L ensures CountTo(Lens(codes), |codes|, n) == counts[n] {
      ChunkLists(counts, L, chunks, codes, n);
    }
    CodeAccepted(Lens(codes), counts, L);
    forall x | 0 <= x < |freq| && 0 < freq[x] ensures codes[x].code == Rev(Code(Lens(codes), x), codes[x].len) {
      CodesAreCanonical(counts, L, chunks, codes, x);
    }
  }
}
