/** The canonical Huffman code of section 3.2.2 of RFC 1951: symbol i of a vector of code
    lengths has the code `Code(l, i)`, read most significant bit first. */
module Canonical {
  import opened Bits

  datatype Option<+T> = None | Some(value: T)

  /** How many of the first i symbols have codes of n bits. */
  function CountTo(l: seq<nat>, i: nat, n: nat): (r: nat)
    requires i <= |l|
    ensures r <= i
  {
    if i == 0 then 0 else CountTo(l, i - 1, n) + if l[i - 1] == n then 1 else 0
  }

  /** The n-bit value after the last n-bit code given to the first i symbols. */
  function End(l: seq<nat>, i: nat, n: nat): nat
    requires i <= |l|
  {
    if n == 0 then 0 else 2 * End(l, i, n - 1) + CountTo(l, i, n)
  }

  /** The first n-bit code. */
  function First(l: seq<nat>, n: nat): nat
    requires 0 < n
  {
    2 * End(l, |l|, n - 1)
  }

  function Code(l: seq<nat>, i: nat): nat
    requires i < |l| && 0 < l[i]
  {
    First(l, l[i]) + CountTo(l, i, l[i])
  }

  /** Kraft sum of the first i symbols, in units of 2^-m. */
  function Kraft(l: seq<nat>, i: nat, m: nat): nat
    requires i <= |l|
  {
    if i == 0 then 0
    else Kraft(l, i - 1, m) + if 0 < l[i - 1] <= m then Pow2(m - l[i - 1]) else 0
  }

  lemma {:induction false} EndStep(l: seq<nat>, i: nat, n: nat)
    requires i < |l|
    ensures End(l, i + 1, n) == End(l, i, n) + if 0 < l[i] <= n then Pow2(n - l[i]) else 0
  {
    if 0 < n {
      EndStep(l, i, n - 1);
      if l[i] == n {
        assert Pow2(n - l[i]) == 1;
      }
    }
  }

  lemma {:induction false} EndEmpty(l: seq<nat>, n: nat)
    ensures End(l, 0, n) == 0
  {
    if 0 < n {
      EndEmpty(l, n - 1);
    }
  }

  /** The code counter of section 3.2.2 of RFC 1951 ends on the Kraft sum. */
  lemma {:induction false} EndIsKraft(l: seq<nat>, i: nat, m: nat)
    requires i <= |l|
    ensures End(l, i, m) == Kraft(l, i, m)
  {
    if i == 0 {
      EndEmpty(l, m);
    } else {
      EndIsKraft(l, i - 1, m);
      EndStep(l, i - 1, m);
    }
  }

  lemma {:induction false} CountMono(l: seq<nat>, i: nat, j: nat, n: nat)
    requires i <= j <= |l|
    ensures CountTo(l, i, n) <= CountTo(l, j, n)
  {
    if i < j {
      CountMono(l, i, j - 1, n);
    }
  }

  lemma CountStrict(l: seq<nat>, i: nat, j: nat)
    requires i < j <= |l|
    ensures CountTo(l, i, l[i]) < CountTo(l, j, l[i])
  {
    CountMono(l, i + 1, j, l[i]);
  }

  lemma CodeBelowEnd(l: seq<nat>, i: nat)
    requires i < |l| && 0 < l[i]
    ensures First(l, l[i]) <= Code(l, i) < End(l, |l|, l[i])
  {
    CountStrict(l, i, |l|);
  }

  lemma {:induction false} FindRank(l: seq<nat>, j: nat, n: nat, rank: nat) returns (i: nat)
    requires j <= |l| && rank < CountTo(l, j, n)
    ensures i < j && l[i] == n && CountTo(l, i, n) == rank
  {
    if l[j - 1] == n && CountTo(l, j - 1, n) == rank {
      i := j - 1;
    } else {
      i := FindRank(l, j - 1, n, rank);
    }
  }

  // Matching a code against the low bits of a number

  predicate Matches(l: seq<nat>, i: nat, x: nat)
    requires i < |l|
  {
    0 < l[i] && Code(l, i) == Rev(x, l[i])
  }

  /** A value past the codes of n bits is past the codes of every smaller width. */
  lemma {:induction false} PastShorter(l: seq<nat>, x: nat, m: nat, n: nat)
    requires m < n && First(l, n) <= Rev(x, n)
    ensures End(l, |l|, m) <= Rev(x, m)
  {
    var e, v := End(l, |l|, n - 1), Rev(x, n - 1);
    assert Rev(x, n) == 2 * v + BitOf(x, n - 1);
    assert e <= v;
    if m < n - 1 {
      assert First(l, n - 1) <= e;
      PastShorter(l, x, m, n - 1);
    }
  }

  /** The code is prefix free: at most one symbol matches. */
  lemma MatchUnique(l: seq<nat>, x: nat, i: nat, j: nat)
    requires i < |l| && j < |l| && Matches(l, i, x) && Matches(l, j, x)
    ensures i == j
  {
    CodeBelowEnd(l, i);
    CodeBelowEnd(l, j);
    if l[i] < l[j] {
      PastShorter(l, x, l[i], l[j]);
    } else if l[j] < l[i] {
      PastShorter(l, x, l[j], l[i]);
    } else if i < j {
      CountStrict(l, i, j);
    } else if j < i {
      CountStrict(l, j, i);
    }
  }

  /** A value below the end of the n-bit codes has a match of at most n bits. */
  lemma {:induction false} MatchBelow(l: seq<nat>, x: nat, n: nat) returns (i: nat)
    requires Rev(x, n) < End(l, |l|, n)
    ensures i < |l| && l[i] <= n && Matches(l, i, x)
  {
    RevHalf(x, n);
    if Rev(x, n - 1) < End(l, |l|, n - 1) {
      i := MatchBelow(l, x, n - 1);
    } else {
      i := FindRank(l, |l|, n, Rev(x, n) - First(l, n));
    }
  }

  /** When the Kraft sum is 1, every bit string starts with a code. */
  lemma CompleteMatch(l: seq<nat>, x: nat, m: nat) returns (i: nat)
    requires End(l, |l|, m) == Pow2(m)
    ensures i < |l| && l[i] <= m && Matches(l, i, x)
  {
    i := MatchBelow(l, x, m);
  }

  lemma Twice(a: nat, b: nat)
    ensures a * (2 * b) == 2 * (a * b)
  {
  }

  lemma {:induction false} EndGrows(l: seq<nat>, n: nat, k: nat)
    ensures End(l, |l|, n) * Pow2(k) <= End(l, |l|, n + k)
  {
    if 0 < k {
      EndGrows(l, n, k - 1);
      Twice(End(l, |l|, n), Pow2(k - 1));
    } else {
      assert Pow2(0) == 1;
    }
  }

  /** Without over-subscription an n-bit code fits in n bits. */
  lemma EndFits(l: seq<nat>, n: nat, m: nat)
    requires n <= m && End(l, |l|, m) <= Pow2(m)
    ensures End(l, |l|, n) <= Pow2(n)
  {
    EndGrows(l, n, m - n);
    Pow2Add(n, m - n);
    CancelMul(End(l, |l|, n), Pow2(n), Pow2(m - n));
  }

  lemma CancelMul(a: nat, b: nat, m: nat)
    requires 0 < m && a * m <= b * m
    ensures a <= b
  {
    if b < a {
      assert a * m == b * m + (a - b) * m;
      MulGe(a - b, m);
    }
  }

  // Which vectors describe a usable code

  function MaxLen(l: seq<nat>, i: nat): (r: nat)
    requires i <= |l|
    ensures forall j | 0 <= j < i :: l[j] <= r
    ensures r == 0 || exists j | 0 <= j < i :: l[j] == r
  {
    if i == 0 then 0 else
      var m := MaxLen(l, i - 1);
      if m < l[i - 1] then l[i - 1] else m
  }

  /** The vectors a decoder takes: no code at all, a Kraft sum of exactly 1, or a single
      code of one bit. */
  predicate Accepted(l: seq<nat>)
  {
    var m := MaxLen(l, |l|);
    m == 0 || Kraft(l, |l|, m) == Pow2(m) || (m == 1 && Kraft(l, |l|, 1) == 1)
  }

  // Reading a symbol from a bit stream

  /** The code of symbol i stands at bit position p. */
  predicate CodeAt(l: seq<nat>, d: seq<byte>, p: nat, i: nat)
    requires i < |l|
  {
    0 < l[i] && p + l[i] <= 8 * |d| && CodeBits(d, p, l[i]) == Code(l, i)
  }

  function SymbolFrom(l: seq<nat>, d: seq<byte>, p: nat, i: nat): (r: Option<nat>)
    requires i <= |l|
    ensures r.Some? ==> i <= r.value < |l| && CodeAt(l, d, p, r.value)
    ensures r.None? ==> forall j | i <= j < |l| :: !CodeAt(l, d, p, j)
    decreases |l| - i
  {
    if i == |l| then None
    else if CodeAt(l, d, p, i) then Some(i)
    else SymbolFrom(l, d, p, i + 1)
  }

  /** The symbol whose code starts at bit position p, if there is one. */
  function SymbolAt(l: seq<nat>, d: seq<byte>, p: nat): (r: Option<nat>)
    ensures r.Some? ==> r.value < |l| && CodeAt(l, d, p, r.value)
    ensures r.None? ==> forall j | 0 <= j < |l| :: !CodeAt(l, d, p, j)
  {
    SymbolFrom(l, d, p, 0)
  }

  lemma CodeAtMatches(l: seq<nat>, d: seq<byte>, p: nat, i: nat, n: nat)
    requires i < |l| && l[i] <= n && p + n <= 8 * |d|
    ensures CodeAt(l, d, p, i) == Matches(l, i, Num(d, p, n))
  {
    CodeBitsRev(d, p, l[i], n);
  }

  /** At most one code stands at a position, so SymbolAt does not depend on the order in
      which symbols are tried. */
  lemma CodeAtUnique(l: seq<nat>, d: seq<byte>, p: nat, i: nat, j: nat)
    requires i < |l| && j < |l| && CodeAt(l, d, p, i) && CodeAt(l, d, p, j)
    ensures i == j
  {
    var n := if l[i] < l[j] then l[j] else l[i];
    CodeAtMatches(l, d, p, i, n);
    CodeAtMatches(l, d, p, j, n);
    MatchUnique(l, Num(d, p, n), i, j);
  }

  lemma SymbolAtIs(l: seq<nat>, d: seq<byte>, p: nat, i: nat)
    requires i < |l| && CodeAt(l, d, p, i)
    ensures SymbolAt(l, d, p) == Some(i)
  {
    CodeAtUnique(l, d, p, i, SymbolAt(l, d, p).value);
  }
}
