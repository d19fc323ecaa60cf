/** The cheapest lists of leaves and pairs, and that no code with short enough lengths costs less. */
module PackageMerge {
  import opened Bits
  import opened Canonical

  function Sum(f: seq<nat>, n: nat): nat
    requires n <= |f|
  {
    if n == 0 then 0 else Sum(f, n - 1) + f[n - 1]
  }

  lemma {:induction false} SumPrefix(f: seq<nat>, g: seq<nat>, n: nat)
    requires n <= |f| <= |g| && forall i | 0 <= i < n :: f[i] == g[i]
    ensures Sum(f, n) == Sum(g, n)
  {
    if n > 0 {
      SumPrefix(f, g, n - 1);
    }
  }

  lemma {:induction false} SumGrows(f: seq<nat>, a: nat, b: nat)
    requires a <= b <= |f|
    ensures Sum(f, a) <= Sum(f, b)
    decreases b
  {
    if a < b {
      SumGrows(f, a, b - 1);
    }
  }

  lemma {:induction false} SumFront(s: seq<nat>, m: nat)
    requires m < |s|
    ensures Sum(s, m + 1) == s[0] + Sum(s[1..], m)
  {
    if m > 0 {
      SumFront(s, m - 1);
    }
  }

  lemma SumBack(s: seq<nat>, m: nat)
    requires 0 < m <= |s|
    ensures Sum(s, m) == Sum(s, m - 1) + s[m - 1]
  {
  }

  // Merging

  ghost predicate Sorted(s: seq<nat>) {
    forall i, j | 0 <= i <= j < |s| :: s[i] <= s[j]
  }

  /** Two sorted lists as one. */
  function Merge(u: seq<nat>, v: seq<nat>): (r: seq<nat>)
    ensures |r| == |u| + |v|
  {
    if u == [] then v
    else if v == [] then u
    else if u[0] < v[0] then [u[0]] + Merge(u[1..], v)
    else [v[0]] + Merge(u, v[1..])
  }

  lemma {:induction false} MergeAbove(u: seq<nat>, v: seq<nat>, x: nat)
    requires (forall i | 0 <= i < |u| :: x <= u[i]) && (forall i | 0 <= i < |v| :: x <= v[i])
    ensures forall i | 0 <= i < |Merge(u, v)| :: x <= Merge(u, v)[i]
  {
    if u != [] && v != [] {
      if u[0] < v[0] {
        MergeAbove(u[1..], v, x);
      } else {
        MergeAbove(u, v[1..], x);
      }
    }
  }

  lemma {:induction false} MergeSorted(u: seq<nat>, v: seq<nat>)
    requires Sorted(u) && Sorted(v)
    ensures Sorted(Merge(u, v))
  {
    if u != [] && v != [] {
      if u[0] < v[0] {
        MergeSorted(u[1..], v);
        MergeAbove(u[1..], v, u[0]);
      } else {
        MergeSorted(u, v[1..]);
        MergeAbove(u, v[1..], v[0]);
      }
    }
  }

  lemma MergeFront(u: seq<nat>, v: seq<nat>, m: nat)
    requires u != [] && v != [] && m < |u| + |v|
    ensures Sum(Merge(u, v), m + 1)
         == if u[0] < v[0] then u[0] + Sum(Merge(u[1..], v), m) else v[0] + Sum(Merge(u, v[1..]), m)
  {
    var r := Merge(u, v);
    SumFront(r, m);
    assert r[1..] == if u[0] < v[0] then Merge(u[1..], v) else Merge(u, v[1..]);
  }

  /** The first elements of the merged list are the cheapest choice: as many from the front of each list cost
      no less. */
  lemma {:induction false} MergeLeast(u: seq<nat>, v: seq<nat>, a: nat, p: nat)
    requires Sorted(u) && Sorted(v) && a <= |u| && p <= |v|
    ensures Sum(Merge(u, v), a + p) <= Sum(u, a) + Sum(v, p)
    decreases |u| + |v|
  {
    hide Merge;
    if u == [] || v == [] || a + p == 0 {
      MergeTrivial(u, v);
    } else {
      MergeFront(u, v, a + p - 1);
      if u[0] < v[0] {
        if a > 0 {
          SumFront(u, a - 1);
          MergeLeast(u[1..], v, a - 1, p);
        } else {
          MergeLeast(u[1..], v, 0, p - 1);
          assert v[0] <= v[p - 1];
        }
      } else {
        if p > 0 {
          SumFront(v, p - 1);
          MergeLeast(u, v[1..], a, p - 1);
        } else {
          MergeLeast(u, v[1..], a - 1, 0);
          assert u[0] <= u[a - 1];
        }
      }
    }
  }

  lemma MergeTrivial(u: seq<nat>, v: seq<nat>)
    ensures u == [] ==> Merge(u, v) == v
    ensures v == [] ==> Merge(u, v) == u
    ensures Sum(u, 0) == Sum(v, 0) == 0 && Sum(Merge(u, v), 0) == 0
  {
  }

  /** If the next element of neither list is below what has been taken of the other, it is that choice. */
  lemma {:induction false} MergeFrontier(u: seq<nat>, v: seq<nat>, a: nat, p: nat)
    requires Sorted(u) && Sorted(v) && a <= |u| && p <= |v|
    requires 0 < a && p < |v| ==> u[a - 1] <= v[p]
    requires 0 < p && a < |u| ==> v[p - 1] <= u[a]
    ensures Sum(u, a) + Sum(v, p) <= Sum(Merge(u, v), a + p)
    decreases |u| + |v|
  {
    hide Merge, Sum;
    MergeTrivial(u, v);
    if u != [] && v != [] && 0 < a + p {
      MergeFront(u, v, a + p - 1);
      if u[0] < v[0] {
        assert 0 < p ==> v[0] <= v[p - 1];
        SumFront(u, a - 1);
        MergeFrontier(u[1..], v, a - 1, p);
      } else if p > 0 {
        SumFront(v, p - 1);
        MergeFrontier(u, v[1..], a, p - 1);
      } else {
        assert u[0] <= u[a - 1] <= v[0];
        SumBack(u, a);
        MergeTrivial(u, v[1..]);
        MergeFrontier(u, v[1..], a - 1, 0);
      }
    }
  }

  // The lists of the levels

  /** Each two neighbours as one. */
  function Pairs(s: seq<nat>): (r: seq<nat>)
    ensures |r| == |s| / 2 && forall i | 0 <= i < |r| :: r[i] == s[2 * i] + s[2 * i + 1]
  {
    seq(|s| / 2, i requires 0 <= i < |s| / 2 => s[2 * i] + s[2 * i + 1])
  }

  lemma {:induction false} PairsSum(s: seq<nat>, p: nat)
    requires 2 * p <= |s|
    ensures Sum(Pairs(s), p) == Sum(s, 2 * p)
  {
    if p > 0 {
      PairsSum(s, p - 1);
      assert Sum(s, 2 * p) == Sum(s, 2 * p - 1) + s[2 * p - 1];
      assert Sum(s, 2 * p - 1) == Sum(s, 2 * p - 2) + s[2 * p - 2];
    }
  }

  /** The items of level k, in order: all leaves, and pairs of items of the level below. */
  function Layer(f: seq<nat>, k: nat): seq<nat> {
    if k == 0 then [] else Merge(f, Pairs(Layer(f, k - 1)))
  }

  lemma {:induction false} LayerSorted(f: seq<nat>, k: nat)
    requires Sorted(f)
    ensures Sorted(Layer(f, k)) && Sorted(Pairs(Layer(f, k)))
  {
    if k > 0 {
      LayerSorted(f, k - 1);
      MergeSorted(f, Pairs(Layer(f, k - 1)));
    }
  }

  /** The first two items are the first two leaves. */
  lemma {:induction false} FirstTwo(f: seq<nat>, k: nat)
    requires Sorted(f) && 2 <= |f| && 0 < f[0] && 0 < k
    ensures 2 <= |Layer(f, k)| && Sum(Layer(f, k), 2) == f[0] + f[1]
  {
    assert Sum(f, 2) == Sum(f, 1) + f[1] && Sum(f, 1) == Sum(f, 0) + f[0];
    var v := Pairs(Layer(f, k - 1));
    if k == 1 {
      MergeTrivial(f, v);
    } else {
      FirstTwo(f, k - 1);
      LayerSorted(f, k - 1);
      PairsSum(Layer(f, k - 1), 1);
      assert Sum(v, 1) == Sum(v, 0) + v[0];
      MergeLeast(f, v, 2, 0);
      MergeFrontier(f, v, 2, 0);
    }
  }

  // Any other choice

  /** How many items at level k come of b[0] leaves at level 1, b[1] at level 2, and so on. */
  function Value(b: seq<nat>, k: nat): nat
    requires k <= |b|
  {
    if k == 0 then 0 else b[k - 1] + Value(b, k - 1) / 2
  }

  /** What the cheapest leaves cost, as many on each level. */
  function Cost(f: seq<nat>, b: seq<nat>, k: nat): nat
    requires k <= |b| && forall i | 0 <= i < |b| :: b[i] <= |f|
  {
    if k == 0 then 0 else Cost(f, b, k - 1) + Sum(f, b[k - 1])
  }

  /** The first items of a level cost no more than any leaves from which there come as many. */
  lemma {:induction false} LayerLeast(f: seq<nat>, b: seq<nat>, k: nat)
    requires Sorted(f) && k <= |b| && forall i | 0 <= i < |b| :: b[i] <= |f|
    ensures Value(b, k) <= |Layer(f, k)| && Sum(Layer(f, k), Value(b, k)) <= Cost(f, b, k)
  {
    hide Merge, Pairs, Sorted;
    if k > 0 {
      LayerLeast(f, b, k - 1);
      var s, p := Layer(f, k - 1), Value(b, k - 1) / 2;
      LayerSorted(f, k - 1);
      MergeLeast(f, Pairs(s), b[k - 1], p);
      PairsSum(s, p);
      SumGrows(s, 2 * p, Value(b, k - 1));
    }
  }

  /** The same leaves in units of level 1. */
  function Units(b: seq<nat>, k: nat): nat
    requires k <= |b|
  {
    if k == 0 then 0 else Units(b, k - 1) + b[k - 1] * Pow2(k - 1)
  }

  /** Little is lost by rounding. */
  lemma {:induction false} ValueOfUnits(b: seq<nat>, k: nat)
    requires 0 < k <= |b|
    ensures Units(b, k) + 1 <= (Value(b, k) + 1) * Pow2(k - 1)
  {
    if k == 1 {
      assert Units(b, 0) == 0 && Value(b, 0) == 0;
    } else {
      ValueOfUnits(b, k - 1);
      var v, h := Value(b, k - 1), Pow2(k - 2);
      assert Pow2(k - 1) == 2 * h;
      MulMono(h, v + 1, 2 * (v / 2) + 2);
      Spread(b[k - 1], v / 2, h);
    }
  }

  lemma Spread(b: nat, q: nat, h: nat)
    ensures (b + q + 1) * (2 * h) == b * (2 * h) + (2 * q + 2) * h
  {
  }

  // Codes

  /** What it costs to write symbols with frequencies f with codes of l bits. */
  function Total(f: seq<nat>, l: seq<nat>, i: nat): nat
    requires i <= |f| && i <= |l|
  {
    if i == 0 then 0 else Total(f, l, i - 1) + f[i - 1] * l[i - 1]
  }

  /** How many of the first i symbols have codes of t bits or more. */
  function AtLeast(l: seq<nat>, i: nat, t: nat): (r: nat)
    requires i <= |l|
    ensures r <= i
  {
    if i == 0 then 0 else AtLeast(l, i - 1, t) + if t <= l[i - 1] then 1 else 0
  }

  /** And their frequencies together. */
  function Above(f: seq<nat>, l: seq<nat>, i: nat, t: nat): nat
    requires i <= |f| && i <= |l|
  {
    if i == 0 then 0 else Above(f, l, i - 1, t) + if t <= l[i - 1] then f[i - 1] else 0
  }

  /** The cheapest are not more than any others as many. */
  lemma {:induction false} Cheapest(f: seq<nat>, l: seq<nat>, i: nat, t: nat)
    requires Sorted(f) && i <= |f| && i <= |l|
    ensures Sum(f, AtLeast(l, i, t)) <= Above(f, l, i, t)
  {
    if i > 0 {
      Cheapest(f, l, i - 1, t);
    }
  }

  /** Leaves for codes of up to L bits: the codes with a first bit are those of the top level, L, and those with
      L bits of level 1. */
  function Leaves(l: seq<nat>, i: nat, L: nat): (b: seq<nat>)
    requires i <= |l|
    ensures |b| == L && forall j | 0 <= j < L :: b[j] == AtLeast(l, i, L - j)
  {
    seq(L, j requires 0 <= j < L => AtLeast(l, i, L - j))
  }

  /** How many bits of a code of x bits are in the lowest k levels. */
  function LowBits(x: nat, L: nat, k: nat): nat {
    if x + k <= L then 0 else x + k - L
  }

  function BitsTotal(f: seq<nat>, l: seq<nat>, i: nat, L: nat, k: nat): nat
    requires i <= |f| && i <= |l|
  {
    if i == 0 then 0 else BitsTotal(f, l, i - 1, L, k) + f[i - 1] * LowBits(l[i - 1], L, k)
  }

  lemma {:induction false} BitsStep(f: seq<nat>, l: seq<nat>, i: nat, L: nat, k: nat)
    requires i <= |f| && i <= |l| && k < L && forall j | 0 <= j < i :: l[j] <= L
    ensures BitsTotal(f, l, i, L, k + 1) == BitsTotal(f, l, i, L, k) + Above(f, l, i, L - k)
  {
    if i > 0 {
      BitsStep(f, l, i - 1, L, k);
      var x, w := l[i - 1], f[i - 1];
      assert w * (LowBits(x, L, k) + 1) == w * LowBits(x, L, k) + w;
    }
  }

  lemma {:induction false} BitsNone(f: seq<nat>, l: seq<nat>, i: nat, L: nat)
    requires i <= |f| && i <= |l| && forall j | 0 <= j < i :: l[j] <= L
    ensures BitsTotal(f, l, i, L, 0) == 0 && BitsTotal(f, l, i, L, L) == Total(f, l, i)
  {
    if i > 0 {
      BitsNone(f, l, i - 1, L);
    }
  }

  /** The leaves cost no more than the code. */
  lemma {:induction false} LeavesCost(f: seq<nat>, l: seq<nat>, L: nat, k: nat)
    requires Sorted(f) && |f| == |l| && k <= L && forall j | 0 <= j < |l| :: l[j] <= L
    ensures Cost(f, Leaves(l, |l|, L), k) <= BitsTotal(f, l, |l|, L, k)
  {
    if k == 0 {
    } else {
      LeavesCost(f, l, L, k - 1);
      BitsStep(f, l, |l|, L, k - 1);
      Cheapest(f, l, |l|, L - k + 1);
    }
  }

  /** A code of x bits is worth so many units of the lowest k levels. */
  function Worth(x: nat, L: nat, k: nat): int
    requires x <= L
  {
    if x + k <= L then 0 else Pow2(k) - Pow2(L - x)
  }

  lemma WorthStep(x: nat, L: nat, k: nat)
    requires 1 <= x <= L && k < L
    ensures Worth(x, L, k + 1) == Worth(x, L, k) + if L - k <= x then Pow2(k) else 0
  {
    assert Pow2(k + 1) == 2 * Pow2(k);
  }

  lemma AddUnit(a: nat, c: nat, h: nat)
    requires c <= 1
    ensures (a + c) * h == a * h + if c == 1 then h else 0
  {
  }

  lemma {:induction false} UnitsMore(l: seq<nat>, i: nat, L: nat, k: nat)
    requires 0 < i <= |l| && k <= L && forall j | 0 <= j < i :: 1 <= l[j] <= L
    ensures Units(Leaves(l, i, L), k) == Units(Leaves(l, i - 1, L), k) + Worth(l[i - 1], L, k)
  {
    if k > 0 {
      UnitsMore(l, i, L, k - 1);
      WorthStep(l[i - 1], L, k - 1);
      AddUnit(AtLeast(l, i - 1, L - k + 1), if L - k + 1 <= l[i - 1] then 1 else 0, Pow2(k - 1));
    }
  }

  lemma {:induction false} UnitsNone(l: seq<nat>, L: nat, k: nat)
    requires k <= L
    ensures Units(Leaves(l, 0, L), k) == 0
  {
    if k > 0 {
      UnitsNone(l, L, k - 1);
    }
  }

  /** Together the leaves are worth what the codes leave of the unit each. */
  lemma {:induction false} UnitsOfCode(l: seq<nat>, i: nat, L: nat)
    requires i <= |l| && forall j | 0 <= j < i :: 1 <= l[j] <= L
    ensures Units(Leaves(l, i, L), L) + Kraft(l, i, L) == i * Pow2(L)
  {
    hide Units, Leaves;
    if i == 0 {
      UnitsNone(l, L, L);
    } else {
      UnitsOfCode(l, i - 1, L);
      UnitsMore(l, i, L, L);
      assert i * Pow2(L) == (i - 1) * Pow2(L) + Pow2(L);
    }
  }

  /** No code with lengths of at most L bits costs less than the first 2 n - 2 items of level L. */
  lemma NoCheaper(f: seq<nat>, l: seq<nat>, L: nat)
    requires Sorted(f) && |f| == |l| && 2 <= |f| && 0 < L && forall j | 0 <= j < |l| :: 1 <= l[j] <= L
    requires Kraft(l, |l|, L) <= Pow2(L)
    ensures 2 * |f| - 2 <= |Layer(f, L)| && Sum(Layer(f, L), 2 * |f| - 2) <= Total(f, l, |l|)
  {
    hide Kraft, Units, Value, Layer, Leaves, Cost, Sum, Total, BitsTotal;
    var n, b := |f|, Leaves(l, |l|, L);
    UnitsOfCode(l, n, L);
    ValueOfUnits(b, L);
    LayerLeast(f, b, L);
    LeavesCost(f, l, L, L);
    BitsNone(f, l, n, L);
    var v := Value(b, L);
    EnoughValue(n, v, Pow2(L - 1), Units(b, L));
    SumGrows(Layer(f, L), 2 * n - 2, v);
  }

  lemma EnoughValue(n: nat, v: nat, h: nat, u: nat)
    requires 0 < n && u + 1 <= (v + 1) * h && (n - 1) * (2 * h) <= u
    ensures 2 * n - 2 <= v
  {
    assert (n - 1) * (2 * h) == h * (2 * n - 2);
    if v + 1 <= 2 * n - 2 {
      MulMono(h, v + 1, 2 * n - 2);
    }
  }

  // Codes longer than the number of symbols needs

  /** How many of the first i symbols have codes of 1 to n bits. */
  function CountedTo(l: seq<nat>, i: nat, n: nat): nat
    requires i <= |l|
  {
    if n == 0 then 0 else CountedTo(l, i, n - 1) + CountTo(l, i, n)
  }

  lemma Halves(x: nat, c: nat, r: nat, h: nat)
    requires c < 2 * x && h <= x * Pow2(r)
    ensures 2 * h <= (2 * x - c) * Pow2(r + c)
  {
    hide Pow2;
    var y, p, q := 2 * x - c, Pow2(r), Pow2(c);
    Pow2Add(r, c);
    Doubling(c);
    assert y + c <= y * q by {
      MulMono(y, c + 1, q);
      MulMono(c, 1, y);
      assert y * (c + 1) == y + c * y;
    }
    MulMono(p, 2 * x, y * q);
    assert p * (y * q) == y * (p * q);
    assert p * (2 * x) == 2 * (x * p);
  }

  lemma {:induction false} Doubling(k: nat)
    ensures k + 1 <= Pow2(k)
  {
    if k > 0 {
      Doubling(k - 1);
    }
  }

  /** As long as there is room for more codes, there is room for one of as many bits as there are codes. */
  lemma {:induction false} Room(l: seq<nat>, n: nat)
    requires End(l, |l|, n) < Pow2(n)
    ensures Pow2(n) <= (Pow2(n) - End(l, |l|, n)) * Pow2(CountedTo(l, |l|, n))
  {
    if n > 0 {
      var c, x := CountTo(l, |l|, n), Pow2(n - 1) - End(l, |l|, n - 1);
      Room(l, n - 1);
      Halves(x, c, CountedTo(l, |l|, n - 1), Pow2(n - 1));
    }
  }

  /** The same code with no length over L. */
  function Clamped(l: seq<nat>, L: nat): (r: seq<nat>)
    ensures |r| == |l| && forall i | 0 <= i < |r| :: r[i] == if l[i] <= L then l[i] else L
  {
    seq(|l|, i requires 0 <= i < |l| => if l[i] <= L then l[i] else L)
  }

  lemma {:induction false} ClampedCount(l: seq<nat>, L: nat, i: nat, n: nat)
    requires i <= |l| && n <= L
    ensures CountTo(Clamped(l, L), i, n) == CountTo(l, i, n) + if n == L then AtLeast(l, i, L + 1) else 0
  {
    if i > 0 {
      ClampedCount(l, L, i - 1, n);
    }
  }

  lemma {:induction false} ClampedEnd(l: seq<nat>, L: nat, n: nat)
    requires n <= L
    ensures End(Clamped(l, L), |l|, n)
         == End(l, |l|, n) + if 0 < n == L then AtLeast(l, |l|, L + 1) else 0
  {
    if n > 0 {
      ClampedEnd(l, L, n - 1);
      ClampedCount(l, L, |l|, n);
    }
  }

  lemma {:induction false} CountedMore(l: seq<nat>, i: nat, n: nat)
    requires 0 < i <= |l|
    ensures CountedTo(l, i, n) == CountedTo(l, i - 1, n) + if 1 <= l[i - 1] <= n then 1 else 0
  {
    if n > 0 {
      CountedMore(l, i, n - 1);
    }
  }

  lemma {:induction false} CountedNone(l: seq<nat>, n: nat)
    ensures CountedTo(l, 0, n) == 0
  {
    if n > 0 {
      CountedNone(l, n - 1);
    }
  }

  lemma {:induction false} AllCounted(l: seq<nat>, i: nat, L: nat)
    requires i <= |l| && forall j | 0 <= j < |l| :: 1 <= l[j]
    ensures CountedTo(l, i, L) + AtLeast(l, i, L + 1) == i
  {
    if i > 0 {
      AllCounted(l, i - 1, L);
      CountedMore(l, i, L);
    } else {
      CountedNone(l, L);
    }
  }

  /** A code longer than L bits leaves room at L bits. */
  lemma RoomBelow(l: seq<nat>, L: nat, M: nat)
    requires L < M && Kraft(l, |l|, M) <= Pow2(M) && 0 < AtLeast(l, |l|, L + 1)
    requires forall j | 0 <= j < |l| :: l[j] <= M
    ensures End(l, |l|, L) < Pow2(L)
  {
    hide End, Kraft, Pow2;
    EndIsKraft(l, |l|, M);
    EndFits(l, L, M);
    var i := LongOne(l, |l|, L + 1);
    if End(l, |l|, L) == Pow2(L) {
      CodeBelowEnd(l, i);
      EndFits(l, l[i], M);
      EndGrows(l, L, l[i] - 1 - L);
      Pow2Add(L, l[i] - 1 - L);
      FirstIs(l, l[i]);
    }
  }

  lemma FirstIs(l: seq<nat>, n: nat)
    requires 0 < n
    ensures First(l, n) == 2 * End(l, |l|, n - 1) && Pow2(n) == 2 * Pow2(n - 1)
  {
  }

  lemma {:induction false} LongOne(l: seq<nat>, i: nat, t: nat) returns (j: nat)
    requires i <= |l| && 0 < AtLeast(l, i, t)
    ensures j < i && t <= l[j]
  {
    if t <= l[i - 1] {
      j := i - 1;
    } else {
      j := LongOne(l, i - 1, t);
    }
  }

  /** Cut off at one bit less than there are symbols, the lengths are still those of a code. */
  lemma ClampedFits(l: seq<nat>, M: nat)
    requires 2 <= |l| <= M && Kraft(l, |l|, M) <= Pow2(M) && forall j | 0 <= j < |l| :: 1 <= l[j] <= M
    ensures Kraft(Clamped(l, |l| - 1), |l|, |l| - 1) <= Pow2(|l| - 1)
  {
    hide End, Kraft, Pow2, AtLeast, CountedTo, Clamped;
    var n, L, l' := |l|, |l| - 1, Clamped(l, |l| - 1);
    EndIsKraft(l', n, L);
    ClampedEnd(l, L, L);
    var j := AtLeast(l, n, L + 1);
    if j == 0 {
      EndIsKraft(l, n, M);
      EndFits(l, L, M);
    } else {
      RoomBelow(l, L, M);
      Room(l, L);
      AllCounted(l, n, L);
      Pow2Add(n - j, j - 1);
      CancelMul(Pow2(j - 1), Pow2(L) - End(l, n, L), Pow2(n - j));
      Doubling(j - 1);
    }
  }

  lemma {:induction false} ClampedTotal(f: seq<nat>, l: seq<nat>, L: nat, i: nat)
    requires i <= |f| && i <= |l|
    ensures Total(f, Clamped(l, L), i) <= Total(f, l, i)
  {
    if i > 0 {
      ClampedTotal(f, l, L, i - 1);
      MulMono(f[i - 1], Clamped(l, L)[i - 1], l[i - 1]);
    }
  }
}
