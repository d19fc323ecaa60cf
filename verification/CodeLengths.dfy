/** The encoder's choice of code lengths: how many symbols get codes of each length, when no code may
    be longer than a limit. */
module CodeLengths {
  import opened Bits
  import opened Canonical
  import opened PackageMerge

  const MAX_INT32: int := 0x7FFF_FFFF
  const MAX_BITS_LIMIT: nat := 16

  /** What is known of a level of the tree. An item of a level is a leaf or a pair of items of the
      level below. */
  datatype Level = Level(
    /** The frequency of the last item made. */
    lastFreq: int,
    /** The frequency of the next leaf, and of the next pair. */
    nextCharFreq: int, nextPairFreq: int,
    /** How many items are still to be made before going up a level. */
    needed: int)

  /** A level with the counts of leaves to the left of the ancestors of its last item, the number of
      pairs among its items, and their total frequency. */
  datatype Node = Node(l: Level, row: seq<nat>, pairs: nat, weight: nat)

  /** Counts weighted by how many items of the top level they stand for. */
  function RowSum(row: seq<nat>, k: nat): nat
    requires k < |row|
  {
    if k == 0 then 0 else RowSum(row, k - 1) + row[k] * Pow2(k - 1)
  }

  /** The most items a level can have. */
  function MaxItems(n: nat, k: nat): nat {
    if k == 0 then 0 else n + MaxItems(n, k - 1) / 2
  }

  /** Frequencies in order, followed by one that is larger than all. */
  ghost predicate Frequencies(f: seq<nat>, n: nat) {
    && 3 <= n == |f| - 1 && f[n] == MAX_INT32 && 0 < f[0] && f[n - 1] < MAX_INT32
    && forall i, j | 0 <= i <= j <= n :: f[i] <= f[j]
  }

  function Items(x: Node, k: nat): nat
    requires k < |x.row|
  {
    x.row[k] + x.pairs
  }

  /** The total frequency of the items of a level. */
  function Made(f: seq<nat>, x: Node, k: nat): nat
    requires k < |x.row| && x.row[k] <= |f|
  {
    Sum(f, x.row[k]) + x.weight
  }

  ghost predicate Ascending(row: seq<nat>, k: nat)
    requires k < |row|
  {
    forall i, j | 0 <= i <= j <= k :: row[i] <= row[j]
  }

  ghost predicate LevelOk(f: seq<nat>, n: nat, k: nat, x: Node)
    requires |f| == n + 1
  {
    && 1 <= k < |x.row| == MAX_BITS_LIMIT && 2 <= x.row[k] <= n
    && x.l.nextCharFreq == f[x.row[k]] && f[x.row[k] - 1] <= x.l.lastFreq <= x.l.nextCharFreq
    && 0 <= x.l.needed
    && x.row[0] == 0 && Ascending(x.row, k) && RowSum(x.row, k) == Items(x, k) * Pow2(k - 1)
    && x.pairs <= n - 1 && (x.pairs == n - 1 ==> x.row[k] == n)
  }

  /** Level k, x, below level k + 1, y. */
  ghost predicate LinkOk(f: seq<nat>, n: nat, k: nat, x: Node, y: Node)
    requires |f| == n + 1 && (0 < k ==> LevelOk(f, n, k, x))
  {
    if y.l.nextPairFreq == MAX_INT32 then
      // level k has run out of items
      && x.l.needed == 0 && y.pairs == MaxItems(n, k) / 2
      && (if k == 0 then y.weight == 0 else Items(x, k) == MaxItems(n, k) && y.weight <= Made(f, x, k))
    else
      && 0 < k && x.l.needed <= 2 && Items(x, k) + x.l.needed == 2 * (y.pairs + 1)
      && (if x.l.needed == 0 then
            && x.l.lastFreq < y.l.nextPairFreq <= 2 * x.l.lastFreq && y.l.lastFreq <= y.l.nextPairFreq
            && y.weight + y.l.nextPairFreq == Made(f, x, k)
          else
            && y.l.lastFreq <= 2 * x.l.lastFreq
            && y.weight + (if x.l.needed == 1 then x.l.lastFreq else 0) == Made(f, x, k))
  }

  ghost predicate LevelsOk(f: seq<nat>, n: nat, L: nat, t: seq<Node>) {
    && Frequencies(f, n) && 2 <= L < MAX_BITS_LIMIT && |t| == L + 1
    && n <= Pow2(L) && L * Sum(f, n) < MAX_INT32
    && t[0].l.needed == 0 && |t[0].row| == MAX_BITS_LIMIT
    && (forall k | 1 <= k <= L :: LevelOk(f, n, k, t[k]))
    && (forall k | 0 <= k < L :: LinkOk(f, n, k, t[k], t[k + 1]))
    && Items(t[L], L) + t[L].l.needed == 2 * n - 2
  }

  /** Where the loop is: it makes items at `level`, for which the level below is ready. */
  ghost predicate AtLevel(L: nat, t: seq<Node>, level: nat) {
    && |t| == L + 1 && 1 <= level <= L
    && t[level - 1].l.needed == 0
    && forall k | level <= k <= L :: 0 < t[k].l.needed
  }

  // The steps

  /** The next item is a leaf. */
  function Leaf(f: seq<nat>, k: nat, x: Node): Node
    requires k < |x.row| && x.row[k] + 1 < |f|
  {
    x.(row := x.row[k := x.row[k] + 1],
       l := Level(x.l.nextCharFreq, f[x.row[k] + 1], x.l.nextPairFreq, x.l.needed - 1))
  }

  /** The next item is a pair. */
  function Pair(k: nat, below: Node, x: Node): Node
    requires k <= |below.row| && k <= |x.row| && 0 <= x.l.nextPairFreq
  {
    x.(row := below.row[..k] + x.row[k..],
       l := Level(x.l.nextPairFreq, x.l.nextCharFreq, x.l.nextPairFreq, x.l.needed - 1),
       pairs := x.pairs + 1, weight := x.weight + x.l.nextPairFreq)
  }

  lemma {:induction false} RowSumSame(r: seq<nat>, s: seq<nat>, k: nat)
    requires k < |r| && k < |s| && forall i | 1 <= i <= k :: r[i] == s[i]
    ensures RowSum(r, k) == RowSum(s, k)
  {
    if k > 0 {
      RowSumSame(r, s, k - 1);
    }
  }

  lemma AddTimes(a: nat, b: nat, m: nat)
    ensures (a + b) * m == a * m + b * m
  {
  }

  lemma RowSumLeaf(row: seq<nat>, row': seq<nat>, k: nat, items: nat)
    requires 0 < k < |row| == |row'| && row' == row[k := row[k] + 1]
    requires RowSum(row, k) == items * Pow2(k - 1)
    ensures RowSum(row', k) == (items + 1) * Pow2(k - 1)
  {
    RowSumSame(row, row', k - 1);
    AddTimes(row[k], 1, Pow2(k - 1));
    AddTimes(items, 1, Pow2(k - 1));
  }

  lemma LeafOk(f: seq<nat>, n: nat, k: nat, x: Node)
    requires Frequencies(f, n) && LevelOk(f, n, k, x) && x.row[k] < n && 0 < x.l.needed
    ensures LevelOk(f, n, k, Leaf(f, k, x)) && Items(Leaf(f, k, x), k) == Items(x, k) + 1
    ensures Made(f, Leaf(f, k, x), k) == Made(f, x, k) + Leaf(f, k, x).l.lastFreq
    ensures x.l.lastFreq <= Leaf(f, k, x).l.lastFreq
  {
    hide RowSum, Pow2;
    RowSumLeaf(x.row, Leaf(f, k, x).row, k, Items(x, k));
  }

  lemma RowSumPair(low: seq<nat>, row: seq<nat>, row': seq<nat>, k: nat, pairs: nat)
    requires 1 < k < |row| == |row'| == |low| && row' == low[..k] + row[k..]
    requires RowSum(low, k - 1) == 2 * (pairs + 1) * Pow2(k - 2)
    ensures RowSum(row', k) == (row[k] + pairs + 1) * Pow2(k - 1)
  {
    RowSumSame(low, row', k - 1);
    assert Pow2(k - 1) == 2 * Pow2(k - 2);
    assert 2 * (pairs + 1) * Pow2(k - 2) == (pairs + 1) * Pow2(k - 1);
    AddTimes(row[k], pairs + 1, Pow2(k - 1));
  }

  lemma PairOk(f: seq<nat>, n: nat, k: nat, below: Node, x: Node)
    requires Frequencies(f, n) && LevelOk(f, n, k, x) && 0 < x.l.needed
    requires 1 < k && LevelOk(f, n, k - 1, below) && LinkOk(f, n, k - 1, below, x)
    requires below.l.needed == 0 && x.l.nextPairFreq <= x.l.nextCharFreq && x.l.nextPairFreq != MAX_INT32
    ensures var y := Pair(k, below, x);
            LevelOk(f, n, k, y) && Items(y, k) == Items(x, k) + 1 && Made(f, y, k) == Made(f, x, k) + y.l.lastFreq
    ensures LinkOk(f, n, k - 1, below.(l := below.l.(needed := 2)), Pair(k, below, x))
    ensures x.l.lastFreq <= Pair(k, below, x).l.lastFreq
  {
    hide RowSum, Pow2;
    var y := Pair(k, below, x);
    RowSumPair(below.row, x.row, y.row, k, x.pairs);
    assert below.row[k - 1] <= x.row[k];
  }

  /** The items of level k have k times the total frequency at most. */
  lemma {:induction false} MadeBound(f: seq<nat>, n: nat, L: nat, t: seq<Node>, k: nat)
    requires LevelsOk(f, n, L, t) && 1 <= k <= L
    ensures Made(f, t[k], k) <= k * Sum(f, n)
  {
    SumGrows(f, t[k].row[k], n);
    if k == 1 {
      assert LinkOk(f, n, 0, t[0], t[1]);
    } else {
      MadeBound(f, n, L, t, k - 1);
      assert LinkOk(f, n, k - 1, t[k - 1], t[k]);
      AddTimes(k - 1, 1, Sum(f, n));
    }
  }

  function WithNeeded(x: Node, v: int): Node {
    x.(l := x.l.(needed := v))
  }

  function WithPair(x: Node, v: int): Node {
    x.(l := x.l.(nextPairFreq := v))
  }

  /** Level k becomes y with one more item; if it was the last one needed, the level above gets its
      next pair. */
  lemma ItemMade(f: seq<nat>, n: nat, k: nat, x: Node, y: Node, above: Node, bound: nat)
    requires Frequencies(f, n) && 1 <= k && LevelOk(f, n, k, x) && LevelOk(f, n, k, y)
    requires 0 < x.l.needed == y.l.needed + 1 && LinkOk(f, n, k, x, above)
    requires Items(y, k) == Items(x, k) + 1 && Made(f, y, k) == Made(f, x, k) + y.l.lastFreq
    requires x.l.lastFreq <= y.l.lastFreq && Made(f, y, k) <= bound < MAX_INT32
    ensures LinkOk(f, n, k, y, if y.l.needed == 0 then WithPair(above, x.l.lastFreq + y.l.lastFreq) else above)
  {
    hide RowSum, Pow2, Sum, Ascending;
    assert 0 < f[x.row[k] - 1] <= x.l.lastFreq;
  }

  lemma LinkBelowNeeded(f: seq<nat>, n: nat, k: nat, x: Node, y: Node, v: int)
    requires |f| == n + 1 && (0 < k ==> LevelOk(f, n, k, x)) && LinkOk(f, n, k, x, y)
    ensures LinkOk(f, n, k, x, WithNeeded(y, v))
  {
  }

  lemma LinkAbovePair(f: seq<nat>, n: nat, k: nat, x: Node, y: Node, v: int)
    requires |f| == n + 1 && 0 < k && LevelOk(f, n, k, x) && LinkOk(f, n, k, x, y)
    ensures LevelOk(f, n, k, WithPair(x, v)) && LinkOk(f, n, k, WithPair(x, v), y)
  {
    hide RowSum, Pow2;
  }

  lemma LevelPair(f: seq<nat>, n: nat, k: nat, x: Node, v: int)
    requires |f| == n + 1 && LevelOk(f, n, k, x)
    ensures LevelOk(f, n, k, WithPair(x, v)) && Items(WithPair(x, v), k) == Items(x, k)
  {
    hide RowSum, Pow2;
  }

  /** All levels are in order again after an item has been made at level k: below and y are the levels
      k - 1 and k now. */
  lemma LevelsAfter(f: seq<nat>, n: nat, L: nat, t: seq<Node>, k: nat, below: Node, y: Node, t': seq<Node>)
    requires LevelsOk(f, n, L, t) && AtLevel(L, t, k)
    requires below == WithNeeded(t[k - 1], below.l.needed) && (k == 1 ==> below == t[0])
    requires LevelOk(f, n, k, y) && y.l.needed == t[k].l.needed - 1 && y.l.nextPairFreq == t[k].l.nextPairFreq
    requires Items(y, k) == Items(t[k], k) + 1 && Made(f, y, k) == Made(f, t[k], k) + y.l.lastFreq
    requires t[k].l.lastFreq <= y.l.lastFreq
    requires (k > 1 ==> LevelOk(f, n, k - 1, below)) && LinkOk(f, n, k - 1, below, y)
    requires t' == Put(L, t, k, below, y)
    ensures LevelsOk(f, n, L, t')
  {
    hide LevelOk, LinkOk, Made, Sum, Pow2;
    YBound(f, n, L, t, k, below, y);
    forall j | 1 <= j <= L ensures LevelOk(f, n, j, t'[j]) {
      assert LevelOk(f, n, j, t[j]);
      if j == k + 1 {
        LevelPair(f, n, j, t[j], t'[j].l.nextPairFreq);
      }
    }
    if k < L {
      assert LinkOk(f, n, k, t[k], t[k + 1]);
      ItemMade(f, n, k, t[k], y, t[k + 1], L * Sum(f, n));
      if k + 1 == L {
        LevelPair(f, n, L, t[L], t'[L].l.nextPairFreq);
      }
    }
    forall j | 0 <= j < L ensures LinkOk(f, n, j, t'[j], t'[j + 1]) {
      assert LinkOk(f, n, j, t[j], t[j + 1]);
      if j + 1 == k - 1 {
        LinkBelowNeeded(f, n, j, t[j], t[j + 1], below.l.needed);
      } else if j == k + 1 {
        LinkAbovePair(f, n, j, t[j], t[j + 1], t'[j].l.nextPairFreq);
      }
    }
  }

  /** The levels after an item has been made at level k. */
  function Put(L: nat, t: seq<Node>, k: nat, below: Node, y: Node): seq<Node>
    requires |t| == L + 1 && 1 <= k <= L
  {
    var u := t[k - 1 := below][k := y];
    if y.l.needed == 0 && k < L then u[k + 1 := WithPair(t[k + 1], t[k].l.lastFreq + y.l.lastFreq)] else u
  }

  lemma YBound(f: seq<nat>, n: nat, L: nat, t: seq<Node>, k: nat, below: Node, y: Node)
    requires LevelsOk(f, n, L, t) && 1 <= k <= L && LevelOk(f, n, k, y)
    requires below == WithNeeded(t[k - 1], below.l.needed)
    requires (k > 1 ==> LevelOk(f, n, k - 1, below)) && LinkOk(f, n, k - 1, below, y)
    ensures Made(f, y, k) <= L * Sum(f, n) < MAX_INT32
  {
    if k > 1 {
      MadeBound(f, n, L, t, k - 1);
    }
    ItemBound(f, n, k, below, y, L);
  }

  lemma ItemBound(f: seq<nat>, n: nat, k: nat, below: Node, y: Node, L: nat)
    requires |f| == n + 1 && 1 <= k <= L && LevelOk(f, n, k, y)
    requires k > 1 ==> LevelOk(f, n, k - 1, below) && Made(f, below, k - 1) <= (k - 1) * Sum(f, n)
    requires LinkOk(f, n, k - 1, below, y)
    ensures Made(f, y, k) <= L * Sum(f, n)
  {
    hide RowSum, Pow2, Ascending;
    SumGrows(f, y.row[k], n);
    MulMono(Sum(f, n), k, L);
    AddTimes(k - 1, 1, Sum(f, n));
  }

  lemma Rearrange(a: nat, m: nat)
    ensures a * (2 * m) == m * (2 * a)
  {
  }

  lemma Halved(s: nat, s': nat, m: nat, n: nat)
    requires s * m <= n - 1 && 2 * s' <= s
    ensures s' * (2 * m) <= n - 1
  {
    MulMono(m, 2 * s', s);
    Rearrange(s', m);
  }

  /** What a level is short of 2 n items is halved from each level to the next. */
  lemma {:induction false} Shortfall(n: nat, k: nat)
    requires 1 <= n && 1 <= k
    ensures MaxItems(n, k) < 2 * n && (2 * n - MaxItems(n, k) - 1) * Pow2(k - 1) <= n - 1
  {
    if k == 1 {
    } else {
      Shortfall(n, k - 1);
      var s, s' := 2 * n - MaxItems(n, k - 1) - 1, 2 * n - MaxItems(n, k) - 1;
      Halved(s, s', Pow2(k - 2), n);
    }
  }

  /** The top level does not run out of items. */
  lemma Enough(n: nat, L: nat)
    requires 1 <= n <= Pow2(L) && 1 <= L
    ensures MaxItems(n, L) >= 2 * n - 2
  {
    Shortfall(n, L);
    var s := 2 * n - MaxItems(n, L) - 1;
    if s >= 2 {
      MulMono(Pow2(L - 1), 2, s);
      assert false;
    }
  }

  /** A level with neither leaves nor pairs left is not the top level, and its items are all there
      can be. */
  lemma RunOut(f: seq<nat>, n: nat, L: nat, t: seq<Node>, k: nat, t': seq<Node>)
    requires LevelsOk(f, n, L, t) && AtLevel(L, t, k)
    requires t[k].l.nextPairFreq == MAX_INT32 == t[k].l.nextCharFreq
    requires k < L ==> t' == t[k := WithNeeded(t[k], 0)][k + 1 := WithPair(t[k + 1], MAX_INT32)]
    ensures k < L && LevelsOk(f, n, L, t') && AtLevel(L, t', k + 1)
  {
    hide RowSum, Pow2, Sum, Ascending, Made;
    assert LevelOk(f, n, k, t[k]) && LinkOk(f, n, k - 1, t[k - 1], t[k]);
    assert t[k].row[k] == n && Items(t[k], k) == MaxItems(n, k);
    Enough(n, L);
    RunOutLevels(f, n, L, t, k, t');
  }

  lemma RunOutLevels(f: seq<nat>, n: nat, L: nat, t: seq<Node>, k: nat, t': seq<Node>)
    requires LevelsOk(f, n, L, t) && AtLevel(L, t, k) && k < L
    requires Items(t[k], k) == MaxItems(n, k)
    requires t' == t[k := WithNeeded(t[k], 0)][k + 1 := WithPair(t[k + 1], MAX_INT32)]
    ensures LevelsOk(f, n, L, t')
  {
    hide LevelOk, LinkOk, Made, Sum, Pow2;
    forall j | 1 <= j <= L ensures LevelOk(f, n, j, t'[j]) {
      assert LevelOk(f, n, j, t[j]);
      if j == k + 1 {
        LevelPair(f, n, j, t[j], MAX_INT32);
      } else if j == k {
        LevelNeeded(f, n, j, t[j]);
      }
    }
    assert LinkOk(f, n, k, t[k], t[k + 1]);
    LinkRunsOut(f, n, k, t[k], t[k + 1]);
    forall j | 0 <= j < L ensures LinkOk(f, n, j, t'[j], t'[j + 1]) {
      assert LinkOk(f, n, j, t[j], t[j + 1]);
      if j + 1 == k {
        LinkBelowNeeded(f, n, j, t[j], t[j + 1], 0);
      } else if j == k + 1 {
        LinkAbovePair(f, n, j, t[j], t[j + 1], MAX_INT32);
      }
    }
    if k + 1 == L {
      LevelPair(f, n, L, t[L], MAX_INT32);
    }
  }

  lemma LevelNeeded(f: seq<nat>, n: nat, k: nat, x: Node)
    requires |f| == n + 1 && LevelOk(f, n, k, x)
    ensures LevelOk(f, n, k, WithNeeded(x, 0))
  {
    hide RowSum, Pow2;
  }

  lemma LinkRunsOut(f: seq<nat>, n: nat, k: nat, x: Node, y: Node)
    requires |f| == n + 1 && 0 < k && LevelOk(f, n, k, x) && LinkOk(f, n, k, x, y)
    requires 0 < x.l.needed && Items(x, k) == MaxItems(n, k)
    ensures LevelOk(f, n, k, WithNeeded(x, 0)) && LinkOk(f, n, k, WithNeeded(x, 0), WithPair(y, MAX_INT32))
  {
    hide RowSum, Pow2;
  }

  /** A level has fewer than 2 n items. */
  lemma FewItems(f: seq<nat>, n: nat, L: nat, t: seq<Node>, k: nat)
    requires LevelsOk(f, n, L, t) && 1 <= k <= L
    ensures Items(t[k], k) < 2 * n
  {
    hide RowSum, Pow2;
    assert LevelOk(f, n, k, t[k]);
  }

  /** With all items made, the top level has used all leaves. */
  lemma AllLeaves(f: seq<nat>, n: nat, L: nat, t: seq<Node>)
    requires LevelsOk(f, n, L, t) && t[L].l.needed == 0
    ensures t[L].row[L] == n && RowSum(t[L].row, L) == (2 * n - 2) * Pow2(L - 1) && Ascending(t[L].row, L)
    ensures L < |t[L].row| && t[L].row[0] == 0
  {
    hide RowSum, Pow2;
    assert LevelOk(f, n, L, t[L]);
  }

  // The items are the cheapest

  /** The cost of the leaves to the left of the ancestors on the lowest k levels. */
  function RowCost(f: seq<nat>, row: seq<nat>, k: nat): nat
    requires k < |row| && forall i | 1 <= i <= k :: row[i] <= |f|
  {
    if k == 0 then 0 else RowCost(f, row, k - 1) + Sum(f, row[k])
  }

  /** The items of level k made so far are its first ones, and the counts in the row tell what they cost. */
  ghost predicate Cheap(f: seq<nat>, n: nat, k: nat, x: Node)
    requires |f| == n + 1 && LevelOk(f, n, k, x)
  {
    var s, p := Layer(f[..n], k - 1), x.pairs;
    && (forall i | 1 <= i <= k :: x.row[i] <= n)
    && 2 * p <= |s| && x.weight == Sum(s, 2 * p) == RowCost(f, x.row, k - 1)
    && (0 < p && x.row[k] < n ==> Pairs(s)[p - 1] <= f[x.row[k]])
    && (p < |Pairs(s)| ==> f[x.row[k] - 1] <= Pairs(s)[p])
  }

  lemma {:induction false} LayerSize(f: seq<nat>, k: nat)
    ensures |Layer(f, k)| == MaxItems(|f|, k)
  {
    if k > 0 {
      LayerSize(f, k - 1);
    }
  }

  lemma LeavesSorted(f: seq<nat>, n: nat)
    requires Frequencies(f, n)
    ensures Sorted(f[..n])
  {
  }

  /** So the items cost what the first ones of the list do. */
  lemma MadeIsLeast(f: seq<nat>, n: nat, k: nat, x: Node)
    requires Frequencies(f, n) && LevelOk(f, n, k, x) && Cheap(f, n, k, x)
    ensures Items(x, k) <= |Layer(f[..n], k)| && Made(f, x, k) == Sum(Layer(f[..n], k), Items(x, k))
  {
    hide RowSum, Pow2, Merge, Sum, RowCost;
    var u, s := f[..n], Layer(f[..n], k - 1);
    LeavesSorted(f, n);
    LayerSorted(u, k - 1);
    PairsSum(s, x.pairs);
    MergeLeast(u, Pairs(s), x.row[k], x.pairs);
    MergeFrontier(u, Pairs(s), x.row[k], x.pairs);
    SumPrefix(u, f, x.row[k]);
  }

  /** The next pair of a level is that of the list. */
  lemma NextPairIs(f: seq<nat>, n: nat, k: nat, below: Node, x: Node)
    requires Frequencies(f, n) && 1 <= k && LevelOk(f, n, k, x) && Cheap(f, n, k, x) && below.l.needed == 0
    requires 1 < k ==> LevelOk(f, n, k - 1, below) && Cheap(f, n, k - 1, below)
    requires LinkOk(f, n, k - 1, below, x)
    ensures var v := Pairs(Layer(f[..n], k - 1));
            if x.l.nextPairFreq == MAX_INT32 then x.pairs == |v|
            else 1 < k && x.pairs < |v| && x.l.nextPairFreq == v[x.pairs]
  {
    hide RowSum, Pow2, Merge, Ascending, RowCost, Layer;
    var s, p := Layer(f[..n], k - 1), x.pairs;
    LayerSize(f[..n], k - 1);
    if x.l.nextPairFreq != MAX_INT32 {
      hide Cheap;
      MadeIsLeast(f, n, k - 1, below);
      assert Sum(s, 2 * p + 2) == Sum(s, 2 * p + 1) + s[2 * p + 1] && Sum(s, 2 * p + 1) == Sum(s, 2 * p) + s[2 * p];
      CheapWeight(f, n, k, x);
    }
  }

  lemma CheapWeight(f: seq<nat>, n: nat, k: nat, x: Node)
    requires |f| == n + 1 && 1 <= k && LevelOk(f, n, k, x) && Cheap(f, n, k, x)
    ensures 2 * x.pairs <= |Layer(f[..n], k - 1)| && x.weight == Sum(Layer(f[..n], k - 1), 2 * x.pairs)
  {
    hide RowSum, Pow2, Merge, Sum, Ascending, RowCost, Layer;
  }

  lemma {:induction false} RowCostSame(f: seq<nat>, r: seq<nat>, s: seq<nat>, k: nat)
    requires k < |r| && k < |s| && forall i | 1 <= i <= k :: r[i] == s[i] <= |f|
    ensures RowCost(f, r, k) == RowCost(f, s, k)
  {
    if k > 0 {
      RowCostSame(f, r, s, k - 1);
    }
  }

  lemma LeafCheap(f: seq<nat>, n: nat, k: nat, below: Node, x: Node)
    requires Frequencies(f, n) && 1 <= k && LevelOk(f, n, k, x) && Cheap(f, n, k, x) && below.l.needed == 0
    requires 1 < k ==> LevelOk(f, n, k - 1, below) && Cheap(f, n, k - 1, below)
    requires LinkOk(f, n, k - 1, below, x) && x.row[k] < n && x.l.nextCharFreq < x.l.nextPairFreq
    requires LevelOk(f, n, k, Leaf(f, k, x))
    ensures Cheap(f, n, k, Leaf(f, k, x))
  {
    hide RowSum, Pow2, Merge, Sum, RowCost, Layer, LinkOk, Ascending;
    NextPairIs(f, n, k, below, x);
    RowCostSame(f, x.row, Leaf(f, k, x).row, k - 1);
  }

  lemma PairCheap(f: seq<nat>, n: nat, k: nat, below: Node, x: Node)
    requires Frequencies(f, n) && 1 < k && LevelOk(f, n, k, x) && Cheap(f, n, k, x) && below.l.needed == 0
    requires LevelOk(f, n, k - 1, below) && Cheap(f, n, k - 1, below) && LinkOk(f, n, k - 1, below, x)
    requires 0 <= x.l.nextPairFreq <= x.l.nextCharFreq && x.l.nextPairFreq != MAX_INT32
    requires LevelOk(f, n, k, Pair(k, below, x))
    ensures Cheap(f, n, k, Pair(k, below, x))
  {
    hide RowSum, Pow2, Merge, Sum, RowCost, Layer, Ascending;
    var u, y := f[..n], Pair(k, below, x);
    var s := Layer(u, k - 1);
    NextPairIs(f, n, k, below, x);
    LeavesSorted(f, n);
    LayerSorted(u, k - 1);
    MadeIsLeast(f, n, k - 1, below);
    RowCostSame(f, below.row, y.row, k - 1);
    RowCostTop(f, below.row, k - 1);
    assert forall i | 1 <= i <= k :: y.row[i] == if i < k then below.row[i] else x.row[i];
  }

  lemma RowCostTop(f: seq<nat>, row: seq<nat>, k: nat)
    requires 0 < k < |row| && forall i | 1 <= i <= k :: row[i] <= |f|
    ensures RowCost(f, row, k) == RowCost(f, row, k - 1) + Sum(f, row[k])
  {
  }

  ghost predicate AllCheap(f: seq<nat>, n: nat, L: nat, t: seq<Node>)
    requires LevelsOk(f, n, L, t)
  {
    forall k | 1 <= k <= L :: Cheap(f, n, k, t[k])
  }

  // The start

  function StartLevel(f: seq<nat>, k: nat): Level
    requires 3 <= |f|
  {
    Level(f[1], f[2], if k == 1 then MAX_INT32 else f[0] + f[1], 0)
  }

  function StartRow(k: nat): seq<nat>
    requires k < MAX_BITS_LIMIT
  {
    seq(MAX_BITS_LIMIT, _ => 0)[k := 2]
  }

  function StartNode(f: seq<nat>, n: nat, L: nat, k: nat): Node
    requires 3 <= |f| && k <= L < MAX_BITS_LIMIT
  {
    if k == 0 then Node(Level(0, 0, 0, 0), seq(MAX_BITS_LIMIT, _ => 0), 0, 0)
    else Node(StartLevel(f, k).(needed := if k == L then 2 * n - 4 else 0), StartRow(k), 0, 0)
  }

  lemma {:induction false} ZeroSum(row: seq<nat>, k: nat)
    requires k < |row| && forall i | 1 <= i <= k :: row[i] == 0
    ensures RowSum(row, k) == 0
  {
    if k > 0 {
      ZeroSum(row, k - 1);
    }
  }

  lemma StartLevelOk(f: seq<nat>, n: nat, L: nat, k: nat)
    requires Frequencies(f, n) && 1 <= k <= L < MAX_BITS_LIMIT && f[0] + f[1] < MAX_INT32
    ensures LevelOk(f, n, k, StartNode(f, n, L, k))
  {
    hide Pow2;
    ZeroSum(StartRow(k), k - 1);
  }

  lemma StartLinkOk(f: seq<nat>, n: nat, L: nat, k: nat)
    requires Frequencies(f, n) && k < L < MAX_BITS_LIMIT && f[0] + f[1] < MAX_INT32
    ensures (0 < k ==> LevelOk(f, n, k, StartNode(f, n, L, k)))
    ensures LinkOk(f, n, k, StartNode(f, n, L, k), StartNode(f, n, L, k + 1))
  {
    hide Pow2, RowSum;
    if k > 0 {
      StartLevelOk(f, n, L, k);
      assert Sum(f, 2) == Sum(f, 1) + f[1] && Sum(f, 1) == Sum(f, 0) + f[0];
    }
  }

  lemma Start(f: seq<nat>, n: nat, L: nat, t: seq<Node>)
    requires Frequencies(f, n) && 2 <= L < MAX_BITS_LIMIT && n <= Pow2(L) && L * Sum(f, n) < MAX_INT32
    requires t == seq(L + 1, k requires 0 <= k <= L => StartNode(f, n, L, k))
    ensures LevelsOk(f, n, L, t) && AtLevel(L, t, L)
  {
    hide Pow2, RowSum, LevelOk, LinkOk;
    PairBound(f, n, L);
    forall k | 1 <= k <= L ensures LevelOk(f, n, k, t[k]) {
      StartLevelOk(f, n, L, k);
    }
    forall k | 0 <= k < L ensures LinkOk(f, n, k, t[k], t[k + 1]) {
      StartLinkOk(f, n, L, k);
    }
  }

  lemma PairBound(f: seq<nat>, n: nat, L: nat)
    requires 2 <= n <= |f| && 1 <= L && L * Sum(f, n) < MAX_INT32
    ensures f[0] + f[1] < MAX_INT32
  {
    SumGrows(f, 2, n);
    assert Sum(f, 2) == Sum(f, 1) + f[1] && Sum(f, 1) == Sum(f, 0) + f[0];
    MulMono(Sum(f, n), 1, L);
  }

  lemma {:induction false} ZeroCost(f: seq<nat>, row: seq<nat>, k: nat)
    requires k < |row| && forall i | 1 <= i <= k :: row[i] == 0
    ensures RowCost(f, row, k) == 0
  {
    if k > 0 {
      ZeroCost(f, row, k - 1);
    }
  }

  lemma StartCheap(f: seq<nat>, n: nat, L: nat, k: nat)
    requires Frequencies(f, n) && 1 <= k <= L < MAX_BITS_LIMIT && LevelOk(f, n, k, StartNode(f, n, L, k))
    ensures Cheap(f, n, k, StartNode(f, n, L, k))
  {
    hide Pow2, RowSum, Merge, RowCost;
    var u, s := f[..n], Layer(f[..n], k - 1);
    LeavesSorted(f, n);
    ZeroCost(f, StartRow(k), k - 1);
    if k > 1 {
      FirstTwo(u, k - 1);
      assert Sum(s, 2) == Sum(s, 1) + s[1] && Sum(s, 1) == Sum(s, 0) + s[0];
    }
  }

  lemma StartAllCheap(f: seq<nat>, n: nat, L: nat, t: seq<Node>)
    requires LevelsOk(f, n, L, t) && t == seq(L + 1, k requires 0 <= k <= L => StartNode(f, n, L, k))
    ensures AllCheap(f, n, L, t)
  {
    hide Cheap, LevelOk, LinkOk, Pow2, Sum;
    forall k | 1 <= k <= L ensures Cheap(f, n, k, t[k]) {
      assert LevelOk(f, n, k, t[k]);
      StartCheap(f, n, L, k);
    }
  }

  // The loop

  /** The levels as the arrays hold them. */
  ghost predicate Mirrors(t: seq<Node>, levels: seq<Level>, rows: seq<seq<nat>>) {
    && |t| <= |levels| == |rows| == MAX_BITS_LIMIT
    && forall k | 0 <= k < |t| :: t[k].l == levels[k] && t[k].row == rows[k]
  }

  /** Items made so far on the first k levels. */
  ghost function Progress(t: seq<Node>, k: nat): nat
    requires k < |t|
  {
    if k == 0 then 0 else Progress(t, k - 1) + if k < |t[k].row| then Items(t[k], k) else 0
  }

  lemma {:induction false} ProgressSame(t: seq<Node>, u: seq<Node>, k: nat, level: nat, extra: nat)
    requires k < |t| == |u|
    requires forall j | 1 <= j <= k :: j < |t[j].row| && j < |u[j].row|
    requires forall j | 1 <= j <= k :: Items(u[j], j) == Items(t[j], j) + if j == level then extra else 0
    ensures Progress(u, k) == Progress(t, k) + if 1 <= level <= k then extra else 0
  {
    if k > 0 {
      ProgressSame(t, u, k - 1, level, extra);
    }
  }

  lemma {:induction false} ProgressBound(f: seq<nat>, n: nat, L: nat, t: seq<Node>, k: nat)
    requires LevelsOk(f, n, L, t) && k <= L
    ensures Progress(t, k) <= k * (2 * n)
  {
    hide LevelOk, LinkOk, Pow2, Sum;
    if k > 0 {
      ProgressBound(f, n, L, t, k - 1);
      FewItems(f, n, L, t, k);
      AddTimes(k - 1, 1, 2 * n);
    }
  }

  /** The levels after the next item of level k. */
  ghost function Step(f: seq<nat>, L: nat, t: seq<Node>, k: nat): seq<Node>
    requires |t| == L + 1 && 1 <= k <= L && k < |t[k].row| && k <= |t[k - 1].row|
    requires if t[k].l.nextCharFreq < t[k].l.nextPairFreq then t[k].row[k] + 1 < |f| else 0 <= t[k].l.nextPairFreq
  {
    if t[k].l.nextCharFreq < t[k].l.nextPairFreq then Put(L, t, k, t[k - 1], Leaf(f, k, t[k]))
    else Put(L, t, k, WithNeeded(t[k - 1], 2), Pair(k, t[k - 1], t[k]))
  }

  lemma CanStep(f: seq<nat>, n: nat, L: nat, t: seq<Node>, k: nat)
    requires LevelsOk(f, n, L, t) && AtLevel(L, t, k)
    requires !(t[k].l.nextPairFreq == MAX_INT32 == t[k].l.nextCharFreq)
    ensures k < |t[k].row| == MAX_BITS_LIMIT && t[k].row[k] <= n && k <= |t[k - 1].row|
    ensures if t[k].l.nextCharFreq < t[k].l.nextPairFreq then t[k].row[k] < n
            else 1 < k && 0 <= t[k].l.nextPairFreq <= t[k].l.nextCharFreq && t[k].l.nextPairFreq != MAX_INT32
  {
    hide RowSum, Pow2, Sum, Ascending, LinkOk, LevelOk, Made;
    assert LevelOk(f, n, k, t[k]) && LinkOk(f, n, k - 1, t[k - 1], t[k]);
    if k > 1 {
      assert LevelOk(f, n, k - 1, t[k - 1]);
      MadeBound(f, n, L, t, k - 1);
      MulMono(Sum(f, n), k - 1, L);
    }
    CanMake(f, n, k, t[k - 1], t[k]);
  }

  lemma CanMake(f: seq<nat>, n: nat, k: nat, below: Node, x: Node)
    requires Frequencies(f, n) && 1 <= k && LevelOk(f, n, k, x) && below.l.needed == 0
    requires (1 < k ==> LevelOk(f, n, k - 1, below) && Made(f, below, k - 1) < MAX_INT32)
    requires LinkOk(f, n, k - 1, below, x) && !(x.l.nextPairFreq == MAX_INT32 == x.l.nextCharFreq)
    ensures k < |x.row| == MAX_BITS_LIMIT && x.row[k] <= n && (1 < k ==> |below.row| == MAX_BITS_LIMIT)
    ensures if x.l.nextCharFreq < x.l.nextPairFreq then x.row[k] < n
            else 1 < k && 0 <= x.l.nextPairFreq <= x.l.nextCharFreq && x.l.nextPairFreq != MAX_INT32
  {
    hide RowSum, Pow2, Sum, Ascending;
  }

  lemma StepOk(f: seq<nat>, n: nat, L: nat, t: seq<Node>, k: nat)
    requires LevelsOk(f, n, L, t) && AtLevel(L, t, k)
    requires !(t[k].l.nextPairFreq == MAX_INT32 == t[k].l.nextCharFreq)
    ensures k < |t[k].row| && k <= |t[k - 1].row|
    ensures if t[k].l.nextCharFreq < t[k].l.nextPairFreq then t[k].row[k] + 1 < |f| else 0 <= t[k].l.nextPairFreq
    ensures LevelsOk(f, n, L, Step(f, L, t, k)) && Progress(Step(f, L, t, k), L) == Progress(t, L) + 1
  {
    hide LevelOk, LinkOk, Pow2, Sum, RowSum, Made;
    CanStep(f, n, L, t, k);
    var t' := Step(f, L, t, k);
    assert LevelOk(f, n, k, t[k]) && LinkOk(f, n, k - 1, t[k - 1], t[k]);
    assert k > 1 ==> LevelOk(f, n, k - 1, t[k - 1]);
    if t[k].l.nextCharFreq < t[k].l.nextPairFreq {
      LeafOk(f, n, k, t[k]);
      LinkLeaf(f, n, k, t[k - 1], t[k]);
      LevelsAfter(f, n, L, t, k, t[k - 1], Leaf(f, k, t[k]), t');
    } else {
      PairOk(f, n, k, t[k - 1], t[k]);
      LevelTwo(f, n, k - 1, t[k - 1]);
      LevelsAfter(f, n, L, t, k, WithNeeded(t[k - 1], 2), Pair(k, t[k - 1], t[k]), t');
    }
    RowsHaveRoom(f, n, L, t);
    RowsHaveRoom(f, n, L, t');
    ProgressSame(t, t', L, k, 1);
  }

  lemma CheapSame(f: seq<nat>, n: nat, k: nat, x: Node, y: Node)
    requires |f| == n + 1 && LevelOk(f, n, k, x) && LevelOk(f, n, k, y) && Cheap(f, n, k, x)
    requires y.row == x.row && y.pairs == x.pairs && y.weight == x.weight
    ensures Cheap(f, n, k, y)
  {
    hide RowSum, Pow2, Sum, Layer, Pairs, RowCost;
  }

  lemma StepCheap(f: seq<nat>, n: nat, L: nat, t: seq<Node>, k: nat)
    requires LevelsOk(f, n, L, t) && AtLevel(L, t, k) && AllCheap(f, n, L, t)
    requires !(t[k].l.nextPairFreq == MAX_INT32 == t[k].l.nextCharFreq)
    requires k < |t[k].row| && k <= |t[k - 1].row|
    requires if t[k].l.nextCharFreq < t[k].l.nextPairFreq then t[k].row[k] + 1 < |f| else 0 <= t[k].l.nextPairFreq
    requires LevelsOk(f, n, L, Step(f, L, t, k))
    ensures AllCheap(f, n, L, Step(f, L, t, k))
  {
    hide Cheap, LevelOk, LinkOk, Pow2, Sum, RowSum, Made, Leaf, Pair;
    CanStep(f, n, L, t, k);
    var t' := Step(f, L, t, k);
    assert LevelOk(f, n, k, t[k]) && LinkOk(f, n, k - 1, t[k - 1], t[k]) && Cheap(f, n, k, t[k]);
    assert k > 1 ==> LevelOk(f, n, k - 1, t[k - 1]) && Cheap(f, n, k - 1, t[k - 1]);
    forall j | 1 <= j <= L ensures Cheap(f, n, j, t'[j]) {
      assert LevelOk(f, n, j, t[j]) && LevelOk(f, n, j, t'[j]) && Cheap(f, n, j, t[j]);
      if j != k {
        CheapSame(f, n, j, t[j], t'[j]);
      } else if t[k].l.nextCharFreq < t[k].l.nextPairFreq {
        LeafCheap(f, n, k, t[k - 1], t[k]);
      } else {
        PairCheap(f, n, k, t[k - 1], t[k]);
      }
    }
  }

  lemma RunOutCheap(f: seq<nat>, n: nat, L: nat, t: seq<Node>, t': seq<Node>)
    requires LevelsOk(f, n, L, t) && AllCheap(f, n, L, t) && LevelsOk(f, n, L, t')
    requires forall j | 1 <= j <= L ::
               t'[j].row == t[j].row && t'[j].pairs == t[j].pairs && t'[j].weight == t[j].weight
    ensures AllCheap(f, n, L, t')
  {
    hide Cheap, LevelOk, LinkOk, Pow2, Sum;
    forall j | 1 <= j <= L ensures Cheap(f, n, j, t'[j]) {
      assert LevelOk(f, n, j, t[j]) && LevelOk(f, n, j, t'[j]) && Cheap(f, n, j, t[j]);
      CheapSame(f, n, j, t[j], t'[j]);
    }
  }

  /** At the end, the counts at the top tell what the first 2 n - 2 items cost. */
  lemma CostAtEnd(f: seq<nat>, n: nat, L: nat, t: seq<Node>)
    requires LevelsOk(f, n, L, t) && AllCheap(f, n, L, t) && t[L].l.needed == 0
    ensures (forall i | 1 <= i <= L :: t[L].row[i] <= n) && 2 * n - 2 <= |Layer(f[..n], L)|
    ensures RowCost(f, t[L].row, L) == Sum(Layer(f[..n], L), 2 * n - 2)
  {
    hide Pow2, Sum, RowSum, Layer, LinkOk;
    assert LevelOk(f, n, L, t[L]) && Cheap(f, n, L, t[L]);
    MadeIsLeast(f, n, L, t[L]);
    RowCostTop(f, t[L].row, L);
  }

  lemma RowsHaveRoom(f: seq<nat>, n: nat, L: nat, t: seq<Node>)
    requires LevelsOk(f, n, L, t)
    ensures forall j | 1 <= j <= L :: j < |t[j].row|
  {
    hide LinkOk, Pow2, Sum, RowSum;
    forall j | 1 <= j <= L ensures j < |t[j].row| {
      assert LevelOk(f, n, j, t[j]);
    }
  }

  lemma LevelTwo(f: seq<nat>, n: nat, k: nat, x: Node)
    requires |f| == n + 1 && LevelOk(f, n, k, x)
    ensures LevelOk(f, n, k, WithNeeded(x, 2))
  {
    hide RowSum, Pow2;
  }

  lemma LinkLeaf(f: seq<nat>, n: nat, k: nat, below: Node, x: Node)
    requires Frequencies(f, n) && 1 <= k && LevelOk(f, n, k, x) && x.row[k] < n
    requires (1 < k ==> LevelOk(f, n, k - 1, below)) && LinkOk(f, n, k - 1, below, x) && below.l.needed == 0
    requires x.l.nextCharFreq < x.l.nextPairFreq
    ensures LinkOk(f, n, k - 1, below, Leaf(f, k, x))
  {
    hide RowSum, Pow2, Ascending, Sum;
  }

  /** What can be written when the next item of a level is made. */
  ghost predicate CanWrite(f: seq<nat>, L: nat, k: nat, levels: seq<Level>, rows: seq<seq<nat>>) {
    && 1 <= k <= L < |levels| == |rows| && k < |rows[k]| && k <= |rows[k - 1]|
    && if levels[k].nextCharFreq < levels[k].nextPairFreq then rows[k][k] + 1 < |f| else 0 <= levels[k].nextPairFreq
  }

  /** The arrays after it is made. */
  ghost predicate Written(f: seq<nat>, L: nat, k: nat, levels: seq<Level>, rows: seq<seq<nat>>,
                          levels': seq<Level>, rows': seq<seq<nat>>)
    requires CanWrite(f, L, k, levels, rows)
  {
    var l := levels[k];
    var leaf := l.nextCharFreq < l.nextPairFreq;
    var l' := if leaf then Level(l.nextCharFreq, f[rows[k][k] + 1], l.nextPairFreq, l.needed - 1)
              else Level(l.nextPairFreq, l.nextCharFreq, l.nextPairFreq, l.needed - 1);
    var low := if leaf then levels else levels[k - 1 := levels[k - 1].(needed := 2)];
    && rows' == rows[k := if leaf then rows[k][k := rows[k][k] + 1] else rows[k - 1][..k] + rows[k][k..]]
    && levels' == if l'.needed == 0 && k < L
                  then low[k := l'][k + 1 := levels[k + 1].(nextPairFreq := l.lastFreq + l'.lastFreq)]
                  else low[k := l']
  }

  method WriteItem(f: seq<nat>, L: nat, levels: array<Level>, leafCounts: array<seq<nat>>, level: nat)
    requires CanWrite(f, L, level, levels[..], leafCounts[..])
    modifies levels, leafCounts
    ensures Written(f, L, level, old(levels[..]), old(leafCounts[..]), levels[..], leafCounts[..])
  {
    var l := levels[level];
    var prevFreq := l.lastFreq;
    if l.nextCharFreq < l.nextPairFreq {
      var c := leafCounts[level][level] + 1;
      l := l.(lastFreq := l.nextCharFreq);
      leafCounts[level] := leafCounts[level][level := c];
      l := l.(nextCharFreq := f[c]);
    } else {
      l := l.(lastFreq := l.nextPairFreq);
      leafCounts[level] := leafCounts[level - 1][..level] + leafCounts[level][level..];
      levels[level - 1] := levels[level - 1].(needed := 2);
    }
    l := l.(needed := l.needed - 1);
    levels[level] := l;
    if l.needed == 0 && level < L {
      levels[level + 1] := levels[level + 1].(nextPairFreq := prevFreq + l.lastFreq);
    }
  }

  /** Makes the next item of a level. */
  method MakeItem(f: seq<nat>, ghost n: nat, L: nat, levels: array<Level>, leafCounts: array<seq<nat>>, level: nat,
                  ghost t: seq<Node>) returns (ghost t': seq<Node>)
    requires levels.Length == leafCounts.Length == MAX_BITS_LIMIT && Mirrors(t, levels[..], leafCounts[..])
    requires LevelsOk(f, n, L, t) && AtLevel(L, t, level) && AllCheap(f, n, L, t)
    requires !(levels[level].nextPairFreq == MAX_INT32 == levels[level].nextCharFreq)
    modifies levels, leafCounts
    ensures Mirrors(t', levels[..], leafCounts[..]) && LevelsOk(f, n, L, t') && AllCheap(f, n, L, t')
    ensures Progress(t', L) == Progress(t, L) + 1
    ensures |t'| == |t| && t'[level].l.needed == t[level].l.needed - 1
    ensures forall k | level < k <= L :: t'[k].l.needed == t[k].l.needed
  {
    hide LevelsOk, Progress, Frequencies, Leaf, Written, AllCheap;
    StepOk(f, n, L, t, level);
    StepCheap(f, n, L, t, level);
    t' := Step(f, L, t, level);
    ghost var levels0, rows0 := levels[..], leafCounts[..];
    assert t[level].l == levels0[level] && t[level].row == rows0[level] && t[level - 1].row == rows0[level - 1];
    WriteItem(f, L, levels, leafCounts, level);
    StepMirrors(f, L, t, level, levels0, rows0, levels[..], leafCounts[..]);
  }

  /** The arrays go on being those of the tree. */
  lemma StepMirrors(f: seq<nat>, L: nat, t: seq<Node>, k: nat, levels: seq<Level>, rows: seq<seq<nat>>,
                    levels': seq<Level>, rows': seq<seq<nat>>)
    requires Mirrors(t, levels, rows) && |t| == L + 1
    requires CanWrite(f, L, k, levels, rows) && Written(f, L, k, levels, rows, levels', rows')
    ensures Mirrors(Step(f, L, t, k), levels', rows')
  {
    var t' := Step(f, L, t, k);
    forall j | 0 <= j < |t'| ensures t'[j].l == levels'[j] && t'[j].row == rows'[j] {
      assert t[j].l == levels[j] && t[j].row == rows[j];
    }
  }

  /** Marks a level that has run out of leaves and pairs. */
  method EndLevel(ghost f: seq<nat>, ghost n: nat, ghost L: nat, levels: array<Level>, ghost rows: seq<seq<nat>>,
                  level: nat, ghost t: seq<Node>) returns (ghost t': seq<Node>)
    requires levels.Length == MAX_BITS_LIMIT && Mirrors(t, levels[..], rows)
    requires LevelsOk(f, n, L, t) && AtLevel(L, t, level) && AllCheap(f, n, L, t)
    requires levels[level].nextPairFreq == MAX_INT32 == levels[level].nextCharFreq
    modifies levels
    ensures Mirrors(t', levels[..], rows) && level < L && LevelsOk(f, n, L, t') && AtLevel(L, t', level + 1)
    ensures AllCheap(f, n, L, t')
    ensures Progress(t', L) == Progress(t, L)
  {
    hide LevelsOk, Progress, AllCheap;
    t' := if level < L then t[level := WithNeeded(t[level], 0)][level + 1 := WithPair(t[level + 1], MAX_INT32)] else t;
    RunOut(f, n, L, t, level, t');
    RunOutCheap(f, n, L, t, t');
    RowsHaveRoom(f, n, L, t);
    ProgressSame(t, t', L, 0, 0);
    levels[level] := levels[level].(needed := 0);
    levels[level + 1] := levels[level + 1].(nextPairFreq := MAX_INT32);
  }

  /** Sets up the levels. */
  method StartLevels(f: seq<nat>, n: nat, L: nat)
      returns (levels: array<Level>, leafCounts: array<seq<nat>>, ghost t: seq<Node>)
    requires Frequencies(f, n) && 2 <= L < MAX_BITS_LIMIT
    ensures fresh(levels) && fresh(leafCounts) && levels.Length == leafCounts.Length == MAX_BITS_LIMIT
    ensures Mirrors(t, levels[..], leafCounts[..])
    ensures t == seq(L + 1, k requires 0 <= k <= L => StartNode(f, n, L, k))
  {
    levels := new Level[MAX_BITS_LIMIT](_ => Level(0, 0, 0, 0));
    leafCounts := new seq<nat>[MAX_BITS_LIMIT](_ => seq(MAX_BITS_LIMIT, _ => 0));
    var level := 1;
    while level <= L
      invariant 1 <= level <= L + 1
      invariant forall k | 1 <= k < level :: levels[k] == StartLevel(f, k) && leafCounts[k] == StartRow(k)
      invariant forall k | level <= k <= L :: leafCounts[k] == seq(MAX_BITS_LIMIT, _ => 0)
      invariant levels[0] == Level(0, 0, 0, 0) && leafCounts[0] == seq(MAX_BITS_LIMIT, _ => 0)
    {
      levels[level] := Level(f[1], f[2], f[0] + f[1], 0);
      leafCounts[level] := leafCounts[level][level := 2];
      if level == 1 {
        levels[level] := levels[level].(nextPairFreq := MAX_INT32);
      }
      level := level + 1;
    }
    levels[L] := levels[L].(needed := 2 * n - 4);
    t := seq(L + 1, k requires 0 <= k <= L => StartNode(f, n, L, k));
  }

  /** Moves down to the lowest level in a row that still needs items. */
  method GoDown(ghost f: seq<nat>, ghost n: nat, ghost L: nat, levels: array<Level>, start: nat, ghost t: seq<Node>)
    returns (level: nat)
    requires levels.Length == MAX_BITS_LIMIT && LevelsOk(f, n, L, t) && forall k | 0 <= k <= L :: t[k].l == levels[k]
    requires 1 <= start <= L && forall k | start <= k <= L :: 0 < levels[k].needed
    ensures level <= start && AtLevel(L, t, level)
  {
    hide LevelOk, LinkOk, Sum, Pow2, Frequencies;
    BottomReady(f, n, L, t);
    level := start;
    while levels[level - 1].needed > 0
      invariant 1 <= level <= start
      invariant forall k | level <= k <= L :: 0 < levels[k].needed
      decreases level
    {
      level := level - 1;
    }
    NeededNat(f, n, L, t, level);
  }

  /** Makes the items of the top level, and those of lower levels as they are needed. */
  method MakeItems(f: seq<nat>, n: nat, L: nat) returns (counts: seq<nat>)
    requires Frequencies(f, n) && 2 <= L < MAX_BITS_LIMIT && n <= Pow2(L) && L * Sum(f, n) < MAX_INT32
    ensures L < |counts| && counts[0] == 0 && counts[L] == n && Ascending(counts, L)
    ensures RowSum(counts, L) == (2 * n - 2) * Pow2(L - 1)
    ensures (forall i | 1 <= i <= L :: counts[i] <= n) && 2 * n - 2 <= |Layer(f[..n], L)|
    ensures RowCost(f, counts, L) == Sum(Layer(f[..n], L), 2 * n - 2)
  {
    hide LevelsOk, Progress, Pow2, Sum, Frequencies, AllCheap, Layer, RowCost;
    var levels, leafCounts;
    ghost var t;
    levels, leafCounts, t := StartLevels(f, n, L);
    Start(f, n, L, t);
    StartAllCheap(f, n, L, t);
    var level := L;
    while true
      invariant 1 <= level <= L && fresh(levels) && fresh(leafCounts)
                && levels.Length == leafCounts.Length == MAX_BITS_LIMIT
      invariant Mirrors(t, levels[..], leafCounts[..]) && LevelsOk(f, n, L, t) && AtLevel(L, t, level)
      invariant AllCheap(f, n, L, t)
      decreases L * (2 * n) - Progress(t, L), L - level
    {
      ProgressBound(f, n, L, t, L);
      if levels[level].nextPairFreq == MAX_INT32 && levels[level].nextCharFreq == MAX_INT32 {
        t := EndLevel(f, n, L, levels, leafCounts[..], level, t);
        level := level + 1;
        continue;
      }
      t := MakeItem(f, n, L, levels, leafCounts, level, t);
      ProgressBound(f, n, L, t, L);
      if levels[level].needed == 0 {
        if level == L {
          break;
        }
        level := level + 1;
      } else {
        level := GoDown(f, n, L, levels, level, t);
      }
    }
    AllLeaves(f, n, L, t);
    CostAtEnd(f, n, L, t);
    counts := leafCounts[L];
  }

  lemma BottomReady(f: seq<nat>, n: nat, L: nat, t: seq<Node>)
    requires LevelsOk(f, n, L, t)
    ensures t[0].l.needed == 0
  {
  }

  lemma NeededNat(f: seq<nat>, n: nat, L: nat, t: seq<Node>, k: nat)
    requires LevelsOk(f, n, L, t) && 1 <= k <= L
    ensures 0 <= t[k - 1].l.needed
  {
    hide LinkOk, Pow2, Sum, RowSum;
    assert k > 1 ==> LevelOk(f, n, k - 1, t[k - 1]);
  }

  // The counts

  datatype LiteralNode = LiteralNode(literal: nat, freq: nat)

  function Freqs(list: seq<LiteralNode>): (f: seq<nat>)
    ensures |f| == |list| && forall i | 0 <= i < |f| :: f[i] == list[i].freq
  {
    seq(|list|, i requires 0 <= i < |list| => list[i].freq)
  }

  /** Code words of each length, in units of the longest. */
  function KraftCounts(counts: seq<nat>, k: nat, L: nat): nat
    requires k < |counts| && k <= L
  {
    if k == 0 then 0 else KraftCounts(counts, k - 1, L) + counts[k] * Pow2(L - k)
  }

  /** How many symbols have codes of 1 to k bits. */
  function CountSum(counts: seq<nat>, k: nat): nat
    requires k < |counts|
  {
    if k == 0 then 0 else CountSum(counts, k - 1) + counts[k]
  }

  /** The counts of codes of each length from the counts of leaves at each level: the top level is that
      of the codes of one bit. */
  ghost predicate CountsOf(c: seq<nat>, L: nat, counts: seq<nat>, k: nat)
    requires k <= L < |c|
  {
    && k < |counts| && forall i | 1 <= i <= k :: counts[i] + c[L - i] == c[L - i + 1]
  }

  lemma {:induction false} CountsTotal(c: seq<nat>, L: nat, counts: seq<nat>, k: nat)
    requires k <= L < |c| && CountsOf(c, L, counts, k)
    ensures CountSum(counts, k) + c[L - k] == c[L]
  {
    if k > 0 {
      CountsTotal(c, L, counts, k - 1);
    }
  }

  /** Summation by parts. */
  lemma {:induction false} CountsKraft(c: seq<nat>, L: nat, counts: seq<nat>, k: nat)
    requires k <= L < |c| && CountsOf(c, L, counts, k)
    ensures KraftCounts(counts, k, L) == c[L] * Pow2(L) - RowSum(c, L) + RowSum(c, L - k) - c[L - k] * Pow2(L - k)
  {
    if k > 0 {
      CountsKraft(c, L, counts, k - 1);
      var m := L - k + 1;
      ByParts(counts[k], c[m - 1], Pow2(m - 1));
    }
  }

  lemma ByParts(x: nat, b: nat, m: nat)
    ensures x * m == (x + b) * (2 * m) - (x + b) * m - b * m
  {
  }

  /** The frequencies bitCounts is called with. */
  ghost predicate Ranked(list: seq<LiteralNode>) {
    && (forall i | 0 <= i < |list| :: 0 < list[i].freq)
    && (forall i, j | 0 <= i <= j < |list| :: list[i].freq <= list[j].freq)
  }

  function TopLevel(n: nat, maxBits: nat): nat
    requires 0 < n
  {
    if maxBits > n - 1 then n - 1 else maxBits
  }

  /** The cost of a code for symbols in the order of their frequencies, the last ones with the shortest codes; bit by
      bit, up to bit k. */
  function CodeCost(f: seq<nat>, counts: seq<nat>, k: nat): nat
    requires k < |counts| && CountSum(counts, k) <= |f|
  {
    if k == 0 then 0 else CodeCost(f, counts, k - 1) + Sum(f, |f| - CountSum(counts, k - 1))
  }

  lemma {:induction false} CostOfCounts(f: seq<nat>, u: seq<nat>, c: seq<nat>, L: nat, counts: seq<nat>, k: nat)
    requires k <= L < |c| && CountsOf(c, L, counts, k) && c[L] == |u| <= |f| && u == f[..|u|]
    requires forall i | 1 <= i <= L :: c[i] <= |u|
    ensures CountSum(counts, k) <= |u| && CodeCost(u, counts, k) + RowCost(f, c, L - k) == RowCost(f, c, L)
    ensures RowCost(f, c, 0) == 0
  {
    CountsTotal(c, L, counts, k);
    if k > 0 {
      CountsTotal(c, L, counts, k - 1);
      CostOfCounts(f, u, c, L, counts, k - 1);
      RowCostTop(f, c, L - k + 1);
      SumPrefix(u, f, c[L - k + 1]);
    }
  }

  /** No other lengths cost less. */
  lemma NoneCheaper(f: seq<nat>, n: nat, maxBits: nat, L: nat, l: seq<nat>)
    requires Frequencies(f, n) && L == TopLevel(n, maxBits) && 0 < L && |l| == n
    requires (forall i | 0 <= i < n :: 1 <= l[i] <= maxBits) && Kraft(l, n, maxBits) <= Pow2(maxBits)
    requires 2 * n - 2 <= |Layer(f[..n], L)|
    ensures Sum(Layer(f[..n], L), 2 * n - 2) <= Total(f[..n], l, n)
  {
    hide Kraft, Layer, Sum, Total, Pow2;
    LeavesSorted(f, n);
    if L == maxBits {
      NoCheaper(f[..n], l, L);
    } else {
      ClampedFits(l, maxBits);
      ClampedTotal(f[..n], l, L, n);
      NoCheaper(f[..n], Clamped(l, L), L);
    }
  }

  /** How many symbols get codes of each length: all of them, none longer than the limit, and together
      a complete code. No other code within the limit costs less. */
  method BitCounts(list: seq<LiteralNode>, maxBits: nat) returns (bitCount: seq<nat>)
    requires 3 <= |list| <= Pow2(maxBits) && maxBits < MAX_BITS_LIMIT && Ranked(list)
    requires TopLevel(|list|, maxBits) * Sum(Freqs(list), |list|) < MAX_INT32
    ensures var L := TopLevel(|list|, maxBits);
            && |bitCount| == L + 1 && bitCount[0] == 0
            && CountSum(bitCount, L) == |list| && KraftCounts(bitCount, L, L) == Pow2(L)
            && forall l: seq<nat> |
                 && |l| == |list| && (forall i | 0 <= i < |l| :: 1 <= l[i] <= maxBits)
                 && Kraft(l, |l|, maxBits) <= Pow2(maxBits) ::
                 CodeCost(Freqs(list), bitCount, L) <= Total(Freqs(list), l, |l|)
  {
    hide Sum, RowSum, RowCost, Total, Layer, Kraft, CodeCost;
    var n := |list|;
    var f := Freqs(list) + [MAX_INT32];
    var L := TopLevel(n, maxBits);
    Begin(list, maxBits, f, L);
    var counts := MakeItems(f, n, L);
    bitCount := seq(L + 1, _ => 0);
    var bits := 1;
    var level := L;
    while level > 0
      invariant 0 <= level && level + bits == L + 1 && 1 <= bits && L < |counts| && |bitCount| == L + 1
                && bitCount[0] == 0
      invariant CountsOf(counts, L, bitCount, bits - 1)
    {
      bitCount := bitCount[bits := counts[level] - counts[level - 1]];
      bits := bits + 1;
      level := level - 1;
    }
    CountsTotal(counts, L, bitCount, L);
    CountsKraft(counts, L, bitCount, L);
    Complete(n, L, counts);
    var u := Freqs(list);
    assert u == f[..n];
    CostOfCounts(f, u, counts, L, bitCount, L);
    forall l: seq<nat> |
      && |l| == n && (forall i | 0 <= i < n :: 1 <= l[i] <= maxBits) && Kraft(l, n, maxBits) <= Pow2(maxBits)
      ensures CodeCost(u, bitCount, L) <= Total(u, l, n)
    {
      NoneCheaper(f, n, maxBits, L, l);
    }
  }

  lemma Complete(n: nat, L: nat, c: seq<nat>)
    requires 1 <= n && 1 <= L < |c| && c[0] == 0 && c[L] == n && RowSum(c, L) == (2 * n - 2) * Pow2(L - 1)
    ensures c[L] * Pow2(L) - RowSum(c, L) + RowSum(c, 0) - c[0] * Pow2(0) == Pow2(L)
  {
    Rearrange(n - 1, Pow2(L - 1));
    AddTimes(n - 1, 1, Pow2(L));
  }

  lemma Begin(list: seq<LiteralNode>, maxBits: nat, f: seq<nat>, L: nat)
    requires 3 <= |list| <= Pow2(maxBits) && maxBits < MAX_BITS_LIMIT && Ranked(list)
    requires TopLevel(|list|, maxBits) * Sum(Freqs(list), |list|) < MAX_INT32
    requires f == Freqs(list) + [MAX_INT32] && L == TopLevel(|list|, maxBits)
    ensures Frequencies(f, |list|) && 2 <= L < MAX_BITS_LIMIT && |list| <= Pow2(L) && L * Sum(f, |list|) < MAX_INT32
  {
    hide Pow2, Sum, Frequencies, TopLevel, Freqs;
    var n := |list|;
    SumPrefix(Freqs(list), f, n);
    TopLevelFits(n, maxBits);
    Smaller(Sum(f, n), L);
    SumAbove(f, n);
    WithSentinel(list, f);
  }

  lemma Smaller(s: nat, a: nat)
    requires 1 <= a && a * s < MAX_INT32
    ensures s < MAX_INT32
  {
    MulMono(s, 1, a);
  }

  lemma WithSentinel(list: seq<LiteralNode>, f: seq<nat>)
    requires 3 <= |list| && Ranked(list) && f == Freqs(list) + [MAX_INT32] && f[|list| - 1] < MAX_INT32
    ensures Frequencies(f, |list|)
  {
    var n := |list|;
    forall i, j | 0 <= i <= j <= n ensures f[i] <= f[j] {
      if j < n {
        assert list[i].freq <= list[j].freq;
      } else if i < n {
        assert list[i].freq <= list[n - 1].freq;
      }
    }
  }

  lemma TopLevelFits(n: nat, maxBits: nat)
    requires 3 <= n <= Pow2(maxBits)
    ensures 2 <= TopLevel(n, maxBits) <= maxBits && n <= Pow2(TopLevel(n, maxBits))
  {
    Doubling(n - 1);
    assert Pow2(1) == 2 && Pow2(0) == 1;
  }

  lemma SumAbove(f: seq<nat>, n: nat)
    requires 1 <= n <= |f|
    ensures f[n - 1] <= Sum(f, n)
  {
  }
}
