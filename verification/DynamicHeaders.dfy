/** The header of a dynamic block (section 3.2.7 of RFC 1951), as it is written. */
module DynamicHeaders {
  import opened Bits
  import opened Canonical
  import opened Deflate
  import opened Tokens

  // Runs of code lengths

  /** A code length, the one before 3 to 6 times again, or 3 to 138 zeros. */
  datatype Item = Length(v: nat) | Again(k: nat) | Zeros(k: nat)

  predicate Codable(x: Item) {
    match x
    case Length(v) => v < 16
    case Again(k) => 3 <= k <= 6
    case Zeros(k) => 3 <= k <= 138
  }

  /** Its symbol, the number of bits after that, and their value. */
  function Coded(x: Item): (nat, nat, int) {
    match x
    case Length(v) => (v, 0, 0)
    case Again(k) => (16, 2, k - 3)
    case Zeros(k) => if k < 11 then (17, 3, k - 3) else (18, 7, k - 11)
  }

  /** The lengths an item stands for, after those in acc. */
  function Meant(acc: seq<nat>, x: Item): seq<nat>
    requires x.Again? ==> acc != []
  {
    match x
    case Length(v) => [v]
    case Again(k) => seq(k, _ => acc[|acc| - 1])
    case Zeros(k) => seq(k, _ => 0)
  }

  /** Its extra bits suffice. */
  lemma ItemFits(x: Item)
    requires Codable(x)
    ensures Coded(x).0 < 19 && 0 <= Coded(x).2 < Pow2(Coded(x).1)
  {
    Pow2Values();
  }

  /** An item written is read as what it stands for. */
  lemma ItemReads(d: seq<byte>, p: nat, acc: seq<nat>, x: Item)
    requires Codable(x) && (x.Again? ==> acc != []) && FieldAt(d, p, Coded(x).1, Coded(x).2)
    ensures RunOf(d, p, Coded(x).0, acc) == Some((Meant(acc, x), p + Coded(x).1))
  {
    hide Num;
  }

  /** Of the symbols that stand for zeros, just one is read as k zeros, with just one value of its extra
      bits. */
  lemma ZerosRead(d: seq<byte>, p: nat, acc: seq<nat>, sym: nat, k: nat)
    requires sym in {17, 18} && 3 <= k <= 138 && p <= 8 * |d|
    ensures var r := RunOf(d, p, sym, acc);
            r.Some? && r.value.0 == seq(k, _ => 0) <==>
            if k <= 10 then sym == 17 && FieldAt(d, p, 3, k - 3) else sym == 18 && FieldAt(d, p, 7, k - 11)
  {
    hide Num;
    Pow2Values();
    assert Has(d, p, 3) ==> Num(d, p, 3) < Pow2(3);
    if RunOf(d, p, sym, acc).Some? {
      var run := RunOf(d, p, sym, acc).value.0;
      assert |run| == k ==> run == seq(k, _ => 0);
    }
  }

  /** Symbol 16 repeats the last length, 3 to 6 times by the value of two bits. */
  lemma AgainRead(d: seq<byte>, p: nat, acc: seq<nat>, k: nat)
    requires 3 <= k <= 6 && acc != [] && p <= 8 * |d|
    ensures var r := RunOf(d, p, 16, acc);
            r.Some? && r.value.0 == seq(k, _ => acc[|acc| - 1]) <==> FieldAt(d, p, 2, k - 3)
  {
    hide Num;
    if RunOf(d, p, 16, acc).Some? {
      var run := RunOf(d, p, 16, acc).value.0;
      assert |run| == k ==> run == seq(k, _ => acc[|acc| - 1]);
    }
  }

  /** Items stand from bit p on, written with the code cl, up to bit q, and stand for the lengths in all but
      acc. */
  predicate ItemsAt(cl: seq<nat>, d: seq<byte>, p: nat, acc: seq<nat>, items: seq<Item>, all: seq<nat>, q: nat)
    decreases |items|
  {
    if items == [] then p == q && acc == all
    else
      var x, s := items[0], Coded(items[0]).0;
      && Codable(x) && (x.Again? ==> acc != []) && Stands(cl, d, p, s)
      && FieldAt(d, p + LenOf(cl, s), Coded(x).1, Coded(x).2)
      && ItemsAt(cl, d, p + LenOf(cl, s) + Coded(x).1, acc + Meant(acc, x), items[1..], all, q)
  }

  lemma {:induction false} ItemsGrow(cl: seq<nat>, d: seq<byte>, p: nat, acc: seq<nat>, items: seq<Item>,
                                     all: seq<nat>, q: nat)
    requires ItemsAt(cl, d, p, acc, items, all, q)
    ensures |acc| <= |all| && (items != [] ==> |acc| < |all|)
    decreases |items|
  {
    hide Stands, FieldAt;
    if items != [] {
      var x, s := items[0], Coded(items[0]).0;
      ItemsGrow(cl, d, p + LenOf(cl, s) + Coded(x).1, acc + Meant(acc, x), items[1..], all, q);
    }
  }

  /** They are read as those lengths. */
  lemma {:induction false} ItemsRead(cl: seq<nat>, d: seq<byte>, p: nat, acc: seq<nat>, items: seq<Item>,
                                     all: seq<nat>, q: nat)
    requires ItemsAt(cl, d, p, acc, items, all, q) && p <= 8 * |d|
    ensures CodeLens(d, p, cl, acc, |all|) == Some((all, q))
    decreases |items|
  {
    hide Num, RunOf, SymbolAt, CodeAt, Codable, Meant, Coded;
    if items != [] {
      ItemsGrow(cl, d, p, acc, items, all, q);
      var x, s := items[0], Coded(items[0]).0;
      var p' := p + LenOf(cl, s);
      var acc' := acc + Meant(acc, x);
      SymbolAtIs(cl, d, p, s);
      ItemReads(d, p', acc, x);
      ItemsGrow(cl, d, p' + Coded(x).1, acc', items[1..], all, q);
      ItemsRead(cl, d, p' + Coded(x).1, acc', items[1..], all, q);
    }
  }

  /** The item a symbol read with its extra bits is. */
  lemma ItemOf(d: seq<byte>, p: nat, acc: seq<nat>, s: nat) returns (x: Item)
    requires p <= 8 * |d| && RunOf(d, p, s, acc).Some?
    ensures Codable(x) && (x.Again? ==> acc != []) && Coded(x).0 == s && FieldAt(d, p, Coded(x).1, Coded(x).2)
    ensures RunOf(d, p, s, acc) == Some((Meant(acc, x), p + Coded(x).1))
  {
    hide Num;
    Pow2Values();
    x := if s < 16 then Length(s)
         else if s == 16 then Again(3 + Num(d, p, 2))
         else if s == 17 then Zeros(3 + Num(d, p, 3))
         else Zeros(11 + Num(d, p, 7));
    if s < 16 {
      NoBits(d, p);
    }
    ItemReads(d, p, acc, x);
  }

  lemma NoBits(d: seq<byte>, p: nat)
    requires p <= 8 * |d|
    ensures FieldAt(d, p, 0, 0)
  {
  }

  /** Any lengths read have been so written. */
  lemma {:induction false} ItemsWritten(cl: seq<nat>, d: seq<byte>, p: nat, acc: seq<nat>, n: nat)
    returns (items: seq<Item>)
    requires p <= 8 * |d| && CodeLens(d, p, cl, acc, n).Some?
    ensures ItemsAt(cl, d, p, acc, items, CodeLens(d, p, cl, acc, n).value.0, CodeLens(d, p, cl, acc, n).value.1)
    decreases 8 * |d| - p
  {
    hide Num, RunOf, SymbolAt, CodeBits, Code, Codable, Meant, Coded, FieldAt;
    if |acc| == n {
      items := [];
    } else {
      var s := SymbolAt(cl, d, p).value;
      var x := ItemOf(d, p + cl[s], acc, s);
      var rest := ItemsWritten(cl, d, p + cl[s] + Coded(x).1, acc + Meant(acc, x), n);
      items := [x] + rest;
      assert items[1..] == rest;
    }
  }

  // The code length code

  /** The code length whose code length comes at place i: the repeats, no code, and then from 8 outwards. */
  function InOrder(i: nat): (c: nat)
    requires i < 19
    ensures c < 19
  {
    if i < 3 then 16 + i
    else if i == 3 then 0
    else if i % 2 == 0 then 8 + (i - 4) / 2
    else 7 - (i - 5) / 2
  }

  /** That is the order of the decoder. */
  lemma OrderIs(i: nat)
    requires i < 19
    ensures CODE_ORDER[i] == InOrder(i)
  {
  }

  /** The places are all different. */
  lemma OrderUnique(i: nat, j: nat)
    requires i < j < 19
    ensures InOrder(i) != InOrder(j)
  {
  }

  /** The first n code length code lengths stand from bit p on. */
  predicate ClensAt(d: seq<byte>, p: nat, cl: seq<nat>, n: nat) {
    && n <= 19 == |cl| && Has(d, p, 3 * n)
    && (forall i | 0 <= i < n :: FieldAt(d, p + 3 * i, 3, cl[InOrder(i)]))
    && (forall i | n <= i < 19 :: cl[InOrder(i)] == 0)
  }

  lemma {:induction false} ClensRead(d: seq<byte>, p: nat, cl: seq<nat>, n: nat, m: nat)
    requires ClensAt(d, p, cl, n) && m <= n
    ensures forall i | 0 <= i < 19 :: ClenLens(d, p, m)[InOrder(i)] == if i < m then cl[InOrder(i)] else 0
  {
    hide Num, InOrder;
    if 0 < m {
      ClensRead(d, p, cl, n, m - 1);
      OrderIs(m - 1);
      assert FieldAt(d, p + 3 * (m - 1), 3, cl[InOrder(m - 1)]);
      forall i | 0 <= i < 19 && i != m - 1 ensures InOrder(i) != InOrder(m - 1) {
        if i < m - 1 {
          OrderUnique(i, m - 1);
        } else {
          OrderUnique(m - 1, i);
        }
      }
    }
  }

  /** Every code length has its place. */
  function PlaceOf(c: nat): (i: nat)
    requires c < 19
    ensures i < 19 && InOrder(i) == c
  {
    if 16 <= c then c - 16 else if c == 0 then 3 else if 8 <= c then 4 + 2 * (c - 8) else 5 + 2 * (7 - c)
  }

  lemma ClensAre(d: seq<byte>, p: nat, cl: seq<nat>, n: nat)
    requires ClensAt(d, p, cl, n)
    ensures ClenLens(d, p, n) == cl
  {
    hide InOrder, PlaceOf, Num, ClenLens;
    ClensRead(d, p, cl, n, n);
    forall c | 0 <= c < 19 ensures ClenLens(d, p, n)[c] == cl[c] {
      assert InOrder(PlaceOf(c)) == c;
    }
  }

  // The header

  /** The header of a block with the codes lit and dist stands at bits p to q, with nclen of the code length
      code lengths in cl, and the lengths given by items. */
  predicate HeaderAt(d: seq<byte>, p: nat, lit: seq<nat>, dist: seq<nat>, nclen: nat, cl: seq<nat>,
                     items: seq<Item>, q: nat)
  {
    && 257 <= |lit| <= 286 && 1 <= |dist| <= 30 && 4 <= nclen <= 19
    && FieldAt(d, p, 5, |lit| - 257) && FieldAt(d, p + 5, 5, |dist| - 1) && FieldAt(d, p + 10, 4, nclen - 4)
    && ClensAt(d, p + 14, cl, nclen) && ItemsAt(cl, d, p + 14 + 3 * nclen, [], items, lit + dist, q)
  }

  /** It is read as those two codes. */
  lemma CodesRead(d: seq<byte>, p: nat, lit: seq<nat>, dist: seq<nat>, nclen: nat, cl: seq<nat>,
                    items: seq<Item>, q: nat)
    requires HeaderAt(d, p, lit, dist, nclen, cl, items, q) && Accepted(cl) && Accepted(lit) && Accepted(dist)
    ensures DynamicCodes(d, p) == Some((lit, dist, q))
  {
    hide Num, Accepted, ItemsAt, ClensAt, ClenLens, CodeLens;
    ClensRoom(d, p + 14, cl, nclen);
    ClensAre(d, p + 14, cl, nclen);
    ItemsRead(cl, d, p + 14 + 3 * nclen, [], items, lit + dist, q);
    assert (lit + dist)[..|lit|] == lit && (lit + dist)[|lit|..] == dist;
  }

  lemma ClensRoom(d: seq<byte>, p: nat, cl: seq<nat>, n: nat)
    requires ClensAt(d, p, cl, n)
    ensures Has(d, p, 3 * n)
  {
  }

  lemma {:induction false} ClensWritten(d: seq<byte>, p: nat, n: nat)
    requires n <= 19 && Has(d, p, 3 * n)
    ensures ClensAt(d, p, ClenLens(d, p, n), n)
  {
    hide Num, InOrder;
    if 0 < n {
      ClensWritten(d, p, n - 1);
      OrderIs(n - 1);
      forall i | 0 <= i < 19 && i != n - 1 ensures InOrder(i) != InOrder(n - 1) {
        if i < n - 1 {
          OrderUnique(i, n - 1);
        } else {
          OrderUnique(n - 1, i);
        }
      }
    }
  }

  /** Any header that is read has been so written. */
  lemma CodesWritten(d: seq<byte>, p: nat) returns (nclen: nat, cl: seq<nat>, items: seq<Item>)
    requires DynamicCodes(d, p).Some?
    ensures Accepted(cl) && Accepted(DynamicCodes(d, p).value.0) && Accepted(DynamicCodes(d, p).value.1)
    ensures var c := DynamicCodes(d, p).value; HeaderAt(d, p, c.0, c.1, nclen, cl, items, c.2)
  {
    hide Num, Accepted, ItemsAt, ClensAt, ClenLens, CodeLens;
    nclen := Num(d, p + 10, 4) + 4;
    cl := ClenLens(d, p + 14, nclen);
    ClensWritten(d, p + 14, nclen);
    var n := Num(d, p, 5) + 257 + Num(d, p + 5, 5) + 1;
    items := ItemsWritten(cl, d, p + 14 + 3 * nclen, [], n);
    var all := CodeLens(d, p + 14 + 3 * nclen, cl, [], n).value.0;
    assert all[..Num(d, p, 5) + 257] + all[Num(d, p, 5) + 257..] == all;
  }

  /** More than 286 literal/length codes or 30 distance codes are refused. */
  lemma TooManyCodes(d: seq<byte>, p: nat)
    requires Has(d, p, 14) && (Num(d, p, 5) + 257 > 286 || Num(d, p + 5, 5) + 1 > 30)
    ensures DynamicCodes(d, p) == None
  {
    hide Num, ClenLens, CodeLens;
  }
}
