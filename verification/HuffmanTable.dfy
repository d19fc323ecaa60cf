/** The two-level lookup table of the inflater. A primary table is indexed by the next
    `width` bits; a slot holds symbol * 16 + length, or the number of a link table when the
    code is longer than `width`. Codes stand in the index with their first bit lowest, so
    table positions are bit-reversed codes. */
module HuffmanTable {
  import opened Bits
  import opened Canonical

  /** Code lengths are below this: they are stored in four bits. */
  const MAX_CODE_LEN: nat := 16

  function Entry(l: seq<nat>, i: nat): (e: nat)
    requires i < |l|
  {
    i * 16 + l[i]
  }

  lemma PackedParts(v: nat, n: nat)
    requires n < 16
    ensures (v * 16 + n) % 16 == n && (v * 16 + n) / 16 == v
  {
  }

  lemma EntryParts(l: seq<nat>, i: nat)
    requires i < |l| && l[i] < MAX_CODE_LEN
    ensures Entry(l, i) % 16 == l[i] && Entry(l, i) / 16 == i
  {
  }

  /** The entry of the symbol among the first k, with lo < length <= hi, whose code starts
      the bits of x; 0 if there is none. */
  function Slot(l: seq<nat>, k: nat, lo: nat, hi: nat, x: nat): (e: nat)
    requires k <= |l|
  {
    if k == 0 then 0
    else if lo < l[k - 1] <= hi && Matches(l, k - 1, x) then Entry(l, k - 1)
    else Slot(l, k - 1, lo, hi, x)
  }

  /** Slot x of the primary table once the first k symbols are entered. */
  function Primary(l: seq<nat>, k: nat, w: nat, x: nat): nat
    requires k <= |l|
  {
    var s := Slot(l, k, 0, w, x);
    var link := End(l, |l|, w);
    if s != 0 then s
    else if w < MaxLen(l, |l|) && link <= Rev(x, w) then (Rev(x, w) - link) * 16 + w + 1
    else 0
  }

  /** Slot t of link table q once the first k symbols are entered. */
  function Linked(l: seq<nat>, k: nat, w: nat, q: nat, t: nat): nat
    requires k <= |l|
  {
    Slot(l, k, w, MAX_CODE_LEN, Rev(q + End(l, |l|, w), w) + Pow2(w) * t)
  }

  lemma {:induction false} SlotIs(l: seq<nat>, k: nat, lo: nat, hi: nat, x: nat, i: nat)
    requires i < k <= |l| && lo < l[i] <= hi && Matches(l, i, x)
    ensures Slot(l, k, lo, hi, x) == Entry(l, i) != 0
  {
    if lo < l[k - 1] <= hi && Matches(l, k - 1, x) {
      MatchUnique(l, x, i, k - 1);
    } else {
      SlotIs(l, k - 1, lo, hi, x, i);
    }
  }

  lemma {:induction false} SlotFound(l: seq<nat>, k: nat, lo: nat, hi: nat, x: nat) returns (i: nat)
    requires k <= |l| && Slot(l, k, lo, hi, x) != 0
    ensures i < k && lo < l[i] <= hi && Matches(l, i, x) && Slot(l, k, lo, hi, x) == Entry(l, i)
  {
    if lo < l[k - 1] <= hi && Matches(l, k - 1, x) {
      i := k - 1;
    } else {
      i := SlotFound(l, k - 1, lo, hi, x);
    }
  }

  /** Two slots agree if every match for one is a match for the other. */
  lemma SlotSame(l: seq<nat>, lo: nat, hi: nat, x: nat, lo': nat, hi': nat, x': nat)
    requires forall i | 0 <= i < |l| ::
               (lo < l[i] <= hi && Matches(l, i, x)) == (lo' < l[i] <= hi' && Matches(l, i, x'))
    ensures Slot(l, |l|, lo, hi, x) == Slot(l, |l|, lo', hi', x')
  {
    if Slot(l, |l|, lo, hi, x) != 0 {
      var i := SlotFound(l, |l|, lo, hi, x);
      SlotIs(l, |l|, lo', hi', x', i);
    } else if Slot(l, |l|, lo', hi', x') != 0 {
      var i := SlotFound(l, |l|, lo', hi', x');
      SlotIs(l, |l|, lo, hi, x, i);
    }
  }

  /** A code fits its length, for the vectors the decoder takes. */
  lemma CodeFits(l: seq<nat>, i: nat)
    requires i < |l| && 0 < l[i] && Accepted(l)
    ensures Code(l, i) < Pow2(l[i])
  {
    var m := MaxLen(l, |l|);
    EndIsKraft(l, |l|, m);
    CodeBelowEnd(l, i);
    EndFits(l, l[i], m);
  }

  /** The indices that start with the code of symbol i are one residue class. */
  lemma MatchIsResidue(l: seq<nat>, i: nat, x: nat)
    requires i < |l| && 0 < l[i] && Accepted(l)
    ensures Matches(l, i, x) == (x % Pow2(l[i]) == Rev(Code(l, i), l[i]))
  {
    var n := l[i];
    CodeFits(l, i);
    RevTwice(x, n);
    RevTwice(Code(l, i), n);
    ModSmall(Code(l, i), Pow2(n));
    RevMod(x, n, n);
  }

  lemma SameResidue(a: nat, b: nat, m: nat)
    requires 0 < m && a % m == b % m && a <= b < a + m
    ensures a == b
  {
    if a < b {
      var qa, qb := a / m, b / m;
      assert a == qa * m + a % m && b == qb * m + b % m;
      assert b - a == (qb - qa) * m;
      if qa < qb {
        MulGe(qb - qa, m);
      }
    }
  }

  lemma NextResidue(a: nat, m: nat)
    requires 0 < m
    ensures (a + m) % m == a % m
  {
    DivModUnique(a + m, a / m + 1, a % m, m);
  }

  /** A short code is not in the range of primary slots reserved for link tables. */
  lemma ShortBelowLink(l: seq<nat>, i: nat, w: nat, x: nat)
    requires i < |l| && l[i] <= w && Matches(l, i, x)
    ensures Rev(x, w) < End(l, |l|, w)
  {
    CodeBelowEnd(l, i);
    if l[i] < w && End(l, |l|, w) <= Rev(x, w) {
      PastShorter(l, x, l[i], w);
    }
  }

  /** A long code is in that range. */
  lemma LongPastLink(l: seq<nat>, i: nat, w: nat, x: nat)
    requires i < |l| && w < l[i] && Matches(l, i, x)
    ensures End(l, |l|, w) <= Rev(x, w)
  {
    CodeBelowEnd(l, i);
    PastShorter(l, x, w, l[i]);
  }

  /** No slot that symbol i is entered in was taken before. */
  lemma PrimaryFree(l: seq<nat>, i: nat, w: nat, x: nat)
    requires i < |l| && l[i] <= w && Matches(l, i, x)
    ensures Primary(l, i, w, x) == 0
  {
    if Slot(l, i, 0, w, x) != 0 {
      var j := SlotFound(l, i, 0, w, x);
      MatchUnique(l, x, i, j);
    }
    ShortBelowLink(l, i, w, x);
  }

  lemma PrimaryIsLink(l: seq<nat>, k: nat, i: nat, w: nat, x: nat)
    requires k <= |l| && i < |l| && w < l[i] && Matches(l, i, x)
    ensures End(l, |l|, w) <= Rev(x, w)
    ensures Primary(l, k, w, x) == (Rev(x, w) - End(l, |l|, w)) * 16 + w + 1
  {
    LongPastLink(l, i, w, x);
    if Slot(l, k, 0, w, x) != 0 {
      var j := SlotFound(l, k, 0, w, x);
      MatchUnique(l, x, i, j);
    }
  }

  lemma SlotFree(l: seq<nat>, i: nat, lo: nat, hi: nat, x: nat)
    requires i < |l| && Matches(l, i, x)
    ensures Slot(l, i, lo, hi, x) == 0
  {
    if Slot(l, i, lo, hi, x) != 0 {
      var j := SlotFound(l, i, lo, hi, x);
      MatchUnique(l, x, i, j);
    }
  }

  /** The low w bits and the link index of a lookup together are its low max bits. */
  lemma LinkIndex(x: nat, w: nat, m: nat)
    requires w <= m
    ensures x % Pow2(m) == x % Pow2(w) + Pow2(w) * ((x / Pow2(w)) % Pow2(m - w))
    ensures (x % Pow2(m)) % Pow2(w) == x % Pow2(w)
  {
    Pow2Add(w, m - w);
    DivTwice(x, Pow2(w), Pow2(m - w));
    FieldsUnique(x % Pow2(m), x % Pow2(w), Pow2(w), (x / Pow2(w)) % Pow2(m - w));
  }

  lemma MatchesMod(l: seq<nat>, i: nat, x: nat, k: nat)
    requires i < |l| && l[i] <= k
    ensures Matches(l, i, x % Pow2(k)) == Matches(l, i, x)
  {
    RevMod(x, l[i], k);
  }

  /** A primary slot that is no link holds the answer for every number with those low bits. */
  lemma PrimaryAnswers(l: seq<nat>, w: nat, x: nat)
    requires Accepted(l) && 0 < w
    requires !(w < MaxLen(l, |l|) && End(l, |l|, w) <= Rev(x, w))
    ensures Primary(l, |l|, w, x % Pow2(w)) == Slot(l, |l|, 0, w, x) == Slot(l, |l|, 0, MAX_CODE_LEN, x)
    requires forall i | 0 <= i < |l| :: l[i] < MAX_CODE_LEN
  {
    RevMod(x, w, w);
    forall i | 0 <= i < |l| && l[i] <= w ensures Matches(l, i, x % Pow2(w)) == Matches(l, i, x) {
      MatchesMod(l, i, x, w);
    }
    SlotSame(l, 0, w, x % Pow2(w), 0, w, x);
    forall i | 0 <= i < |l| && w < l[i] ensures !Matches(l, i, x) {
      if Matches(l, i, x) {
        LongPastLink(l, i, w, x);
      }
    }
    if w < MaxLen(l, |l|) {
      var j := MatchBelow(l, x, w);
      forall i | 0 <= i < |l| && Matches(l, i, x) ensures l[i] <= w {
        MatchUnique(l, x, i, j);
      }
    }
    forall i | 0 <= i < |l| && Matches(l, i, x) ensures (0 < l[i] <= w) == (0 < l[i] <= MAX_CODE_LEN) {
    }
    SlotSame(l, 0, w, x, 0, MAX_CODE_LEN, x);
  }

  lemma LinkSlot(l: seq<nat>, w: nat, x: nat)
    requires w < MaxLen(l, |l|) && End(l, |l|, w) <= Rev(x, w)
    ensures Primary(l, |l|, w, x % Pow2(w)) == (Rev(x, w) - End(l, |l|, w)) * 16 + w + 1
  {
    RevMod(x, w, w);
    if Slot(l, |l|, 0, w, x % Pow2(w)) != 0 {
      var i := SlotFound(l, |l|, 0, w, x % Pow2(w));
      ShortBelowLink(l, i, w, x % Pow2(w));
    }
  }

  lemma LinkedAt(l: seq<nat>, w: nat, v: nat, t: nat, y: nat)
    requires End(l, |l|, w) <= v && y == Rev(v, w) + Pow2(w) * t
    ensures Linked(l, |l|, w, v - End(l, |l|, w), t) == Slot(l, |l|, w, MAX_CODE_LEN, y)
  {
  }

  /** Past the short codes, the answer depends on the low max bits only. */
  lemma LongSlot(l: seq<nat>, w: nat, x: nat, y: nat)
    requires y == x % Pow2(MaxLen(l, |l|))
    requires forall i | 0 <= i < |l| :: l[i] < MAX_CODE_LEN
    requires End(l, |l|, w) <= Rev(x, w)
    ensures Slot(l, |l|, w, MAX_CODE_LEN, y) == Slot(l, |l|, 0, MAX_CODE_LEN, x)
  {
    forall i | 0 <= i < |l|
      ensures (w < l[i] <= MAX_CODE_LEN && Matches(l, i, y)) == (0 < l[i] <= MAX_CODE_LEN && Matches(l, i, x))
    {
      MatchesMod(l, i, x, MaxLen(l, |l|));
      if 0 < l[i] <= w && Matches(l, i, x) {
        ShortBelowLink(l, i, w, x);
      }
    }
    SlotSame(l, w, MAX_CODE_LEN, y, 0, MAX_CODE_LEN, x);
  }

  lemma LinkSum(x: nat, w: nat, m: nat)
    requires w <= m
    ensures x % Pow2(m) == Rev(Rev(x, w), w) + Pow2(w) * ((x / Pow2(w)) % Pow2(m - w))
  {
    LinkIndex(x, w, m);
    RevTwice(x, w);
  }

  /** A link slot leads to the answer. */
  lemma LinkAnswers(l: seq<nat>, w: nat, x: nat)
    requires forall i | 0 <= i < |l| :: l[i] < MAX_CODE_LEN
    requires w < MaxLen(l, |l|) && End(l, |l|, w) <= Rev(x, w)
    ensures Linked(l, |l|, w, Rev(x, w) - End(l, |l|, w), (x / Pow2(w)) % Pow2(MaxLen(l, |l|) - w))
         == Slot(l, |l|, 0, MAX_CODE_LEN, x)
  {
    var m := MaxLen(l, |l|);
    var y, t := x % Pow2(m), (x / Pow2(w)) % Pow2(m - w);
    LinkSum(x, w, m);
    LinkedAt(l, w, Rev(x, w), t, y);
    LongSlot(l, w, x, y);
  }

  lemma EndBelowMin(l: seq<nat>, lo: nat)
    requires 0 < lo && forall i | 0 <= i < |l| && 0 < l[i] :: lo <= l[i]
    ensures End(l, |l|, lo - 1) == 0
    ensures forall n | 0 < n < lo :: First(l, n) == 0
  {
    forall n | 0 <= n < lo ensures End(l, |l|, n) == 0 {
      EndShort(l, |l|, n);
    }
  }

  lemma {:induction false} EndShort(l: seq<nat>, i: nat, n: nat)
    requires i <= |l| && forall j | 0 <= j < i && 0 < l[j] :: n < l[j]
    ensures End(l, i, n) == 0
  {
    if i == 0 {
      EndEmpty(l, n);
    } else {
      EndShort(l, i - 1, n);
      EndStep(l, i - 1, n);
    }
  }

  lemma LinkFits(l: seq<nat>, w: nat)
    requires Accepted(l) && w < MaxLen(l, |l|)
    ensures w == 0 || End(l, |l|, w) <= Pow2(w)
  {
    var m := MaxLen(l, |l|);
    EndIsKraft(l, |l|, m);
    if 0 < w {
      EndFits(l, w, m);
    }
  }

  /** A reversed code splits into a primary index and a link index. */
  lemma ReversedFields(l: seq<nat>, i: nat, w: nat)
    requires i < |l| && w < l[i] && Accepted(l)
    ensures var rev := Rev(Code(l, i), l[i]);
            && Matches(l, i, rev)
            && 0 <= rev % Pow2(w) < Pow2(w) && 0 <= rev / Pow2(w) < Pow2(l[i] - w)
            && rev == rev % Pow2(w) + Pow2(w) * (rev / Pow2(w))
  {
    var n := l[i];
    var rev := Rev(Code(l, i), n);
    ModSmall(rev, Pow2(n));
    MatchIsResidue(l, i, rev);
    Pow2Add(w, n - w);
    DivBelow(rev, Pow2(w), Pow2(n - w), Pow2(n));
  }

  lemma DivBelow(x: nat, m: nat, k: nat, mk: nat)
    requires 0 < m && x < mk == m * k
    ensures 0 <= x % m < m && 0 <= x / m < k
    ensures x == x % m + m * (x / m)
  {
    if k <= x / m {
      MulMono(m, k, x / m);
    }
  }

  /** The primary slot under the first w bits of a long code is a link. */
  lemma LongRow(l: seq<nat>, k: nat, i: nat, w: nat, j: nat)
    requires k <= |l| && i < |l| && w < l[i] && w < 15 && Accepted(l)
    requires j == Rev(Code(l, i), l[i]) % Pow2(w)
    ensures End(l, |l|, w) <= Rev(j, w)
    ensures Primary(l, k, w, j) % 16 == w + 1 && Primary(l, k, w, j) / 16 == Rev(j, w) - End(l, |l|, w)
  {
    var rev := Rev(Code(l, i), l[i]);
    ReversedFields(l, i, w);
    LongPastLink(l, i, w, rev);
    RevMod(rev, w, w);
    if Slot(l, k, 0, w, j) != 0 {
      var s := SlotFound(l, k, 0, w, j);
      MatchesMod(l, s, rev, w);
      MatchUnique(l, rev, s, i);
    }
    PackedParts(Rev(j, w) - End(l, |l|, w), w + 1);
  }

  lemma SameFields(a: nat, s: nat, b: nat, t: nat, m: nat)
    requires a < m && b < m
    ensures (a + m * s == b + m * t) == (a == b && s == t)
  {
    FieldsUnique(a + m * s, a, m, s);
    FieldsUnique(b + m * t, b, m, t);
  }

  /** Which link slots a long code is entered in, and that they were free. */
  lemma LongSlots(l: seq<nat>, i: nat, w: nat, q: nat, t: nat, j: nat, high: nat)
    requires i < |l| && w < l[i] < MAX_CODE_LEN && Accepted(l)
    requires j == Rev(Code(l, i), l[i]) % Pow2(w) && high == Rev(Code(l, i), l[i]) / Pow2(w)
    requires q + End(l, |l|, w) < Pow2(w)
    ensures var here := q + End(l, |l|, w) == Rev(j, w) && t % Pow2(l[i] - w) == high;
            && Linked(l, i + 1, w, q, t) == (if here then Entry(l, i) else Linked(l, i, w, q, t))
            && (here ==> Linked(l, i, w, q, t) == 0)
  {
    hide Rev, Pow2, Code, Accepted, MaxLen;
    var n := l[i];
    var v := q + End(l, |l|, w);
    var base := Rev(v, w);
    var x := base + Pow2(w) * t;
    ReversedFields(l, i, w);
    MatchIsResidue(l, i, x);
    FieldsUnique(x, base, Pow2(w), t);
    LinkIndex(x, w, n);
    SameFields(base, t % Pow2(n - w), j, high, Pow2(w));
    RevTwice(v, w);
    RevTwice(j, w);
    ModSmall(v, Pow2(w));
    ModSmall(j, Pow2(w));
    if Matches(l, i, x) {
      SlotFree(l, i, w, MAX_CODE_LEN, x);
    }
  }

  /** An empty primary slot occurs only for a single code, and then under an odd index. */
  lemma NoGap(l: seq<nat>, w: nat, x: nat)
    requires Accepted(l) && 0 < MaxLen(l, |l|) && 0 < w
    requires Primary(l, |l|, w, x) == 0
    ensures End(l, |l|, MaxLen(l, |l|)) == 1 && x % 2 == 1
  {
    var m := MaxLen(l, |l|);
    EndIsKraft(l, |l|, m);
    if End(l, |l|, m) == Pow2(m) {
      var i := CompleteMatch(l, x, m);
      if l[i] <= w {
        SlotIs(l, |l|, 0, w, x, i);
      } else {
        PrimaryIsLink(l, |l|, i, w, x);
      }
    } else {
      assert Rev(x, 1) == x % 2 by {
        assert Rev(x, 0) == 0 && Pow2(0) == 1;
      }
      if x % 2 == 0 {
        var i := MatchBelow(l, x, 1);
        SlotIs(l, |l|, 0, w, x, i);
      }
    }
  }

  /** No link slot stays empty. */
  lemma NoLinkGap(l: seq<nat>, w: nat, q: nat, t: nat)
    requires Accepted(l) && 0 < w < MaxLen(l, |l|)
    requires forall i | 0 <= i < |l| :: l[i] < MAX_CODE_LEN
    requires q + End(l, |l|, w) < Pow2(w)
    ensures Linked(l, |l|, w, q, t) != 0
  {
    hide Accepted, Pow2, Slot, Code, End, MaxLen, Rev;
    var v := q + End(l, |l|, w);
    var x := Rev(v, w) + Pow2(w) * t;
    FieldsUnique(x, Rev(v, w), Pow2(w), t);
    RevTwice(v, w);
    ModSmall(v, Pow2(w));
    RevMod(x, w, w);
    NoLongGap(l, w, x);
  }

  lemma NoLongGap(l: seq<nat>, w: nat, x: nat)
    requires Accepted(l) && 0 < w < MaxLen(l, |l|)
    requires forall i | 0 <= i < |l| :: l[i] < MAX_CODE_LEN
    requires End(l, |l|, w) <= Rev(x, w)
    ensures Slot(l, |l|, w, MAX_CODE_LEN, x) != 0
  {
    var m := MaxLen(l, |l|);
    EndIsKraft(l, |l|, m);
    var i := CompleteMatch(l, x, m);
    if l[i] <= w {
      ShortBelowLink(l, i, w, x);
    }
    SlotIs(l, |l|, w, MAX_CODE_LEN, x, i);
  }

  lemma ShortSlots(l: seq<nat>, i: nat, w: nat, x: nat)
    requires i < |l| && 0 < l[i] <= w && Accepted(l)
    ensures var here := x % Pow2(l[i]) == Rev(Code(l, i), l[i]);
            && Primary(l, i + 1, w, x) == (if here then Entry(l, i) else Primary(l, i, w, x))
            && (here ==> Primary(l, i, w, x) == 0)
  {
    MatchIsResidue(l, i, x);
    if Matches(l, i, x) {
      PrimaryFree(l, i, w, x);
    }
  }

  lemma ShortFree(l: seq<nat>, i: nat, w: nat, reverse: nat, before: seq<nat>)
    requires i < |l| && 0 < l[i] <= w && Accepted(l) && reverse == Rev(Code(l, i), l[i])
    requires forall x | 0 <= x < |before| :: before[x] == Primary(l, i, w, x)
    ensures forall x | 0 <= x < |before| && x % Pow2(l[i]) == reverse :: before[x] == 0
  {
    forall x | 0 <= x < |before| && x % Pow2(l[i]) == reverse ensures before[x] == 0 {
      ShortSlots(l, i, w, x);
    }
  }

  lemma ShortEntered(l: seq<nat>, i: nat, w: nat, reverse: nat, before: seq<nat>, after: seq<nat>)
    requires i < |l| && 0 < l[i] <= w && Accepted(l) && reverse == Rev(Code(l, i), l[i])
    requires |before| == |after|
    requires forall x | 0 <= x < |before| :: before[x] == Primary(l, i, w, x)
    requires forall x | 0 <= x < |after| :: after[x] == if x % Pow2(l[i]) == reverse then Entry(l, i) else before[x]
    ensures forall x | 0 <= x < |after| :: after[x] == Primary(l, i + 1, w, x)
  {
    forall x | 0 <= x < |after| ensures after[x] == Primary(l, i + 1, w, x) {
      ShortSlots(l, i, w, x);
    }
  }

  lemma PaddedMatch(l: seq<nat>, x: nat, k: nat, j: nat) returns (i: nat)
    requires j < |l| && Matches(l, j, x)
    ensures i < |l| && l[i] <= l[j] && Matches(l, i, x % Pow2(k))
  {
    CodeBelowEnd(l, j);
    RevTruncated(x, k, l[j]);
    i := MatchBelow(l, x % Pow2(k), l[j]);
  }

  /** A lookup with only n bits at hand: an entry of at most n bits is the symbol at p, an entry
      of more bits says how many bits that symbol has at least, and no entry means no symbol. */
  lemma LazyLookup(l: seq<nat>, d: seq<byte>, p: nat, n: nat)
    requires p + n <= 8 * |d| && forall i | 0 <= i < |l| :: l[i] < MAX_CODE_LEN
    ensures var e := Slot(l, |l|, 0, MAX_CODE_LEN, Num(d, p, n));
            && (0 < e % 16 <= n ==> SymbolAt(l, d, p) == Some(e / 16) && e / 16 < |l| && l[e / 16] == e % 16)
            && (e % 16 == 0 ==> SymbolAt(l, d, p) == None) && e % 16 <= MaxLen(l, |l|)
            && forall j | 0 <= j < |l| && CodeAt(l, d, p, j) :: e % 16 <= l[j]
  {
    hide Num, Slot;
    var e := Slot(l, |l|, 0, MAX_CODE_LEN, Num(d, p, n));
    if e != 0 {
      var i := SlotFound(l, |l|, 0, MAX_CODE_LEN, Num(d, p, n));
      EntryParts(l, i);
      if l[i] <= n {
        CodeAtMatches(l, d, p, i, n);
        SymbolAtIs(l, d, p, i);
      }
    }
    forall j | 0 <= j < |l| && CodeAt(l, d, p, j) ensures 0 < e % 16 <= l[j] {
      LazyBound(l, d, p, n, j);
    }
  }

  lemma LazyBound(l: seq<nat>, d: seq<byte>, p: nat, n: nat, j: nat)
    requires p + n <= 8 * |d| && j < |l| && CodeAt(l, d, p, j)
    requires forall i | 0 <= i < |l| :: l[i] < MAX_CODE_LEN
    ensures 0 < Slot(l, |l|, 0, MAX_CODE_LEN, Num(d, p, n)) % 16 <= l[j]
  {
    var m := if l[j] < n then n else l[j];
    CodeAtMatches(l, d, p, j, m);
    NumSplit(d, p, n, m - n);
    var i := PaddedMatch(l, Num(d, p, m), n, j);
    SlotIs(l, |l|, 0, MAX_CODE_LEN, Num(d, p, n), i);
    EntryParts(l, i);
  }

  /** The counters of the next code to give, once i symbols have theirs. */
  ghost predicate NextCodes(l: seq<nat>, i: nat, max: nat, next: seq<nat>)
    requires i <= |l| && max < |next|
  {
    forall n | 0 < n <= max :: next[n] == First(l, n) + CountTo(l, i, n)
  }

  lemma NextIsCode(l: seq<nat>, i: nat, max: nat, next: seq<nat>)
    requires i < |l| && 0 < l[i] <= max < |next| && NextCodes(l, i, max, next)
    ensures next[l[i]] == Code(l, i)
  {
  }

  lemma NextStep(l: seq<nat>, i: nat, max: nat, next: seq<nat>, next': seq<nat>)
    requires i < |l| && l[i] <= max < |next| && NextCodes(l, i, max, next)
    requires next' == if l[i] == 0 then next else next[l[i] := next[l[i]] + 1]
    ensures NextCodes(l, i + 1, max, next')
  {
  }

  lemma LongEntered(l: seq<nat>, i: nat, w: nat, j: nat, high: nat, value: nat, before: seq<seq<nat>>,
      after: seq<seq<nat>>)
    requires i < |l| && w < l[i] < MAX_CODE_LEN && Accepted(l)
    requires j == Rev(Code(l, i), l[i]) % Pow2(w) && high == Rev(Code(l, i), l[i]) / Pow2(w)
    requires value < |before| == |after| == Pow2(w) - End(l, |l|, w) && value + End(l, |l|, w) == Rev(j, w)
    requires forall q, t | 0 <= q < |before| && 0 <= t < |before[q]| :: before[q][t] == Linked(l, i, w, q, t)
    requires |after[value]| == |before[value]| && after == before[value := after[value]]
    requires forall t | 0 <= t < |after[value]| ::
               after[value][t] == if t % Pow2(l[i] - w) == high then Entry(l, i) else before[value][t]
    ensures forall q, t | 0 <= q < |after| && 0 <= t < |after[q]| :: after[q][t] == Linked(l, i + 1, w, q, t)
  {
    forall q, t | 0 <= q < |after| && 0 <= t < |after[q]| ensures after[q][t] == Linked(l, i + 1, w, q, t) {
      LongSlots(l, i, w, q, t, j, high);
      if q != value {
        assert after[q] == before[q];
      }
    }
  }

  /** Writes v to every slot of a residue class; the slots must be empty. */
  method FillStride(a: array<nat>, start: nat, step: nat, v: nat)
    requires start < step
    requires forall x | 0 <= x < a.Length && x % step == start :: a[x] == 0
    modifies a
    ensures forall x | 0 <= x < a.Length :: a[x] == if x % step == start then v else old(a[x])
  {
    var off := start;
    ModSmall(start, step);
    while off < a.Length
      invariant off % step == start
      invariant forall x | 0 <= x < a.Length :: a[x] == if x < off && x % step == start then v else old(a[x])
    {
      if a[off] != 0 {
        assert false;
      }
      a[off] := v;
      forall x | off <= x < off + step && x % step == start ensures x == off {
        SameResidue(off, x, step);
      }
      NextResidue(off, step);
      off := off + step;
    }
  }

  /** The same in a link table. */
  method FillRow(row: seq<nat>, start: nat, step: nat, v: nat) returns (a: seq<nat>)
    requires start < step
    requires forall t | 0 <= t < |row| && t % step == start :: row[t] == 0
    ensures |a| == |row| && forall t | 0 <= t < |row| :: a[t] == if t % step == start then v else row[t]
  {
    a := row;
    var off := start;
    ModSmall(start, step);
    while off < |row|
      invariant off % step == start && |a| == |row|
      invariant forall t | 0 <= t < |row| :: a[t] == if t < off && t % step == start then v else row[t]
    {
      if a[off] != 0 {
        assert false;
      }
      a := a[off := v];
      forall t | off <= t < off + step && t % step == start ensures t == off {
        SameResidue(off, t, step);
      }
      NextResidue(off, step);
      off := off + step;
    }
  }

  /** Number of codes of each length, and the least and greatest length in use. */
  method CountLengths(lengths: seq<nat>) returns (count: array<nat>, lo: nat, max: nat)
    requires forall i | 0 <= i < |lengths| :: lengths[i] < MAX_CODE_LEN
    ensures fresh(count) && count.Length == MAX_CODE_LEN
    ensures forall n | 0 < n < MAX_CODE_LEN :: count[n] == CountTo(lengths, |lengths|, n)
    ensures max == MaxLen(lengths, |lengths|) < MAX_CODE_LEN
    ensures lo <= max && (lo == 0 <==> max == 0)
    ensures forall j | 0 <= j < |lengths| && 0 < lengths[j] :: lo <= lengths[j]
    ensures lo == 0 || lo in lengths
  {
    count := new nat[MAX_CODE_LEN](_ => 0);
    lo, max := 0, 0;
    for i := 0 to |lengths|
      invariant max == MaxLen(lengths, i) < MAX_CODE_LEN
      invariant lo <= max && (lo == 0 <==> max == 0)
      invariant forall j | 0 <= j < i && 0 < lengths[j] :: 0 < lo <= lengths[j]
      invariant lo == 0 || lo in lengths
      invariant forall n | 0 < n < MAX_CODE_LEN :: count[n] == CountTo(lengths, i, n)
    {
      var n := lengths[i];
      if n == 0 {
        continue;
      }
      if lo == 0 || n < lo {
        lo := n;
      }
      if n > max {
        max := n;
      }
      count[n] := count[n] + 1;
    }
  }

  /** The first code of each length, and the code counter after the last length. */
  method FirstCodes(lengths: seq<nat>, count: array<nat>, lo: nat, max: nat)
    returns (nextcode: array<nat>, code: nat)
    requires 0 < lo <= max < MAX_CODE_LEN == count.Length
    requires forall j | 0 <= j < |lengths| && 0 < lengths[j] :: lo <= lengths[j]
    requires forall n | 0 < n < MAX_CODE_LEN :: count[n] == CountTo(lengths, |lengths|, n)
    ensures fresh(nextcode) && nextcode.Length == MAX_CODE_LEN
    ensures forall n | 0 < n <= max :: nextcode[n] == First(lengths, n)
    ensures code == Kraft(lengths, |lengths|, max) == End(lengths, |lengths|, max)
  {
    code := 0;
    nextcode := new nat[MAX_CODE_LEN](_ => 0);
    EndBelowMin(lengths, lo);
    for i := lo to max + 1
      invariant code == End(lengths, |lengths|, i - 1)
      invariant forall n | 0 < n < i :: nextcode[n] == First(lengths, n)
    {
      code := 2 * code;
      nextcode[i] := code;
      code := code + count[i];
    }
    EndIsKraft(lengths, |lengths|, max);
  }

  class HuffmanDecoder {
    /** Width of the primary table in bits. */
    const width: nat
    /** Fewest bits worth reading before a lookup; 0 if there is no code. */
    var min: nat
    const chunks: array<nat>
    /** The link tables. */
    var links: seq<seq<nat>>
    var linkMask: nat
    /** The vector of code lengths the tables stand for. */
    ghost var lens: seq<nat>

    ghost predicate Shape()
      reads this
    {
      && 0 < width < MAX_CODE_LEN - 1
      && chunks.Length == Pow2(width)
    }

    ghost predicate Blank()
      reads this, chunks
    {
      Shape() && min == 0 && forall x | 0 <= x < chunks.Length :: chunks[x] == 0
    }

    ghost predicate PrimaryFilled(k: nat)
      reads this, chunks
      requires k <= |lens|
    {
      forall x | 0 <= x < chunks.Length :: chunks[x] == Primary(lens, k, width, x)
    }

    ghost predicate LinksShaped()
      reads this
    {
      var m := MaxLen(lens, |lens|);
      width < m ==>
        && |links| == Pow2(width) - End(lens, |lens|, width)
        && linkMask + 1 == Pow2(m - width)
        && forall q | 0 <= q < |links| :: |links[q]| == linkMask + 1
    }

    ghost predicate LinksFilled(k: nat)
      reads this
      requires k <= |lens|
    {
      width < MaxLen(lens, |lens|) ==>
        forall q, t | 0 <= q < |links| && 0 <= t < |links[q]| :: links[q][t] == Linked(lens, k, width, q, t)
    }

    ghost predicate Filled(k: nat)
      reads this, chunks
      requires k <= |lens|
    {
      PrimaryFilled(k) && LinksShaped() && LinksFilled(k)
    }

    ghost predicate Valid()
      reads this, chunks
    {
      && (forall i | 0 <= i < |lens| :: lens[i] < MAX_CODE_LEN)
      && min < MAX_CODE_LEN
      && Consistent()
    }

    /** The tables stand for the code. */
    ghost predicate Consistent()
      reads this, chunks
    {
      && Shape()
      && Accepted(lens)
      && (min == 0 <==> MaxLen(lens, |lens|) == 0)
      && if min == 0 then Blank() else Filled(|lens|)
    }

    /** `min` is the length of the shortest code. */
    ghost predicate MinIsLeast()
      reads this
    {
      && (forall i | 0 <= i < |lens| && 0 < lens[i] :: min <= lens[i])
      && (min == 0 || min in lens)
    }

    constructor (width: nat)
      requires 0 < width < MAX_CODE_LEN - 1
      ensures Valid() && lens == [] && this.width == width
      ensures fresh(chunks)
    {
      this.width := width;
      min := 0;
      chunks := new nat[Pow2(width)](_ => 0);
      links := [];
      linkMask := 0;
      lens := [];
    }

    lemma NoCodeNoSlot(b: nat)
      requires Valid() && min == 0
      ensures Slot(lens, |lens|, 0, MAX_CODE_LEN, b) == 0
    {
      if Slot(lens, |lens|, 0, MAX_CODE_LEN, b) != 0 {
        var i := SlotFound(lens, |lens|, 0, MAX_CODE_LEN, b);
      }
    }

    lemma DirectChunk(b: nat)
      requires Valid() && min != 0
      requires !(width < MaxLen(lens, |lens|) && End(lens, |lens|, width) <= Rev(b, width))
      ensures chunks[b % Pow2(width)] == Slot(lens, |lens|, 0, MAX_CODE_LEN, b)
      ensures chunks[b % Pow2(width)] % 16 <= width
    {
      PrimaryAnswers(lens, width, b);
      if Slot(lens, |lens|, 0, width, b) != 0 {
        var i := SlotFound(lens, |lens|, 0, width, b);
        EntryParts(lens, i);
      }
    }

    lemma LinkedChunk(b: nat)
      requires Valid() && min != 0
      requires width < MaxLen(lens, |lens|) && End(lens, |lens|, width) <= Rev(b, width)
      ensures var chunk, q := chunks[b % Pow2(width)], Rev(b, width) - End(lens, |lens|, width);
              q < |links| && chunk % 16 == width + 1 && chunk / 16 == q
    {
      LinkSlot(lens, width, b);
      PackedParts(Rev(b, width) - End(lens, |lens|, width), width + 1);
    }

    lemma LinkedSlot(b: nat, q: nat, t: nat)
      requires Valid() && min != 0
      requires width < MaxLen(lens, |lens|) && End(lens, |lens|, width) <= Rev(b, width)
      requires q == Rev(b, width) - End(lens, |lens|, width) && t == (b / Pow2(width)) % (linkMask + 1)
      ensures q < |links| && t < |links[q]|
      ensures links[q][t] == Slot(lens, |lens|, 0, MAX_CODE_LEN, b)
    {
      LinkAnswers(lens, width, b);
    }

    /** One lookup, without knowing how many of the bits of b are real. */
    method Lookup(b: nat) returns (chunk: nat)
      requires Valid()
      ensures chunk == Slot(lens, |lens|, 0, MAX_CODE_LEN, b)
    {
      chunk := chunks[b % Pow2(width)];
      if min == 0 {
        NoCodeNoSlot(b);
      } else if width < MaxLen(lens, |lens|) && End(lens, |lens|, width) <= Rev(b, width) {
        LinkedChunk(b);
        LinkedSlot(b, Rev(b, width) - End(lens, |lens|, width), (b / Pow2(width)) % (linkMask + 1));
      } else {
        DirectChunk(b);
      }
      if width < chunk % 16 {
        chunk := links[chunk / 16][(b / Pow2(width)) % (linkMask + 1)];
      }
    }

    /** Builds the tables for a vector of code lengths. A vector that is neither empty,
        complete nor a single code of one bit is refused, where the Go code panics. */
    method Init(lengths: seq<nat>) returns (ok: bool)
      requires Valid()
      requires forall i | 0 <= i < |lengths| :: lengths[i] < MAX_CODE_LEN
      modifies this, chunks
      ensures Valid()
      ensures ok == Accepted(lengths)
      ensures lens == if ok then lengths else []
      ensures MinIsLeast()
    {
      Clear();
      var count, lo, max := CountLengths(lengths);
      if max == 0 {
        lens := lengths;
        return true;
      }
      var nextcode, code := FirstCodes(lengths, count, lo, max);
      if code != Pow2(max) && !(code == 1 && max == 1) {
        return false;
      }
      Build(lengths, lo, max, nextcode, code);
      return true;
    }

    method Build(lengths: seq<nat>, lo: nat, max: nat, nextcode: array<nat>, code: nat)
      requires Blank() && Accepted(lengths)
      requires forall i | 0 <= i < |lengths| :: lengths[i] < MAX_CODE_LEN
      requires 0 < lo <= max == MaxLen(lengths, |lengths|) && code == End(lengths, |lengths|, max)
      requires nextcode.Length == MAX_CODE_LEN && nextcode != chunks
      requires forall n | 0 < n <= max :: nextcode[n] == First(lengths, n)
      modifies this, chunks, nextcode
      ensures Valid() && lens == lengths && min == lo
    {
      lens := lengths;
      min := lo;
      Fill(lengths, max, nextcode);
      CheckFilled(code, max);
    }

    method Clear()
      requires Valid()
      modifies this, chunks
      ensures Blank() && lens == []
    {
      if min != 0 {
        forall x | 0 <= x < chunks.Length {
          chunks[x] := 0;
        }
        links := [];
        linkMask := 0;
        min := 0;
      }
      lens := [];
    }

    ghost predicate Filling()
      reads this
    {
      && Shape()
      && Accepted(lens)
      && (forall i | 0 <= i < |lens| :: lens[i] < MAX_CODE_LEN)
      && 0 < min < MAX_CODE_LEN
      && 0 < MaxLen(lens, |lens|)
    }

    /** Enters every symbol: short codes in the primary table, long ones in link tables. */
    method Fill(lengths: seq<nat>, max: nat, nextcode: array<nat>)
      requires Filling() && lengths == lens && max == MaxLen(lens, |lens|)
      requires forall x | 0 <= x < chunks.Length :: chunks[x] == 0
      requires nextcode.Length == MAX_CODE_LEN && nextcode != chunks
      requires forall n | 0 < n <= max :: nextcode[n] == First(lens, n)
      modifies `links, `linkMask, chunks, nextcode
      ensures Filling() && Filled(|lens|)
    {
      if width < max {
        MakeLinks(max, nextcode[width + 1] / 2);
      } else {
        NothingEntered();
      }
      EnterAll(lengths, max, nextcode);
    }

    method EnterAll(lengths: seq<nat>, max: nat, nextcode: array<nat>)
      requires Filling() && lengths == lens && max == MaxLen(lens, |lens|) && Filled(0)
      requires nextcode.Length == MAX_CODE_LEN && nextcode != chunks
      requires forall n | 0 < n <= max :: nextcode[n] == First(lens, n)
      modifies chunks, `links, nextcode
      ensures Filled(|lens|)
    {
      for i := 0 to |lengths|
        invariant Filled(i)
        invariant NextCodes(lengths, i, max, nextcode[..])
      {
        ghost var before := nextcode[..];
        if lengths[i] == 0 {
          SkipSymbol(i);
        } else {
          NextIsCode(lengths, i, max, before);
          EnterSymbol(i, lengths[i], nextcode);
        }
        NextStep(lengths, i, max, before, nextcode[..]);
      }
    }

    /** Gives symbol i the next code of n bits. */
    method EnterSymbol(i: nat, n: nat, nextcode: array<nat>)
      requires Filling() && i < |lens| && 0 < n == lens[i] && Filled(i)
      requires nextcode.Length == MAX_CODE_LEN && nextcode != chunks
      requires nextcode[n] == Code(lens, i)
      modifies chunks, `links, nextcode
      ensures Filled(i + 1)
      ensures nextcode[..] == old(nextcode[..])[n := old(nextcode[n]) + 1]
    {
      var code := nextcode[n];
      nextcode[n] := nextcode[n] + 1;
      var reverse := Rev(code, 16) / Pow2(16 - n);
      RevShift(code, n, 16);
      if n <= width {
        EnterShort(i, n, reverse);
      } else {
        EnterLong(i, n, reverse);
      }
    }

    lemma NothingEntered()
      requires Filling() && MaxLen(lens, |lens|) <= width
      requires forall x | 0 <= x < chunks.Length :: chunks[x] == 0
      ensures Filled(0)
    {
    }

    lemma SkipSymbol(i: nat)
      requires i < |lens| && lens[i] == 0 && Filled(i)
      ensures Filled(i + 1)
    {
    }

    lemma ShortKeepsLinks(i: nat)
      requires i < |lens| && lens[i] <= width && LinksFilled(i)
      ensures LinksFilled(i + 1)
    {
    }

    lemma LongKeepsPrimary(i: nat)
      requires i < |lens| && width < lens[i] && PrimaryFilled(i)
      ensures PrimaryFilled(i + 1)
    {
    }

    /** Points the primary slots past the short codes at link tables. */
    method MakeLinks(max: nat, link: nat)
      requires Filling() && width < max == MaxLen(lens, |lens|)
      requires link == End(lens, |lens|, width)
      requires forall x | 0 <= x < chunks.Length :: chunks[x] == 0
      modifies `links, `linkMask, chunks
      ensures Filled(0)
    {
      hide Accepted, Pow2;
      LinkFits(lens, width);
      var numLinks := Pow2(max - width);
      linkMask := numLinks - 1;
      links := seq(Pow2(width) - link, _ => seq(numLinks, _ => 0));
      for j := link to Pow2(width)
        modifies chunks
        invariant forall x | 0 <= x < chunks.Length ::
                    chunks[x] == if link <= Rev(x, width) < j then (Rev(x, width) - link) * 16 + width + 1 else 0
      {
        var reverse := Rev(j, 16) / Pow2(16 - width);
        RevShift(j, width, 16);
        forall x | 0 <= x < Pow2(width) ensures (Rev(x, width) == j) == (x == reverse) {
          RevInverse(x, j, width);
        }
        var off := j - link;
        if chunks[reverse] != 0 {
          assert false;
        }
        chunks[reverse] := off * 16 + (width + 1);
      }
    }

    /** Enters a code of at most `width` bits under every index that starts with it. */
    method EnterShort(i: nat, n: nat, reverse: nat)
      requires Filling() && i < |lens| && 0 < n == lens[i] <= width && Filled(i)
      requires reverse == Rev(Code(lens, i), n)
      modifies chunks
      ensures Filled(i + 1)
    {
      ShortKeepsLinks(i);
      ghost var before := chunks[..];
      ShortFree(lens, i, width, reverse, before);
      FillStride(chunks, reverse, Pow2(n), i * 16 + n);
      ShortEntered(lens, i, width, reverse, before, chunks[..]);
    }

    /** Enters a longer code in the link table its first `width` bits lead to. */
    method EnterLong(i: nat, n: nat, reverse: nat)
      requires Filling() && i < |lens| && width < n == lens[i] && Filled(i)
      requires reverse == Rev(Code(lens, i), n)
      modifies `links
      ensures Filled(i + 1)
    {
      var j, high := reverse % Pow2(width), reverse / Pow2(width);
      LongRow(lens, i, i, width, j);
      ReversedFields(lens, i, width);
      if chunks[j] % 16 != width + 1 {
        assert false;
      }
      EnterRow(i, n, chunks[j] / 16, j, high);
    }

    method EnterRow(i: nat, n: nat, value: nat, j: nat, high: nat)
      requires Filling() && i < |lens| && width < n == lens[i] && Filled(i)
      requires j == Rev(Code(lens, i), n) % Pow2(width) && high == Rev(Code(lens, i), n) / Pow2(width)
      requires high < Pow2(n - width)
      requires value < |links| && value + End(lens, |lens|, width) == Rev(j, width)
      modifies `links
      ensures Filled(i + 1)
    {
      forall t | 0 <= t < |links[value]| && t % Pow2(n - width) == high ensures links[value][t] == 0 {
        LongSlots(lens, i, width, value, t, j, high);
      }
      var linktab := FillRow(links[value], high, Pow2(n - width), i * 16 + n);
      ghost var before := links;
      links := links[value := linktab];
      LongEntered(lens, i, width, j, high, value, before, links);
      LongKeepsPrimary(i);
    }

    /** The completeness test at the end of table building: none of its failures can happen. */
    method CheckFilled(code: nat, max: nat)
      requires Filling() && Filled(|lens|) && max == MaxLen(lens, |lens|)
      requires code == End(lens, |lens|, max)
    {
      for x := 0 to chunks.Length {
        if chunks[x] == 0 {
          NoGap(lens, width, x);
          if code == 1 && x % 2 == 1 {
            continue;
          }
          assert false;
        }
      }
      if width < max {
        for q := 0 to |links| {
          for t := 0 to |links[q]| {
            NoLinkGap(lens, width, q, t);
            if links[q][t] == 0 {
              assert false;
            }
          }
        }
      }
    }
  }
}
