/** Streams and files given byte by byte, and what they decode to. */
module Examples {
  import opened Bits
  import opened Canonical
  import opened Window
  import opened Deflate
  import opened Checksum
  import opened Members
  import opened Tokens
  import opened FixedCodes
  import opened DynamicHeaders
  import opened GzipHeaders
  import opened WrittenFiles

  // Fields of given bytes

  /** A field inside the word of bytes q and q + 1, between the bits below and above it. */
  lemma Field(d: seq<byte>, q: nat, i: nat, n: nat, low: nat, v: nat, high: nat)
    requires q + 2 <= |d| && i + n <= 16 && low < Pow2(i) && v < Pow2(n)
    requires d[q] as int + 256 * d[q + 1] as int == low + Pow2(i) * (v + Pow2(n) * high)
    ensures FieldAt(d, 8 * q + i, n, v)
  {
    hide Num, Pow2;
    NumWord(d, q);
    Middle(d, 8 * q, 16, i, low, v + Pow2(n) * high);
    Lower(d, 8 * q + i, 16 - i, n, v, high);
  }

  lemma NumWord(d: seq<byte>, q: nat)
    requires q + 2 <= |d|
    ensures Num(d, 8 * q, 16) == d[q] as int + 256 * d[q + 1] as int
  {
    hide Num, Pow2;
    Pow2Values();
    NumByte(d, q);
    NumByte(d, q + 1);
    NumSplit(d, 8 * q, 8, 8);
  }

  lemma Middle(d: seq<byte>, p: nat, m: nat, i: nat, low: nat, high: nat)
    requires i <= m && Has(d, p, m) && low < Pow2(i) && Num(d, p, m) == low + Pow2(i) * high
    ensures Num(d, p + i, m - i) == high
  {
    hide Num, Pow2;
    NumSplit(d, p, i, m - i);
    FieldsUnique(Num(d, p, m), low, Pow2(i), high);
  }

  lemma Lower(d: seq<byte>, p: nat, m: nat, n: nat, v: nat, high: nat)
    requires n <= m && Has(d, p, m) && v < Pow2(n) && Num(d, p, m) == v + Pow2(n) * high
    ensures Num(d, p, n) == v
  {
    hide Num, Pow2;
    NumSplit(d, p, n, m - n);
    FieldsUnique(Num(d, p, m), v, Pow2(n), high);
  }

  /** A code is a field with its bits reversed. */
  lemma CodeField(d: seq<byte>, p: nat, n: nat, v: nat)
    requires FieldAt(d, p, n, v)
    ensures Has(d, p, n) && CodeBits(d, p, n) == Rev(v, n)
  {
    CodeBitsRev(d, p, n, n);
  }

  lemma ReversedBits()
    ensures Rev(0, 1) == 0 && Rev(1, 1) == 1
    ensures Rev(0, 2) == 0 && Rev(1, 2) == 2 && Rev(2, 2) == 1 && Rev(3, 2) == 3
    ensures Rev(0, 3) == 0 && Rev(1, 3) == 4 && Rev(2, 3) == 2 && Rev(3, 3) == 6
    ensures Rev(4, 3) == 1 && Rev(5, 3) == 5 && Rev(6, 3) == 3 && Rev(7, 3) == 7
  {
    Pow2Values();
  }

  // A dynamic block

  /** The letters a to f, 258 times the last one again, and the end of the last block. */
  const DYNAMIC: seq<byte> := [237, 192, 55, 1, 0, 0, 0, 2, 160, 172, 206, 254, 17, 252, 59, 8, 40, 167, 55, 0]

  /** The lengths in its header: its literal/length codes, and its one distance code. */
  function Lengths(): (l: seq<nat>)
    ensures |l| == 287
  {
    seq(287, i => if 97 <= i <= 102 || i == 256 || i == 285 then 3 else if i == 286 then 1 else 0)
  }

  function Lit(): (l: seq<nat>)
    ensures |l| == 286
  {
    Lengths()[..286]
  }

  const CLENS: seq<nat> := [0, 2, 0, 2, 0, 0, 0, 0, 0, 0, 0, 0, 0, 0, 0, 0, 3, 3, 2]

  const ITEMS: seq<Item> := [Zeros(97), Length(3), Again(5), Zeros(138), Zeros(15), Length(3), Zeros(10), Zeros(18),
                             Length(3), Length(1)]

  /** Where the items are, and how many lengths are there before each. */
  const ITEM_AT: seq<nat> := [71, 80, 82, 87, 96, 105, 107, 113, 122, 124, 126]
  const ITEM_FROM: seq<nat> := [0, 97, 98, 103, 241, 256, 257, 267, 285, 286, 287]

  lemma ClenBits(i: nat)
    requires i < 18
    ensures FieldAt(DYNAMIC, 17 + 3 * i, 3, CLENS[InOrder(i)])
  {
    hide FieldAt, Pow2;
    Pow2Values();
    match i
    case 0 => Field(DYNAMIC, 2, 1, 3, 1, 3, 19);
    case 1 => Field(DYNAMIC, 2, 4, 3, 7, 3, 2);
    case 2 => Field(DYNAMIC, 2, 7, 3, 55, 2, 0);
    case 3 => Field(DYNAMIC, 3, 2, 3, 1, 0, 0);
    case 4 => Field(DYNAMIC, 3, 5, 3, 1, 0, 0);
    case 5 => Field(DYNAMIC, 4, 0, 3, 0, 0, 0);
    case 6 => Field(DYNAMIC, 4, 3, 3, 0, 0, 0);
    case 7 => Field(DYNAMIC, 4, 6, 3, 0, 0, 0);
    case 8 => Field(DYNAMIC, 5, 1, 3, 0, 0, 0);
    case 9 => Field(DYNAMIC, 5, 4, 3, 0, 0, 0);
    case 10 => Field(DYNAMIC, 5, 7, 3, 0, 0, 0);
    case 11 => Field(DYNAMIC, 6, 2, 3, 0, 0, 16);
    case 12 => Field(DYNAMIC, 6, 5, 3, 0, 0, 2);
    case 13 => Field(DYNAMIC, 7, 0, 3, 0, 2, 5120);
    case 14 => Field(DYNAMIC, 7, 3, 3, 2, 0, 640);
    case 15 => Field(DYNAMIC, 7, 6, 3, 2, 0, 80);
    case 16 => Field(DYNAMIC, 8, 1, 3, 0, 0, 2762);
    case 17 => Field(DYNAMIC, 8, 4, 3, 0, 2, 345);
  }

  lemma ClensStand()
    ensures ClensAt(DYNAMIC, 17, CLENS, 18)
  {
    hide FieldAt, Num;
    forall i | 0 <= i < 18 ensures FieldAt(DYNAMIC, 17 + 3 * i, 3, CLENS[InOrder(i)]) {
      ClenBits(i);
    }
  }

  /** How many of the code lengths, and of those before each, have codes of n bits. */
  lemma ClenCounts(n: nat)
    requires 0 < n
    ensures CountTo(CLENS, 1, n) == 0 && CountTo(CLENS, 3, n) == (if n == 2 then 1 else 0)
    ensures CountTo(CLENS, 16, n) == (if n == 2 then 2 else 0)
    ensures CountTo(CLENS, 17, n) == if n == 2 then 2 else if n == 3 then 1 else 0
    ensures CountTo(CLENS, 18, n) == if n == 2 then 2 else if n == 3 then 2 else 0
    ensures CountTo(CLENS, 19, n) == if n == 2 then 3 else if n == 3 then 2 else 0
  {
    hide CountTo;
    CountNone(CLENS, n);
    CountOfEqual(CLENS, 0, 1, 0, n);
    CountOfEqual(CLENS, 1, 2, 2, n);
    CountOfEqual(CLENS, 2, 3, 0, n);
    CountOfEqual(CLENS, 3, 4, 2, n);
    CountOfEqual(CLENS, 4, 16, 0, n);
    CountOfEqual(CLENS, 16, 17, 3, n);
    CountOfEqual(CLENS, 17, 18, 3, n);
    CountOfEqual(CLENS, 18, 19, 2, n);
  }

  /** The value after the last code of 1, 2 and 3 bits. */
  lemma EndsOf(l: seq<nat>)
    ensures End(l, |l|, 1) == CountTo(l, |l|, 1) && End(l, |l|, 2) == 2 * End(l, |l|, 1) + CountTo(l, |l|, 2)
    ensures End(l, |l|, 3) == 2 * End(l, |l|, 2) + CountTo(l, |l|, 3)
    ensures First(l, 1) == 0 && First(l, 2) == 2 * End(l, |l|, 1) && First(l, 3) == 2 * End(l, |l|, 2)
  {
    assert End(l, |l|, 0) == 0;
  }

  /** The code of the code lengths. */
  lemma ClenCodes(s: nat)
    requires s in {1, 3, 16, 17, 18}
    ensures Code(CLENS, s)
         == if s == 1 then 0 else if s == 3 then 1 else if s == 18 then 2 else if s == 16 then 6 else 7
  {
    hide CountTo, First, End;
    ClenCounts(1);
    ClenCounts(2);
    ClenCounts(3);
    EndsOf(CLENS);
  }

  lemma ClensAccepted()
    ensures Accepted(CLENS)
  {
    hide CountTo, First, End, Kraft;
    ClenCounts(1);
    ClenCounts(2);
    ClenCounts(3);
    EndsOf(CLENS);
    EndIsKraft(CLENS, 19, 3);
    assert CLENS[16] == 3;
    LongestIs(CLENS, 16, 3);
    Pow2Values();
  }

  lemma LongestIs(l: seq<nat>, i: nat, m: nat)
    requires i < |l| && l[i] == m && forall j | 0 <= j < |l| :: l[j] <= m
    ensures MaxLen(l, |l|) == m
  {
  }

  /** The codes of the code lengths, first bit lowest. */
  function ReversedCode(s: nat): nat {
    if s == 1 then 0 else if s == 3 then 2 else if s == 18 then 1 else if s == 16 then 3 else 7
  }

  lemma ItemCode(k: nat)
    requires k < 10
    ensures Stands(CLENS, DYNAMIC, ITEM_AT[k], Coded(ITEMS[k]).0)
  {
    hide FieldAt, Pow2, Rev, Code, CodeBits;
    Pow2Values();
    ReversedBits();
    var p, s := ITEM_AT[k], Coded(ITEMS[k]).0;
    ClenCodes(s);
    ItemCodeBits(k);
    CodeField(DYNAMIC, p, CLENS[s], ReversedCode(s));
  }

  lemma ItemCodeBits(k: nat)
    requires k < 10
    ensures FieldAt(DYNAMIC, ITEM_AT[k], CLENS[Coded(ITEMS[k]).0], ReversedCode(Coded(ITEMS[k]).0))
  {
    hide FieldAt, Pow2;
    Pow2Values();
    match k
    case 0 => Field(DYNAMIC, 8, 7, 2, 32, 1, 86);
    case 1 => Field(DYNAMIC, 10, 0, 2, 0, 2, 16307);
    case 2 => Field(DYNAMIC, 10, 2, 3, 2, 3, 2038);
    case 3 => Field(DYNAMIC, 10, 7, 2, 78, 1, 127);
    case 4 => Field(DYNAMIC, 12, 0, 2, 0, 1, 16132);
    case 5 => Field(DYNAMIC, 13, 1, 2, 0, 2, 1919);
    case 6 => Field(DYNAMIC, 13, 3, 3, 4, 7, 239);
    case 7 => Field(DYNAMIC, 14, 1, 2, 1, 1, 263);
    case 8 => Field(DYNAMIC, 15, 2, 2, 0, 2, 640);
    case 9 => Field(DYNAMIC, 15, 4, 2, 8, 0, 160);
  }

  lemma ItemExtra(k: nat)
    requires k < 10
    ensures FieldAt(DYNAMIC, ITEM_AT[k] + CLENS[Coded(ITEMS[k]).0], Coded(ITEMS[k]).1, Coded(ITEMS[k]).2)
  {
    hide FieldAt, Pow2;
    Pow2Values();
    match k
    case 0 => Field(DYNAMIC, 9, 1, 7, 0, 86, 206);
    case 1 => Field(DYNAMIC, 10, 2, 0, 2, 0, 16307);
    case 2 => Field(DYNAMIC, 10, 5, 2, 14, 2, 509);
    case 3 => Field(DYNAMIC, 11, 1, 7, 0, 127, 17);
    case 4 => Field(DYNAMIC, 12, 2, 7, 1, 4, 126);
    case 5 => Field(DYNAMIC, 13, 3, 0, 4, 0, 1919);
    case 6 => Field(DYNAMIC, 13, 6, 3, 60, 7, 29);
    case 7 => Field(DYNAMIC, 14, 3, 7, 3, 7, 2);
    case 8 => Field(DYNAMIC, 15, 4, 0, 8, 0, 640);
    case 9 => Field(DYNAMIC, 15, 6, 0, 8, 0, 160);
  }

  /** What an item adds to the lengths before it. */
  lemma ItemMeant(k: nat)
    requires k < 10
    ensures Coded(ITEMS[k]).0 < 19 && ITEM_FROM[k] <= ITEM_FROM[k + 1] <= 287
    ensures Codable(ITEMS[k]) && (ITEMS[k].Again? ==> 0 < ITEM_FROM[k])
    ensures Lengths()[..ITEM_FROM[k]] + Meant(Lengths()[..ITEM_FROM[k]], ITEMS[k]) == Lengths()[..ITEM_FROM[k + 1]]
    ensures ITEM_AT[k + 1] == ITEM_AT[k] + CLENS[Coded(ITEMS[k]).0] + Coded(ITEMS[k]).1
  {
  }

  lemma {:induction false} ItemsStand(k: nat)
    requires k <= 10
    ensures ITEM_FROM[k] <= 287
    ensures ItemsAt(CLENS, DYNAMIC, ITEM_AT[k], Lengths()[..ITEM_FROM[k]], ITEMS[k..], Lengths(), 126)
    decreases 10 - k
  {
    hide Lengths, FieldAt, Stands, Coded, Meant, Codable;
    if k == 10 {
      assert Lengths()[..287] == Lengths() && ITEMS[10..] == [];
    } else {
      ItemMeant(k);
      ItemCode(k);
      ItemExtra(k);
      ItemsStand(k + 1);
      assert ITEMS[k..][1..] == ITEMS[k + 1..] && ITEMS[k..][0] == ITEMS[k];
    }
  }

  /** How many of the first i literal/length codes have n bits. */
  lemma LitCount(i: nat, n: nat)
    requires i in {97, 98, 99, 100, 101, 102, 103, 256, 285, 286} && 0 < n
    ensures CountTo(Lit(), i, n) == if n != 3 then 0 else if i <= 103 then i - 97 else if i <= 256 then 6 else i - 278
  {
    hide CountTo;
    var l := Lit();
    CountNone(l, n);
    CountOfEqual(l, 0, 97, 0, n);
    CountOfEqual(l, 97, if i < 103 then i else 103, 3, n);
    if 103 < i {
      CountOfEqual(l, 103, 256, 0, n);
    }
    if 256 < i {
      CountOfEqual(l, 256, 257, 3, n);
      CountOfEqual(l, 257, 285, 0, n);
      CountOfEqual(l, 285, i, 3, n);
    }
  }

  lemma LitCodes(s: nat)
    requires 97 <= s <= 102 || s == 256 || s == 285
    ensures Lit()[s] == 3 && Code(Lit(), s) == if s <= 102 then s - 97 else if s == 256 then 6 else 7
  {
    hide CountTo, First, End;
    LitCount(286, 1);
    LitCount(286, 2);
    EndsOf(Lit());
    LitCount(s, 3);
  }

  lemma CodesAccepted()
    ensures Accepted(Lit()) && Accepted([1])
  {
    hide CountTo, First, End, Kraft;
    LitCount(286, 1);
    LitCount(286, 2);
    LitCount(286, 3);
    EndsOf(Lit());
    EndIsKraft(Lit(), 286, 3);
    assert Lit()[256] == 3;
    LongestIs(Lit(), 256, 3);
    OneCode();
    Pow2Values();
  }

  /** A single code of one bit. */
  lemma OneCode()
    ensures Accepted([1]) && Code([1], 0) == 0
  {
    hide Pow2;
    Pow2Values();
    assert [1][0] == 1;
    LongestIs([1], 0, 1);
    CountNone([1], 1);
    EndsOf([1]);
    assert Kraft([1], 0, 1) == 0;
  }

  lemma DynamicHeader()
    ensures HeaderAt(DYNAMIC, 3, Lit(), [1], 18, CLENS, ITEMS, 126)
  {
    hide FieldAt, Pow2, ClensAt, ItemsAt, Lengths;
    Pow2Values();
    Field(DYNAMIC, 0, 3, 5, 5, 29, 192);
    Field(DYNAMIC, 1, 0, 5, 0, 0, 446);
    Field(DYNAMIC, 1, 5, 4, 0, 14, 27);
    ClensStand();
    ItemsStand(0);
    LastLength();
    assert Lengths()[..0] == [] && ITEMS[0..] == ITEMS && Lit() + [1] == Lengths();
  }

  lemma LastLength()
    ensures Lengths()[286] == 1
  {
  }

  const TOKENS: seq<Token> := [Literal(97), Literal(98), Literal(99), Literal(100), Literal(101), Literal(102),
                               Match(258, 1)]

  lemma LetterBits(k: nat)
    requires k < 8
    ensures FieldAt(DYNAMIC, 126 + 3 * k + (if k == 7 then 1 else 0), 3,
                    if k < 6 then Rev(k, 3) else if k == 6 then 7 else 3)
  {
    hide FieldAt, Pow2, Rev;
    Pow2Values();
    ReversedBits();
    match k
    case 0 => Field(DYNAMIC, 15, 6, 3, 8, 0, 20);
    case 1 => Field(DYNAMIC, 16, 1, 3, 0, 4, 2674);
    case 2 => Field(DYNAMIC, 16, 4, 3, 8, 2, 334);
    case 3 => Field(DYNAMIC, 16, 7, 3, 40, 6, 41);
    case 4 => Field(DYNAMIC, 17, 2, 3, 3, 1, 445);
    case 5 => Field(DYNAMIC, 17, 5, 3, 7, 5, 55);
    case 6 => Field(DYNAMIC, 18, 0, 3, 0, 7, 6);
    case 7 => Field(DYNAMIC, 18, 4, 3, 7, 3, 0);
  }

  lemma SymbolStands(k: nat)
    requires k < 8
    ensures Stands(Lit(), DYNAMIC, 126 + 3 * k + (if k == 7 then 1 else 0),
                   if k < 6 then 97 + k else if k == 6 then 285 else 256)
  {
    hide FieldAt, Rev, Lit, Code, CodeBits;
    LetterBits(k);
    var p := 126 + 3 * k + (if k == 7 then 1 else 0);
    CodeField(DYNAMIC, p, 3, if k < 6 then Rev(k, 3) else if k == 6 then 7 else 3);
    LitCodes(if k < 6 then 97 + k else if k == 6 then 285 else 256);
    ReversedBits();
  }

  lemma MatchStands()
    ensures TokenAt(Lit(), [1], DYNAMIC, 144, Match(258, 1))
  {
    hide Rev, Lit, Code, CodeBits, Num, Pow2;
    Pow2Values();
    SymbolStands(6);
    LitCodes(285);
    OneCode();
    Field(DYNAMIC, 18, 3, 1, 7, 0, 3);
    CodeField(DYNAMIC, 147, 1, 0);
    ReversedBits();
    NoBits(DYNAMIC, 147);
    NoBits(DYNAMIC, 148);
  }

  lemma TokenStands(k: nat)
    requires k < 7
    ensures TokenAt(Lit(), [1], DYNAMIC, 126 + 3 * k, TOKENS[k])
    ensures Width(Lit(), [1], TOKENS[k]) == if k == 6 then 4 else 3
  {
    hide Lit, FieldAt, CodeAt;
    if k == 6 {
      MatchStands();
      LitCodes(285);
    } else {
      SymbolStands(k);
      LitCodes(97 + k);
    }
  }

  lemma {:induction false} TokensStand(k: nat)
    requires k <= 7
    ensures TokensAt(Lit(), [1], DYNAMIC, if k == 7 then 148 else 126 + 3 * k, TOKENS[k..], 151)
    decreases 7 - k
  {
    hide Lit, Stands, TokenAt, Width;
    if k == 7 {
      SymbolStands(7);
      LitCodes(256);
    } else {
      TokenStands(k);
      TokensStand(k + 1);
      assert TOKENS[k..][1..] == TOKENS[k + 1..] && TOKENS[k..][0] == TOKENS[k];
    }
  }

  lemma {:induction false} CopyOfLast(h: seq<byte>, x: byte, n: nat)
    requires h != [] && h[|h| - 1] == x
    ensures CopyBytes(h, 1, n) == h + seq(n, _ => x)
  {
    if 0 < n {
      CopyOfLast(h, x, n - 1);
    }
  }

  lemma LastExpands()
    ensures MatchesWithin(6, TOKENS[6..])
    ensures Expand([97, 98, 99, 100, 101, 102], TOKENS[6..]) == [97, 98, 99, 100, 101, 102] + seq(258, _ => 102)
  {
    hide CopyBytes;
    var s: seq<byte> := [97, 98, 99, 100, 101, 102];
    assert TOKENS[6..] == [Match(258, 1)] && TOKENS[6..][1..] == [];
    CopyOfLast(s, 102, 258);
    assert Expand(CopyBytes(s, 1, 258), []) == CopyBytes(s, 1, 258);
  }

  /** The tokens are the letters and the repetitions. */
  lemma {:induction false} LettersExpand(k: nat)
    requires k <= 6
    ensures MatchesWithin(k, TOKENS[k..])
    ensures Expand([97, 98, 99, 100, 101, 102][..k], TOKENS[k..])
         == [97, 98, 99, 100, 101, 102] + seq(258, _ => 102)
    decreases 6 - k
  {
    hide CopyBytes;
    var s: seq<byte> := [97, 98, 99, 100, 101, 102];
    assert TOKENS[k..][0] == TOKENS[k] && TOKENS[k..][1..] == TOKENS[k + 1..];
    if k == 6 {
      assert s[..6] == s;
      LastExpands();
    } else {
      LettersExpand(k + 1);
      assert TOKENS[k] == Literal(s[k]) && s[..k] + [s[k]] == s[..k + 1];
    }
  }

  lemma DynamicStands()
    ensures BlockAt(DYNAMIC, 0, Dynamic(Lit(), [1], 18, CLENS, ITEMS, 126, TOKENS), true, 151)
  {
    hide FieldAt, HeaderAt, TokensAt, Lit, Accepted;
    CodesAccepted();
    ClensAccepted();
    DynamicHeader();
    TokensStand(0);
    assert TOKENS[0..] == TOKENS;
    DynamicMarks();
  }

  /** The stream is decoded to the letters a to f and 258 times the letter f. */
  lemma DynamicDecodes()
    ensures Run(DYNAMIC, Config(Deflate.Block, 0, []))
         == Config(Done, 151, [97, 98, 99, 100, 101, 102] + seq(258, _ => 102))
  {
    hide Run, BlockAt, Lit, Expand, MatchesWithin;
    DynamicStands();
    LettersExpand(0);
    assert TOKENS[0..] == TOKENS && [97, 98, 99, 100, 101, 102][..0] == [];
    BlockReads(DYNAMIC, 0, Dynamic(Lit(), [1], 18, CLENS, ITEMS, 126, TOKENS), true, 151, []);
    RunStopped(DYNAMIC, Config(Done, 151, [97, 98, 99, 100, 101, 102] + seq(258, _ => 102)));
  }

  lemma DynamicMarks()
    ensures FieldAt(DYNAMIC, 0, 1, 1) && FieldAt(DYNAMIC, 1, 2, 2)
  {
    hide FieldAt, Pow2;
    Pow2Values();
    Field(DYNAMIC, 0, 0, 1, 0, 1, 24694);
    Field(DYNAMIC, 0, 1, 2, 1, 2, 6173);
  }

  // A file

  /** Four bits as a number. */
  function Nibble(s: (bool, bool, bool, bool)): nat {
    (if s.0 then 8 else 0) + (if s.1 then 4 else 0) + (if s.2 then 2 else 0) + (if s.3 then 1 else 0)
  }

  lemma NextBit(a: nat, s: bool, b: nat, t: bool, n: nat)
    ensures Xor(2 * a + (if s then 1 else 0), 2 * b + (if t then 1 else 0), n + 1)
         == 2 * Xor(a, b, n) + if s != t then 1 else 0
  {
    hide Pow2;
  }

  lemma NextFour(a: nat, s: (bool, bool, bool, bool), b: nat, t: (bool, bool, bool, bool), n: nat)
    ensures Xor(16 * a + Nibble(s), 16 * b + Nibble(t), n + 4)
         == 16 * Xor(a, b, n) + Nibble((s.0 != t.0, s.1 != t.1, s.2 != t.2, s.3 != t.3))
  {
    hide Xor;
    NextBit(a, s.0, b, t.0, n);
    var a1, b1 := 2 * a + (if s.0 then 1 else 0), 2 * b + (if t.0 then 1 else 0);
    NextBit(a1, s.1, b1, t.1, n + 1);
    var a2, b2 := 2 * a1 + (if s.1 then 1 else 0), 2 * b1 + (if t.1 then 1 else 0);
    NextBit(a2, s.2, b2, t.2, n + 2);
    var a3, b3 := 2 * a2 + (if s.2 then 1 else 0), 2 * b2 + (if t.2 then 1 else 0);
    NextBit(a3, s.3, b3, t.3, n + 3);
  }

  lemma XorNone(a: nat, b: nat)
    ensures Xor(a, b, 0) == 0
  {
  }

  lemma Xor0()
    ensures Xor32(0xFFFFFFFF, 0x61) == 0xFFFFFF9E
  {
    hide Xor, Pow2;
    XorNone(0, 0);
    NextFour(0x0, (true, true, true, true), 0x0, (false, false, false, false), 0);
    NextFour(0xF, (true, true, true, true), 0x0, (false, false, false, false), 4);
    NextFour(0xFF, (true, true, true, true), 0x0, (false, false, false, false), 8);
    NextFour(0xFFF, (true, true, true, true), 0x0, (false, false, false, false), 12);
    NextFour(0xFFFF, (true, true, true, true), 0x0, (false, false, false, false), 16);
    NextFour(0xFFFFF, (true, true, true, true), 0x0, (false, false, false, false), 20);
    NextFour(0xFFFFFF, (true, true, true, true), 0x0, (false, true, true, false), 24);
    NextFour(0xFFFFFFF, (true, true, true, true), 0x6, (false, false, false, true), 28);
  }

  lemma Xor1()
    ensures Xor32(0x3FFFFFE7, 0xEDB88320) == 0xD2477CC7
  {
    hide Xor, Pow2;
    XorNone(0, 0);
    NextFour(0x0, (false, false, true, true), 0x0, (true, true, true, false), 0);
    NextFour(0x3, (true, true, true, true), 0xE, (true, true, false, true), 4);
    NextFour(0x3F, (true, true, true, true), 0xED, (true, false, true, true), 8);
    NextFour(0x3FF, (true, true, true, true), 0xEDB, (true, false, false, false), 12);
    NextFour(0x3FFF, (true, true, true, true), 0xEDB8, (true, false, false, false), 16);
    NextFour(0x3FFFF, (true, true, true, true), 0xEDB88, (false, false, true, true), 20);
    NextFour(0x3FFFFF, (true, true, true, false), 0xEDB883, (false, false, true, false), 24);
    NextFour(0x3FFFFFE, (false, true, true, true), 0xEDB8832, (false, false, false, false), 28);
  }

  lemma Xor2()
    ensures Xor32(0x6923BE63, 0xEDB88320) == 0x849B3D43
  {
    hide Xor, Pow2;
    XorNone(0, 0);
    NextFour(0x0, (false, true, true, false), 0x0, (true, true, true, false), 0);
    NextFour(0x6, (true, false, false, true), 0xE, (true, true, false, true), 4);
    NextFour(0x69, (false, false, true, false), 0xED, (true, false, true, true), 8);
    NextFour(0x692, (false, false, true, true), 0xEDB, (true, false, false, false), 12);
    NextFour(0x6923, (true, false, true, true), 0xEDB8, (true, false, false, false), 16);
    NextFour(0x6923B, (true, true, true, false), 0xEDB88, (false, false, true, true), 20);
    NextFour(0x6923BE, (false, true, true, false), 0xEDB883, (false, false, true, false), 24);
    NextFour(0x6923BE6, (false, false, true, true), 0xEDB8832, (false, false, false, false), 28);
  }

  lemma Xor3()
    ensures Xor32(0x424D9EA1, 0xEDB88320) == 0xAFF51D81
  {
    hide Xor, Pow2;
    XorNone(0, 0);
    NextFour(0x0, (false, true, false, false), 0x0, (true, true, true, false), 0);
    NextFour(0x4, (false, false, true, false), 0xE, (true, true, false, true), 4);
    NextFour(0x42, (false, true, false, false), 0xED, (true, false, true, true), 8);
    NextFour(0x424, (true, true, false, true), 0xEDB, (true, false, false, false), 12);
    NextFour(0x424D, (true, false, false, true), 0xEDB8, (true, false, false, false), 16);
    NextFour(0x424D9, (true, true, true, false), 0xEDB88, (false, false, true, true), 20);
    NextFour(0x424D9E, (true, false, true, false), 0xEDB883, (false, false, true, false), 24);
    NextFour(0x424D9EA, (false, false, false, true), 0xEDB8832, (false, false, false, false), 28);
  }

  lemma Xor4()
    ensures Xor32(0x57FA8EC0, 0xEDB88320) == 0xBA420DE0
  {
    hide Xor, Pow2;
    XorNone(0, 0);
    NextFour(0x0, (false, true, false, true), 0x0, (true, true, true, false), 0);
    NextFour(0x5, (false, true, true, true), 0xE, (true, true, false, true), 4);
    NextFour(0x57, (true, true, true, true), 0xED, (true, false, true, true), 8);
    NextFour(0x57F, (true, false, true, false), 0xEDB, (true, false, false, false), 12);
    NextFour(0x57FA, (true, false, false, false), 0xEDB8, (true, false, false, false), 16);
    NextFour(0x57FA8, (true, true, true, false), 0xEDB88, (false, false, true, true), 20);
    NextFour(0x57FA8E, (true, true, false, false), 0xEDB883, (false, false, true, false), 24);
    NextFour(0x57FA8EC, (false, false, false, false), 0xEDB8832, (false, false, false, false), 28);
  }

  lemma Shifted()
    ensures Shift(0xFFFF_FF9E, 8) == 0x1748_41BC
  {
    hide Xor32, Shift;
    Xor1();
    Xor2();
    Xor3();
    Xor4();
    ShiftEven(0x7FFF_FFCF, 7);
    ShiftOdd(0x3FFF_FFE7, 6);
    ShiftOdd(0x6923_BE63, 5);
    ShiftOdd(0x424D_9EA1, 4);
    ShiftOdd(0x57FA_8EC0, 3);
    ShiftEven(0x5D21_06F0, 2);
    ShiftEven(0x2E90_8378, 1);
    ShiftEven(0x1748_41BC, 0);
    ShiftNone(0x1748_41BC);
  }

  lemma ShiftEven(h: nat, k: nat)
    requires 2 * h < 0x1_0000_0000
    ensures Shift(2 * h, k + 1) == Shift(h, k)
  {
  }

  lemma ShiftOdd(h: nat, k: nat)
    requires 2 * h + 1 < 0x1_0000_0000
    ensures Shift(2 * h + 1, k + 1) == Shift(Xor32(h, POLYNOMIAL), k)
  {
    hide Xor32;
  }

  lemma ShiftNone(c: u32)
    ensures Shift(c, 0) == c
  {
  }

  /** The checksum of the letter a. */
  lemma ChecksumOfA()
    ensures Update(0, [97]) == 0xE8B7_BE43
  {
    hide Xor32, Shift;
    Xor0();
    Shifted();
    assert Feed(0xFFFF_FFFF, []) == 0xFFFF_FFFF;
    var s: seq<byte> := [97];
    assert s[..0] == [];
    assert Feed(0xFFFF_FFFF, s) == Shift(Xor32(0xFFFF_FFFF, 97), 8);
  }

  /** The gzip file of the letter a. */
  const LETTER: seq<byte> := [0x1F, 0x8B, 8, 0, 0, 0, 0, 0, 0, 3, 0x4B, 4, 0, 0x43, 0xBE, 0xB7, 0xE8, 1, 0, 0, 0]

  lemma ReversedByte()
    ensures Rev(137, 8) == 145 && Rev(0, 7) == 0
  {
    assert Rev(137, 0) == 0;
    assert BitOf(137, 0) == 1 && BitOf(137, 1) == 0 && BitOf(137, 2) == 0 && BitOf(137, 3) == 1;
    assert BitOf(137, 4) == 0 && BitOf(137, 5) == 0 && BitOf(137, 6) == 0 && BitOf(137, 7) == 1;
    assert Rev(137, 4) == 9;
  }

  /** Its one block. */
  lemma LetterBlock()
    ensures BlocksAt(LETTER, 80, [Placed(Fixed([Literal(97)]), 98)], 98)
  {
    hide FieldAt, Pow2, Rev, FixedLit, Code, CodeBits, Num;
    Pow2Values();
    Field(LETTER, 10, 0, 1, 0, 1, 549);
    Field(LETTER, 10, 1, 2, 1, 1, 137);
    Field(LETTER, 10, 3, 8, 3, 137, 0);
    Field(LETTER, 11, 3, 7, 4, 0, 0);
    ReversedByte();
    CodeField(LETTER, 83, 8, 137);
    CodeField(LETTER, 91, 7, 0);
    FixedLitCodes(97);
    FixedLitCodes(256);
    var toks: seq<Token> := [Literal(97)];
    assert toks[1..] == [];
    assert TokensAt(FixedLit(), FixedDist(), LETTER, 91, [], 98);
    assert TokensAt(FixedLit(), FixedDist(), LETTER, 83, toks, 98);
  }

  lemma LetterText()
    ensures BlocksWithin([], [Placed(Fixed([Literal(97)]), 98)])
    ensures Text([], [Placed(Fixed([Literal(97)]), 98)]) == [97]
  {
    var toks: seq<Token> := [Literal(97)];
    assert toks[1..] == [] && MatchesWithin(1, toks[1..]) && Expand([] + [97], toks[1..]) == [97];
    assert Expand([], toks) == [97];
  }

  lemma LittleEndianOf(a: byte, b: byte, c: byte, e: byte)
    ensures LittleEndian(a + 256 * b + 0x1_0000 * c + 0x100_0000 * e) == [a, b, c, e]
  {
    var x := a + 256 * b + 0x1_0000 * c + 0x100_0000 * e;
    FieldsUnique(x, a, 256, b + 256 * c + 0x1_0000 * e);
    FieldsUnique(x, a + 256 * b, 0x1_0000, c + 256 * e);
    FieldsUnique(x, a + 256 * b + 0x1_0000 * c, 0x100_0000, e);
  }

  function LetterMember(): Member {
    Member(GzipHeaders.Header(0, [0, 0, 0, 0, 0, 3], [], [], []), [Placed(Fixed([Literal(97)]), 98)], 98)
  }

  lemma LetterStands()
    ensures MemberAt(LETTER, 0, LetterMember())
  {
    hide BlocksAt, Text, BlocksWithin, Update, LittleEndian;
    LetterBlock();
    LetterText();
    ChecksumOfA();
    assert HeaderBytes(LetterMember().h) == LETTER[0..10];
    LittleEndianOf(0x43, 0xBE, 0xB7, 0xE8);
    LittleEndianOf(1, 0, 0, 0);
    assert [0x43, 0xBE, 0xB7, 0xE8] + [1, 0, 0, 0] == LETTER[13..21];
  }

  /** The file is read as the letter a, and ends well. */
  lemma LetterReads()
    ensures From(LETTER, 0, true, true) == Decoded([97], true)
  {
    hide From, MemberAt, Text, BlocksWithin;
    LetterStands();
    LetterText();
    var ms := [LetterMember()];
    assert ms[1..] == [] && MembersAt(LETTER, 21, ms[1..]) && MembersAt(LETTER, 0, ms);
    FileReads(LETTER, 0, ms);
    assert Texts(ms[1..]) == [];
  }

  // A code

  /** The example of section 3.2.2 of RFC 1951. */
  lemma CodeOfLetters(l: seq<nat>)
    requires l == [3, 3, 3, 3, 3, 2, 4, 4]
    ensures Code(l, 0) == 2 && Code(l, 1) == 3 && Code(l, 2) == 4 && Code(l, 3) == 5 && Code(l, 4) == 6
    ensures Code(l, 5) == 0 && Code(l, 6) == 14 && Code(l, 7) == 15
  {
    hide CountTo, First, End;
    forall n: nat | 1 <= n <= 4
      ensures CountTo(l, 8, n) == if n == 3 then 5 else if n == 2 then 1 else if n == 4 then 2 else 0
      ensures CountTo(l, 5, n) == if n == 3 then 5 else 0
      ensures forall i | 0 <= i < 5 :: CountTo(l, i, n) == if n == 3 then i else 0
      ensures CountTo(l, 6, n) == CountTo(l, 5, n) + if n == 2 then 1 else 0
      ensures CountTo(l, 7, n) == CountTo(l, 6, n) + if n == 4 then 1 else 0
    {
      CountNone(l, n);
      forall i: nat | i <= 5 ensures CountTo(l, i, n) == if n == 3 then i else 0 {
        CountOfEqual(l, 0, i, 3, n);
      }
      CountOfEqual(l, 5, 6, 2, n);
      CountOfEqual(l, 6, 7, 4, n);
      CountOfEqual(l, 7, 8, 4, n);
    }
    EndsOf(l);
    FourthFirst(l);
  }

  lemma FourthFirst(l: seq<nat>)
    ensures First(l, 4) == 2 * End(l, |l|, 3)
  {
  }
}
