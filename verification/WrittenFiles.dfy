/** Files as an encoder writes them, block by block and member by member, and that they are read back. */
module WrittenFiles {
  import opened Bits
  import opened Canonical
  import opened Deflate
  import opened Input
  import opened Gzip
  import opened Checksum
  import opened Members
  import opened Tokens
  import opened DynamicHeaders
  import opened GzipHeaders
  import opened Readers
  import BlockCodes

  // Blocks

  /** A block as it is written: its bytes, or its tokens with the fixed codes or with codes of its own. */
  datatype Block =
    | Stored(data: seq<byte>)
    | Fixed(toks: seq<Token>)
    | Dynamic(lit: seq<nat>, dist: seq<nat>, nclen: nat, cl: seq<nat>, items: seq<Item>, h: nat, toks: seq<Token>)

  /** A block stands at bits p to q. */
  predicate BlockAt(d: seq<byte>, p: nat, b: Block, final: bool, q: nat) {
    && FieldAt(d, p, 1, if final then 1 else 0)
    && match b
       case Stored(x) =>
         var s, n := (p + 3 + 7) / 8, |x|;
         && FieldAt(d, p + 1, 2, 0) && n < 0x1_0000 && q == 8 * (s + 4 + n)
         && StandsAt(d, s, [n % 256, n / 256, 255 - n % 256, 255 - n / 256] + x)
       case Fixed(toks) => FieldAt(d, p + 1, 2, 1) && TokensAt(FixedLit(), FixedDist(), d, p + 3, toks, q)
       case Dynamic(lit, dist, nclen, cl, items, h, toks) =>
         && FieldAt(d, p + 1, 2, 2) && HeaderAt(d, p + 3, lit, dist, nclen, cl, items, h)
         && Accepted(cl) && Accepted(lit) && Accepted(dist) && TokensAt(lit, dist, d, h, toks, q)
  }

  /** Its matches stay inside what is written before. */
  predicate BlockWithin(size: nat, b: Block) {
    b.Stored? || MatchesWithin(size, b.toks)
  }

  /** What is written when the block has been read. */
  function AfterBlock(out: seq<byte>, b: Block): (r: seq<byte>)
    requires BlockWithin(|out|, b)
    ensures out <= r
  {
    if b.Stored? then out + b.data else Expand(out, b.toks)
  }

  lemma StoredReads(d: seq<byte>, p: nat, x: seq<byte>, final: bool, q: nat, out: seq<byte>)
    requires BlockAt(d, p, Stored(x), final, q)
    ensures Run(d, Config(Deflate.Block, p, out)) == Run(d, Config(if final then Done else Deflate.Block, q, out + x))
  {
    hide Run, Num;
    var s, n := (p + 3 + 7) / 8, |x|;
    LengthStands(d, s, n, x);
    assert NextByte(p + 3) == s;
    RunStored(d, Config(Deflate.Block, p, out));
    RunRaw(d, n, final, s + 4, out, n);
    RunRawEnd(d, final, q, out + x);
  }

  lemma LengthStands(d: seq<byte>, s: nat, n: nat, x: seq<byte>)
    requires n == |x| < 0x1_0000 && StandsAt(d, s, [n % 256, n / 256, 255 - n % 256, 255 - n / 256] + x)
    ensures s + 4 + n <= |d| && Word(d, s) == n && Word(d, s + 2) == 0xFFFF - n && d[s + 4..s + 4 + n] == x
  {
    var l := [n % 256, n / 256, 255 - n % 256, 255 - n / 256];
    StandParts(d, s, l, x);
    assert d[s] == l[0] && d[s + 1] == l[1] && d[s + 2] == l[2] && d[s + 3] == l[3];
  }

  lemma FixedReads(d: seq<byte>, p: nat, toks: seq<Token>, final: bool, q: nat, out: seq<byte>)
    requires BlockAt(d, p, Fixed(toks), final, q) && MatchesWithin(|out|, toks)
    ensures Run(d, Config(Deflate.Block, p, out))
         == Run(d, Config(if final then Done else Deflate.Block, q, Expand(out, toks)))
  {
    hide Run, Num, FixedLit, FixedDist, DynamicCodes, StoredLen, TokensAt;
    var c := Config(Symbols(FixedLit(), FixedDist(), final), p + 3, out);
    HasHeader(d, p);
    RunTo(d, Config(Deflate.Block, p, out), c);
    TokensRead(d, c, toks, q);
  }

  lemma HasHeader(d: seq<byte>, p: nat)
    requires Has(d, p + 1, 2)
    ensures Has(d, p, 3)
  {
  }

  lemma DynamicReads(d: seq<byte>, p: nat, b: Block, final: bool, q: nat, out: seq<byte>)
    requires b.Dynamic? && BlockAt(d, p, b, final, q) && MatchesWithin(|out|, b.toks)
    ensures Run(d, Config(Deflate.Block, p, out))
         == Run(d, Config(if final then Done else Deflate.Block, q, Expand(out, b.toks)))
  {
    hide Run, Num, FixedLit, FixedDist, DynamicCodes, StoredLen, TokensAt, HeaderAt, Accepted;
    CodesRead(d, p + 3, b.lit, b.dist, b.nclen, b.cl, b.items, b.h);
    var c := Config(Symbols(b.lit, b.dist, final), b.h, out);
    HasHeader(d, p);
    RunTo(d, Config(Deflate.Block, p, out), c);
    TokensRead(d, c, b.toks, q);
  }

  lemma BlockReads(d: seq<byte>, p: nat, b: Block, final: bool, q: nat, out: seq<byte>)
    requires BlockAt(d, p, b, final, q) && BlockWithin(|out|, b)
    ensures Run(d, Config(Deflate.Block, p, out))
         == Run(d, Config(if final then Done else Deflate.Block, q, AfterBlock(out, b)))
  {
    hide Run, BlockAt, Expand;
    match b
    case Stored(x) => StoredReads(d, p, x, final, q, out);
    case Fixed(toks) => FixedReads(d, p, toks, final, q, out);
    case Dynamic(_, _, _, _, _, _, _) => DynamicReads(d, p, b, final, q, out);
  }

  lemma StoredWritten(d: seq<byte>, p: nat, out: seq<byte>) returns (x: seq<byte>, q: nat)
    requires Has(d, p, 3) && Num(d, p + 1, 2) == 0 && Run(d, Config(Deflate.Block, p, out)).mode.Done?
    ensures BlockAt(d, p, Stored(x), Num(d, p, 1) == 1, q) && p < q <= 8 * |d|
  {
    hide Run, Num, Word;
    RunStored(d, Config(Deflate.Block, p, out));
    var n, s := StoredLen(d, p + 3).value, NextByte(p + 3);
    DataStands(d, s + 4, n, Num(d, p, 1) == 1, out);
    x, q := d[s + 4..s + 4 + n], 8 * (s + 4 + n);
    StoredStands(d, s, n);
    FinalBit(d, p);
  }

  lemma StoredStands(d: seq<byte>, s: nat, n: nat)
    requires s + 4 + n <= |d| && Word(d, s) == n && Word(d, s + 2) == 0xFFFF - n
    ensures n < 0x1_0000
    ensures StandsAt(d, s, [n % 256, n / 256, 255 - n % 256, 255 - n / 256] + d[s + 4..s + 4 + n])
  {
    LengthBytes(d, s);
    StandParts(d, s, [n % 256, n / 256, 255 - n % 256, 255 - n / 256], d[s + 4..s + 4 + n]);
  }

  lemma DataStands(d: seq<byte>, q: nat, n: nat, final: bool, out: seq<byte>)
    requires q <= |d| && Run(d, Config(Raw(n, final), 8 * q, out)).mode.Done?
    ensures q + n <= |d|
  {
    hide Run;
    if |d| < q + n {
      RunRaw(d, n, final, q, out, |d| - q);
      RunRawShort(d, n - (|d| - q), final, |d|, out + d[q..|d|]);
    }
  }

  lemma LengthBytes(d: seq<byte>, s: nat)
    requires s + 4 <= |d| && Word(d, s) + Word(d, s + 2) == 0xFFFF
    ensures var n := Word(d, s); n < 0x1_0000 && StandsAt(d, s, [n % 256, n / 256, 255 - n % 256, 255 - n / 256])
  {
    FieldsUnique(Word(d, s), d[s], 256, d[s + 1]);
    FieldsUnique(Word(d, s + 2), d[s + 2], 256, d[s + 3]);
    FieldsUnique(0xFFFF - Word(d, s), 255 - d[s], 256, 255 - d[s + 1]);
    assert d[s..s + 4] == [d[s], d[s + 1], d[s + 2], d[s + 3]];
  }

  lemma FinalBit(d: seq<byte>, p: nat)
    requires Has(d, p, 1)
    ensures FieldAt(d, p, 1, if Num(d, p, 1) == 1 then 1 else 0)
  {
    hide Num;
    Pow2Values();
    assert Num(d, p, 1) < 2;
  }

  /** A block that is decoded has been written in one of the three ways. */
  lemma BlockWritten(d: seq<byte>, p: nat, out: seq<byte>) returns (b: Block, final: bool, q: nat)
    requires Run(d, Config(Deflate.Block, p, out)).mode.Done?
    ensures BlockAt(d, p, b, final, q) && BlockWithin(|out|, b) && p < q <= 8 * |d|
  {
    hide Run, Num, DynamicCodes, FixedLit, FixedDist, HeaderAt, TokensAt, StoredLen, Accepted, MatchesWithin;
    var c := Config(Deflate.Block, p, out);
    BadStays(d, c);
    FinalBit(d, p);
    TypeBound(d, p + 1);
    final := Num(d, p, 1) == 1;
    if Num(d, p + 1, 2) == 0 {
      var x;
      x, q := StoredWritten(d, p, out);
      b := Stored(x);
    } else {
      var toks;
      toks, q := TokensWritten(d, Step(d, c));
      if Num(d, p + 1, 2) == 1 {
        b := Fixed(toks);
      } else {
        var nclen, cl, items := CodesWritten(d, p + 3);
        var codes := DynamicCodes(d, p + 3).value;
        b := Dynamic(codes.0, codes.1, nclen, cl, items, codes.2, toks);
      }
    }
  }

  // Streams

  /** A block and the bit it ends at. */
  datatype Placed = Placed(b: Block, end: nat)

  /** Blocks stand one after the other from bit p on, the last one marked. */
  predicate BlocksAt(d: seq<byte>, p: nat, blocks: seq<Placed>, q: nat)
    decreases |blocks|
  {
    && blocks != [] && BlockAt(d, p, blocks[0].b, |blocks| == 1, blocks[0].end)
    && if |blocks| == 1 then q == blocks[0].end else BlocksAt(d, blocks[0].end, blocks[1..], q)
  }

  predicate BlocksWithin(out: seq<byte>, blocks: seq<Placed>)
    decreases |blocks|
  {
    blocks == [] ||
    (BlockWithin(|out|, blocks[0].b) && BlocksWithin(AfterBlock(out, blocks[0].b), blocks[1..]))
  }

  function Text(out: seq<byte>, blocks: seq<Placed>): (r: seq<byte>)
    requires BlocksWithin(out, blocks)
    ensures out <= r
    decreases |blocks|
  {
    if blocks == [] then out else Text(AfterBlock(out, blocks[0].b), blocks[1..])
  }

  /** A stream written is decoded to its text, and decoding stops behind its last block. */
  lemma {:induction false} StreamReads(d: seq<byte>, p: nat, blocks: seq<Placed>, q: nat, out: seq<byte>)
    requires BlocksAt(d, p, blocks, q) && BlocksWithin(out, blocks)
    ensures Run(d, Config(Deflate.Block, p, out)) == Config(Done, q, Text(out, blocks))
    decreases |blocks|
  {
    hide Run, BlockAt, AfterBlock, BlockWithin;
    var b, last := blocks[0], |blocks| == 1;
    BlockReads(d, p, b.b, last, b.end, out);
    if last {
      RunStopped(d, Config(Done, q, AfterBlock(out, b.b)));
    } else {
      StreamReads(d, b.end, blocks[1..], q, AfterBlock(out, b.b));
    }
  }

  /** A stream that is decoded has been so written. */
  lemma {:induction false} StreamWritten(d: seq<byte>, p: nat, out: seq<byte>)
    returns (blocks: seq<Placed>, q: nat)
    requires Run(d, Config(Deflate.Block, p, out)).mode.Done? && p <= 8 * |d|
    ensures BlocksAt(d, p, blocks, q) && BlocksWithin(out, blocks)
    ensures Run(d, Config(Deflate.Block, p, out)) == Config(Done, q, Text(out, blocks))
    decreases 8 * |d| - p
  {
    hide Run, BlockAt, AfterBlock, BlockWithin;
    var b, final, end := BlockWritten(d, p, out);
    BlockReads(d, p, b, final, end, out);
    if final {
      blocks, q := [Placed(b, end)], end;
      assert blocks[1..] == [];
      RunStopped(d, Config(Done, end, AfterBlock(out, b)));
    } else {
      var rest;
      rest, q := StreamWritten(d, end, AfterBlock(out, b));
      blocks := [Placed(b, end)] + rest;
      assert blocks[1..] == rest;
    }
  }

  // Files

  /** A header that has been written is parsed up to its end. */
  method ParseWritten(h: Header, rest: seq<byte>) returns (stop: nat)
    requires Writable(h)
    ensures stop == |HeaderBytes(h)|
  {
    hide HeaderBytes, HeaderEnd;
    var d := HeaderBytes(h) + rest;
    HeaderReads(d, 0, h);
    var r := new CountReader(d, 0, Eof);
    var fixed := BlockCodes.FixedHuffmanDecoder();
    var z := new GzipReader(r, fixed, 0, None, null);
    var e := z.ParseHeader();
    stop := r.pos;
  }

  /** A member: its header, and the blocks of its data, which end at bit `end`. */
  datatype Member = Member(h: Header, blocks: seq<Placed>, end: nat)

  /** Four bytes, the least significant first. */
  function LittleEndian(x: nat): (r: seq<byte>)
    ensures |r| == 4
  {
    [x % 256, x / 256 % 256, x / 0x1_0000 % 256, x / 0x100_0000 % 256]
  }

  predicate MemberAt(d: seq<byte>, q: nat, m: Member) {
    && Writable(m.h) && StandsAt(d, q, HeaderBytes(m.h)) && BlocksWithin([], m.blocks)
    && BlocksAt(d, 8 * (q + |HeaderBytes(m.h)|), m.blocks, m.end)
    && var text := Text([], m.blocks);
       StandsAt(d, (m.end + 7) / 8, LittleEndian(Update(0, text)) + LittleEndian(|text|))
  }

  /** Members stand one after the other from byte q on, up to the end of the file. */
  predicate MembersAt(d: seq<byte>, q: nat, members: seq<Member>)
    decreases |members|
  {
    if members == [] then q == |d|
    else MemberAt(d, q, members[0]) && MembersAt(d, (members[0].end + 7) / 8 + 8, members[1..])
  }

  predicate AllWithin(members: seq<Member>) {
    forall i | 0 <= i < |members| :: BlocksWithin([], members[i].blocks)
  }

  /** The texts of all members. */
  function Texts(members: seq<Member>): seq<byte>
    requires AllWithin(members)
    decreases |members|
  {
    if members == [] then [] else Text([], members[0].blocks) + Texts(members[1..])
  }

  lemma BytesOf(d: seq<byte>, q: nat, x: nat)
    requires StandsAt(d, q, LittleEndian(x))
    ensures q + 4 <= |d| && Le32(d, q) == x % 0x1_0000_0000
  {
    var s := LittleEndian(x);
    assert d[q] == s[0] && d[q + 1] == s[1] && d[q + 2] == s[2] && d[q + 3] == s[3];
    FourParts(x);
  }

  lemma FourParts(x: nat)
    ensures x % 256 + 256 * (x / 256 % 256) + 0x1_0000 * (x / 0x1_0000 % 256 + 256 * (x / 0x100_0000 % 256))
         == x % 0x1_0000_0000
  {
    TwoBytes(x);
    TwoBytes(x / 0x1_0000);
    DivTwice(x, 0x1_0000, 0x1_0000);
    DivTwice(x, 0x1_0000, 256);
  }

  lemma TrailerReads(d: seq<byte>, q: nat, text: seq<byte>)
    requires StandsAt(d, q, LittleEndian(Update(0, text)) + LittleEndian(|text|))
    ensures q + 8 <= |d| && Sealed(d, q, text)
  {
    hide Update, LittleEndian;
    StandParts(d, q, LittleEndian(Update(0, text)), LittleEndian(|text|));
    BytesOf(d, q, Update(0, text));
    BytesOf(d, q + 4, |text|);
  }

  /** A member is read as its text, and reading goes on behind its trailer. */
  lemma MemberReads(d: seq<byte>, q: nat, m: Member)
    requires q < |d| && MemberAt(d, q, m)
    ensures (m.end + 7) / 8 + 8 <= |d|
    ensures var rest := From(d, (m.end + 7) / 8 + 8, true, true);
            From(d, q, true, true) == Decoded(Text([], m.blocks) + rest.out, rest.ok)
  {
    hide Run, Update, BlocksAt, HeaderEnd, HeaderBytes, LittleEndian, Sealed, Le32, Text, BlocksWithin;
    var h, text := q + |HeaderBytes(m.h)|, Text([], m.blocks);
    HeaderReads(d, q, m.h);
    StreamReads(d, 8 * h, m.blocks, m.end, []);
    RunInside(d, Config(Deflate.Block, 8 * h, []));
    TrailerReads(d, NextByte(m.end), text);
    assert text[0..] == text;
  }

  /** A file written, of any number of members, is read as the texts of its members, and ends well. */
  lemma {:induction false} FileReads(d: seq<byte>, q: nat, members: seq<Member>)
    requires q <= |d| && MembersAt(d, q, members)
    ensures AllWithin(members) && From(d, q, true, true) == Decoded(Texts(members), true)
    decreases |members|
  {
    hide From, MemberAt, BlocksWithin, Text;
    if members == [] {
      NothingLeft(d);
    } else {
      NotAtEnd(d, q, members[0]);
      MemberReads(d, q, members[0]);
      FileReads(d, (members[0].end + 7) / 8 + 8, members[1..]);
      assert forall i | 1 <= i < |members| :: members[i] == members[1..][i - 1];
    }
  }

  lemma TrailerWritten(d: seq<byte>, q: nat, text: seq<byte>)
    requires q + 8 <= |d| && Sealed(d, q, text)
    ensures StandsAt(d, q, LittleEndian(Update(0, text)) + LittleEndian(|text|))
  {
    hide Update, LittleEndian;
    BytesStand(d, q, Update(0, text));
    BytesStand(d, q + 4, |text|);
    StandParts(d, q, LittleEndian(Update(0, text)), LittleEndian(|text|));
  }

  lemma BytesStand(d: seq<byte>, q: nat, x: nat)
    requires q + 4 <= |d| && Le32(d, q) == x % 0x1_0000_0000
    ensures StandsAt(d, q, LittleEndian(x))
  {
    var a, b, c, e := d[q] as nat, d[q + 1] as nat, d[q + 2] as nat, d[q + 3] as nat;
    var y := x / 0x1_0000_0000;
    assert x == a + 256 * (b + 256 * (c + 256 * (e + 256 * y)));
    FieldsUnique(x, a, 256, b + 256 * (c + 256 * (e + 256 * y)));
    FieldsUnique(x, a + 256 * b, 0x1_0000, c + 256 * (e + 256 * y));
    FieldsUnique(x, a + 256 * b + 0x1_0000 * c, 0x100_0000, e + 256 * y);
    FieldsUnique(x / 256, b, 256, c + 256 * (e + 256 * y));
    FieldsUnique(x / 0x1_0000, c, 256, e + 256 * y);
    FieldsUnique(x / 0x100_0000, e, 256, y);
    assert d[q..q + 4] == LittleEndian(x);
  }

  lemma MemberWritten(d: seq<byte>, q: nat) returns (m: Member)
    requires q < |d| && From(d, q, true, true).ok
    ensures MemberAt(d, q, m) && q < (m.end + 7) / 8 + 8 <= |d| && From(d, (m.end + 7) / 8 + 8, true, true).ok
  {
    hide Run, Update, BlocksAt, HeaderEnd, HeaderBytes, LittleEndian, Sealed, Le32, Text, BlocksWithin;
    var h := HeaderWritten(d, q);
    var start := q + |HeaderBytes(h)|;
    RunInside(d, Config(Deflate.Block, 8 * start, []));
    var g := Run(d, Config(Deflate.Block, 8 * start, []));
    assert g.mode.Done?;
    var blocks, end := StreamWritten(d, 8 * start, []);
    TrailerWritten(d, NextByte(end), Text([], blocks));
    m := Member(h, blocks, end);
  }

  /** A file ends well exactly if it has been written by members one after the other. */
  lemma {:induction false} FileWritten(d: seq<byte>, q: nat) returns (members: seq<Member>)
    requires q <= |d| && From(d, q, true, true).ok
    ensures MembersAt(d, q, members)
    decreases |d| - q
  {
    hide From, MemberAt;
    if q == |d| {
      members := [];
    } else {
      var m := MemberWritten(d, q);
      var rest := FileWritten(d, (m.end + 7) / 8 + 8);
      members := [m] + rest;
      assert members[1..] == rest;
    }
  }

  lemma NothingLeft(d: seq<byte>)
    ensures From(d, |d|, true, true) == Decoded([], true)
  {
  }

  lemma NotAtEnd(d: seq<byte>, q: nat, m: Member)
    requires MemberAt(d, q, m)
    ensures q < |d| && BlocksWithin([], m.blocks)
  {
    hide ExtraPart, NamePart, CommentPart, ChecksumPart, BlocksAt, BlocksWithin, Text, Update;
  }

  /** A file that ends well is one that has been so written, and its output is the texts of its members. */
  lemma GoodIff(d: seq<byte>)
    ensures From(d, 0, true, true).ok <==> exists members :: MembersAt(d, 0, members)
    ensures forall members | MembersAt(d, 0, members) ::
              AllWithin(members) && From(d, 0, true, true).out == Texts(members)
  {
    hide From, MembersAt, AllWithin, Texts;
    if From(d, 0, true, true).ok {
      var members := FileWritten(d, 0);
    }
    forall members | MembersAt(d, 0, members)
      ensures AllWithin(members) && From(d, 0, true, true) == Decoded(Texts(members), true)
    {
      FileReads(d, 0, members);
    }
  }

  /** Reading accepts exactly the files so written, and gives their texts. */
  method Unzip(d: seq<byte>) returns (out: seq<byte>, e: Err)
    requires d != []
    ensures e == Ok <==> exists members :: MembersAt(d, 0, members)
    ensures forall members | MembersAt(d, 0, members) :: AllWithin(members) && out == Texts(members)
  {
    hide From, MembersAt, AllWithin, Texts;
    GoodIff(d);
    out, e := ReadAll(d);
  }
}
