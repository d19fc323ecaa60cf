/** The header of a gzip member (section 2.3 of RFC 1952), as it is written. */
module GzipHeaders {
  import opened Bits
  import opened Canonical
  import opened Checksum
  import opened Members

  /** What a header says; `info` is the time, the extra flags and the operating system. */
  datatype Header = Header(flags: byte, info: seq<byte>, extra: seq<byte>, name: seq<byte>, comment: seq<byte>)

  predicate Writable(h: Header) {
    && |h.info| == 6 && |h.extra| < 0x1_0000 && |h.name| < 512 && |h.comment| < 512
    && 0 !in h.name && 0 !in h.comment
  }

  function FixedPart(h: Header): seq<byte> {
    [0x1F, 0x8B, 8, h.flags] + h.info
  }

  /** Flag 4: a length, least significant byte first, and as many bytes. */
  function ExtraPart(h: Header): seq<byte>
    requires |h.extra| < 0x1_0000
  {
    if h.flags / 4 % 2 == 1 then [|h.extra| % 256, |h.extra| / 256] + h.extra else []
  }

  /** Flag 8: the name, and a zero byte. */
  function NamePart(h: Header): seq<byte> {
    if h.flags / 8 % 2 == 1 then h.name + [0] else []
  }

  /** Flag 16: the comment, and a zero byte. */
  function CommentPart(h: Header): seq<byte> {
    if h.flags / 16 % 2 == 1 then h.comment + [0] else []
  }

  /** Flag 2: the two lower bytes of the checksum of all before, the least significant first. */
  function ChecksumPart(h: Header, before: seq<byte>): seq<byte> {
    var c := Update(0, before);
    if h.flags / 2 % 2 == 1 then [c % 256, c / 256 % 256] else []
  }

  function HeaderBytes(h: Header): seq<byte>
    requires |h.extra| < 0x1_0000
  {
    var before := FixedPart(h) + ExtraPart(h) + NamePart(h) + CommentPart(h);
    before + ChecksumPart(h, before)
  }

  /** s stands in d from byte q on. */
  predicate StandsAt(d: seq<byte>, q: nat, s: seq<byte>) {
    q + |s| <= |d| && d[q..q + |s|] == s
  }

  lemma StandParts(d: seq<byte>, q: nat, a: seq<byte>, b: seq<byte>)
    ensures StandsAt(d, q, a + b) <==> StandsAt(d, q, a) && StandsAt(d, q + |a|, b)
  {
    if StandsAt(d, q, a + b) {
      assert d[q..q + |a|] == (a + b)[..|a|];
      assert d[q + |a|..q + |a| + |b|] == (a + b)[|a|..];
    }
  }

  // Each part is read as it is written

  lemma FixedReads(d: seq<byte>, q: nat, h: Header)
    requires Writable(h) && StandsAt(d, q, FixedPart(h))
    ensures FixedEnd(d, q) == Some(q + 10) && d[q + 3] == h.flags
  {
    var s := FixedPart(h);
    assert d[q] == s[0] && d[q + 1] == s[1] && d[q + 2] == s[2] && d[q + 3] == s[3];
  }

  lemma ExtraReads(d: seq<byte>, q: nat, h: Header)
    requires Writable(h) && q <= |d| && StandsAt(d, q, ExtraPart(h))
    ensures ExtraEnd(d, q, h.flags) == Some(q + |ExtraPart(h)|)
  {
    var s := ExtraPart(h);
    if s != [] {
      assert d[q] == d[q..q + |s|][0] && d[q + 1] == d[q..q + |s|][1];
    }
  }

  lemma {:induction false} ZeroReads(d: seq<byte>, q: nat, s: seq<byte>, n: nat)
    requires |s| < n && 0 !in s && StandsAt(d, q, s + [0])
    ensures ZeroEnd(d, q, n) == Some(q + |s| + 1)
    decreases n
  {
    assert d[q] == d[q..q + |s| + 1][0] == (s + [0])[0];
    if s != [] {
      assert s + [0] == [s[0]] + (s[1..] + [0]);
      StandParts(d, q, [s[0]], s[1..] + [0]);
      ZeroReads(d, q + 1, s[1..], n - 1);
    }
  }

  lemma StringReads(d: seq<byte>, q: nat, flags: byte, f: nat, s: seq<byte>)
    requires q <= |d| && 0 < f && |s| < 512 && 0 !in s && StandsAt(d, q, if flags / f % 2 == 1 then s + [0] else [])
    ensures StringEnd(d, q, flags, f) == Some(q + if flags / f % 2 == 1 then |s| + 1 else 0)
  {
    if flags / f % 2 == 1 {
      ZeroReads(d, q, s, 512);
    }
  }

  lemma ChecksumReads(d: seq<byte>, q0: nat, q: nat, h: Header)
    requires q0 <= q <= |d| && StandsAt(d, q, ChecksumPart(h, d[q0..q]))
    ensures CrcEnd(d, q0, q, h.flags) == Some(q + |ChecksumPart(h, d[q0..q])|)
  {
    hide Update;
    var c := Update(0, d[q0..q]);
    if h.flags / 2 % 2 == 1 {
      TwoBytes(c);
      var s := ChecksumPart(h, d[q0..q]);
      assert d[q..q + 2] == s;
      assert d[q] == s[0] && d[q + 1] == s[1];
    }
  }

  lemma TwoBytes(c: nat)
    ensures c % 256 + 256 * (c / 256 % 256) == c % 0x1_0000
  {
    DivTwice(c, 256, 256);
  }

  /** A header written is read as one, and reading stops behind it. */
  lemma HeaderReads(d: seq<byte>, q: nat, h: Header)
    requires Writable(h) && StandsAt(d, q, HeaderBytes(h))
    ensures HeaderEnd(d, q) == Some(q + |HeaderBytes(h)|)
  {
    hide Update, FixedEnd, ExtraEnd, StringEnd, CrcEnd, StandsAt, ChecksumPart;
    var a, b, c, e := FixedPart(h), ExtraPart(h), NamePart(h), CommentPart(h);
    var before := a + b + c + e;
    StandParts(d, q, before, ChecksumPart(h, before));
    StandParts(d, q, a + b + c, e);
    StandParts(d, q, a + b, c);
    StandParts(d, q, a, b);
    StandsInside(d, q, before);
    FixedReads(d, q, h);
    ExtraReads(d, q + 10, h);
    StringReads(d, q + |a + b|, h.flags, 8, h.name);
    StringReads(d, q + |a + b + c|, h.flags, 16, h.comment);
    ChecksumReads(d, q, q + |before|, h);
  }

  lemma StandsInside(d: seq<byte>, q: nat, s: seq<byte>)
    requires StandsAt(d, q, s)
    ensures q + |s| <= |d| && d[q..q + |s|] == s
  {
  }

  // A header read has been so written

  lemma {:induction false} ZeroWritten(d: seq<byte>, q: nat, n: nat) returns (s: seq<byte>)
    requires ZeroEnd(d, q, n).Some?
    ensures |s| < n && 0 !in s && StandsAt(d, q, s + [0]) && ZeroEnd(d, q, n).value == q + |s| + 1
    decreases n
  {
    if d[q] == 0 {
      s := [];
    } else {
      var t := ZeroWritten(d, q + 1, n - 1);
      s := [d[q]] + t;
      assert s + [0] == [d[q]] + (t + [0]);
      StandParts(d, q, [d[q]], t + [0]);
    }
  }

  lemma StringWritten(d: seq<byte>, q: nat, flags: byte, f: nat) returns (s: seq<byte>)
    requires q <= |d| && 0 < f && StringEnd(d, q, flags, f).Some?
    ensures |s| < 512 && 0 !in s && StandsAt(d, q, if flags / f % 2 == 1 then s + [0] else [])
    ensures StringEnd(d, q, flags, f).value == q + if flags / f % 2 == 1 then |s| + 1 else 0
  {
    s := [];
    if flags / f % 2 == 1 {
      s := ZeroWritten(d, q, 512);
    }
  }

  lemma ExtraWritten(d: seq<byte>, q: nat, flags: byte) returns (s: seq<byte>)
    requires q <= |d| && ExtraEnd(d, q, flags).Some?
    ensures |s| < 0x1_0000
    ensures StandsAt(d, q, if flags / 4 % 2 == 1 then [|s| % 256, |s| / 256] + s else [])
    ensures ExtraEnd(d, q, flags).value == q + if flags / 4 % 2 == 1 then 2 + |s| else 0
  {
    s := [];
    if flags / 4 % 2 == 1 {
      s := d[q + 2..ExtraEnd(d, q, flags).value];
      assert d[q..q + 2] == [|s| % 256, |s| / 256];
      StandParts(d, q, [|s| % 256, |s| / 256], s);
    }
  }

  /** Parts one after the other are a header. */
  lemma Assembled(d: seq<byte>, q: nat, h: Header)
    requires Writable(h) && StandsAt(d, q, FixedPart(h))
    requires var a, b, c, e := FixedPart(h), ExtraPart(h), NamePart(h), CommentPart(h);
             && StandsAt(d, q + |a|, b) && StandsAt(d, q + |a| + |b|, c) && StandsAt(d, q + |a| + |b| + |c|, e)
             && q + |a| + |b| + |c| + |e| <= |d|
             && CrcEnd(d, q, q + |a| + |b| + |c| + |e|, h.flags).Some?
    ensures StandsAt(d, q, HeaderBytes(h))
  {
    hide Update, CrcEnd, StandsAt, FixedPart, ExtraPart, NamePart, CommentPart, ChecksumPart;
    var a, b, c, e := FixedPart(h), ExtraPart(h), NamePart(h), CommentPart(h);
    var before := a + b + c + e;
    StandParts(d, q, a, b);
    StandParts(d, q, a + b, c);
    StandParts(d, q, a + b + c, e);
    StandsInside(d, q, before);
    ChecksumWritten(d, q, q + |before|, h);
    StandParts(d, q, before, ChecksumPart(h, before));
  }

  /** Any header read has been so written. */
  lemma HeaderWritten(d: seq<byte>, q: nat) returns (h: Header)
    requires HeaderEnd(d, q).Some?
    ensures Writable(h) && StandsAt(d, q, HeaderBytes(h)) && HeaderEnd(d, q) == Some(q + |HeaderBytes(h)|)
  {
    hide Update, ExtraEnd, StringEnd, CrcEnd, StandsAt, HeaderBytes, Flag;
    var flags := d[q + 3];
    var q2 := ExtraEnd(d, q + 10, flags).value;
    var q3 := StringEnd(d, q2, flags, NAME).value;
    var extra := ExtraWritten(d, q + 10, flags);
    var name := StringWritten(d, q2, flags, 8);
    var comment := StringWritten(d, q3, flags, 16);
    h := Header(flags, d[q + 4..q + 10], extra, name, comment);
    FixedWritten(d, q, h);
    assert q2 == q + 10 + |ExtraPart(h)| && q3 == q2 + |NamePart(h)|;
    Assembled(d, q, h);
    HeaderReads(d, q, h);
  }

  lemma FixedWritten(d: seq<byte>, q: nat, h: Header)
    requires FixedEnd(d, q).Some? && h.flags == d[q + 3] && h.info == d[q + 4..q + 10]
    ensures StandsAt(d, q, FixedPart(h))
  {
    assert d[q..q + 10] == [d[q], d[q + 1], d[q + 2], d[q + 3]] + d[q + 4..q + 10];
  }

  lemma ChecksumWritten(d: seq<byte>, q0: nat, q: nat, h: Header)
    requires q0 <= q <= |d| && CrcEnd(d, q0, q, h.flags).Some?
    ensures StandsAt(d, q, ChecksumPart(h, d[q0..q]))
  {
    hide Update;
    var c := Update(0, d[q0..q]);
    if h.flags / 2 % 2 == 1 {
      TwoBytes(c);
      FieldsUnique(c % 0x1_0000, d[q], 256, d[q + 1]);
      assert d[q..q + 2] == [c % 256, c / 256 % 256];
    }
  }
}
