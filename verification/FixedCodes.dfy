/** The codes of a fixed block (section 3.2.6 of RFC 1951), as the encoder has them and as the decoder reads
    them. */
module FixedCodes {
  import opened Bits
  import opened Canonical
  import opened HuffmanTable
  import opened Deflate
  import opened BlockCodes
  import opened Encoder

  /** The value and the length of a literal/length code. */
  function FixedLitCode(ch: nat): (nat, nat)
    requires ch < 288
  {
    if ch < 144 then (ch + 48, 8)
    else if ch < 256 then (ch + 400 - 144, 9)
    else if ch < 280 then (ch - 256, 7)
    else (ch + 192 - 280, 8)
  }

  lemma {:induction false} CountOfEqual(l: seq<nat>, lo: nat, hi: nat, v: nat, n: nat)
    requires lo <= hi <= |l| && forall i | lo <= i < hi :: l[i] == v
    ensures CountTo(l, hi, n) == CountTo(l, lo, n) + if v == n then hi - lo else 0
  {
    if lo < hi {
      CountOfEqual(l, lo, hi - 1, v, n);
    }
  }

  /** How many of the first i symbols have codes of n bits. */
  lemma FixedCount(i: nat, n: nat)
    requires i <= 288
    ensures CountTo(FixedLit(), i, n)
         == (if n != 8 then 0 else if i < 144 then i else if i < 280 then 144 else i - 136)
            + (if n != 9 then 0 else if i < 144 then 0 else if i < 256 then i - 144 else 112)
            + (if n != 7 then 0 else if i < 256 then 0 else if i < 280 then i - 256 else 24)
  {
    hide CountTo;
    var l := FixedLit();
    CountNone(l, n);
    CountOfEqual(l, 0, if i < 144 then i else 144, 8, n);
    if 144 <= i {
      CountOfEqual(l, 144, if i < 256 then i else 256, 9, n);
    }
    if 256 <= i {
      CountOfEqual(l, 256, if i < 280 then i else 280, 7, n);
    }
    if 280 <= i {
      CountOfEqual(l, 280, i, 8, n);
    }
  }

  lemma CountNone(l: seq<nat>, n: nat)
    ensures CountTo(l, 0, n) == 0
  {
  }

  lemma FixedFirst()
    ensures First(FixedLit(), 7) == 0 && First(FixedLit(), 8) == 48 && First(FixedLit(), 9) == 400
  {
    hide CountTo, FixedLit;
    var l := FixedLit();
    FixedLitRange(l);
    EndShort(l, 288, 6);
    FixedCount(288, 7);
    FixedCount(288, 8);
    assert End(l, 288, 7) == 24;
    assert End(l, 288, 8) == 200;
  }

  /** The canonical codes of the fixed lengths are the ones listed. */
  lemma FixedLitCodes(s: nat)
    requires s < 288
    ensures FixedLit()[s] == FixedLitCode(s).1 && Code(FixedLit(), s) == FixedLitCode(s).0
  {
    hide First, CountTo;
    FixedFirst();
    FixedCount(s, FixedLit()[s]);
  }

  /** A literal/length symbol of a fixed block is read exactly if the bits of its code stand there. */
  lemma FixedLitSymbol(d: seq<byte>, p: nat, s: nat)
    ensures SymbolAt(FixedLit(), d, p) == Some(s) <==>
            if s < 144 then Has(d, p, 8) && CodeBits(d, p, 8) == s + 48
            else if s < 256 then Has(d, p, 9) && CodeBits(d, p, 9) == s + 256
            else if s < 280 then Has(d, p, 7) && CodeBits(d, p, 7) == s - 256
            else s < 288 && Has(d, p, 8) && CodeBits(d, p, 8) == s - 88
  {
    hide FixedLit, SymbolAt, Code;
    if s < 288 {
      FixedLitCodes(s);
      if CodeAt(FixedLit(), d, p, s) {
        SymbolAtIs(FixedLit(), d, p, s);
      }
    }
  }

  /** The encoder's literal/length codes. */
  method GenerateFixedLiteralEncoding() returns (codes: array<HCode>)
    ensures fresh(codes) && codes.Length == 286
    ensures forall s | 0 <= s < 286 ::
              codes[s].len == FixedLit()[s] && codes[s].code == Rev(Code(FixedLit(), s), codes[s].len)
  {
    hide FixedLit, Code, Rev, ReverseBits;
    codes := new HCode[286](_ => HCode(0, 0));
    for ch := 0 to 286
      invariant forall s | 0 <= s < ch ::
                  codes[s].len == FixedLit()[s] && codes[s].code == Rev(Code(FixedLit(), s), codes[s].len)
    {
      var bits, size;
      if ch < 144 {
        bits, size := ch + 48, 8;
      } else if ch < 256 {
        bits, size := ch + 400 - 144, 9;
      } else if ch < 280 {
        bits, size := ch - 256, 7;
      } else {
        bits, size := ch + 192 - 280, 8;
      }
      FixedLitCodes(ch);
      Pow2Values();
      ReverseBitsIs(bits, size);
      codes[ch] := HCode(ReverseBits(bits, size), size);
    }
  }

  lemma FixedDistCode(s: nat)
    requires s < 32
    ensures FixedDist()[s] == 5 && Code(FixedDist(), s) == s
  {
    FixedDistCount(s);
    EndShort(FixedDist(), 32, 4);
    assert First(FixedDist(), 5) == 0;
  }

  /** The encoder's distance codes. */
  method GenerateFixedOffsetEncoding() returns (codes: array<HCode>)
    ensures fresh(codes) && codes.Length == 30
    ensures forall s | 0 <= s < 30 ::
              codes[s].len == FixedDist()[s] && codes[s].code == Rev(Code(FixedDist(), s), codes[s].len)
  {
    hide FixedDist, Code, Rev, ReverseBits;
    codes := new HCode[30](_ => HCode(0, 0));
    for ch := 0 to 30
      invariant forall s | 0 <= s < ch ::
                  codes[s].len == FixedDist()[s] && codes[s].code == Rev(Code(FixedDist(), s), codes[s].len)
    {
      FixedDistCode(ch);
      Pow2Values();
      ReverseBitsIs(ch, 5);
      codes[ch] := HCode(ReverseBits(ch, 5), 5);
    }
  }

  // Which lengths make a code

  lemma {:induction false} OnlyOnes(l: seq<nat>, i: nat)
    requires i <= |l| && forall j | 0 <= j < |l| :: l[j] <= 1
    ensures Kraft(l, i, 1) == 0 <==> forall j | 0 <= j < i :: l[j] == 0
    ensures Kraft(l, i, 1) == 1 <==>
            exists j :: 0 <= j < i && l[j] == 1 && forall k | 0 <= k < i && k != j :: l[k] == 0
  {
    if i > 0 {
      OnlyOnes(l, i - 1);
      assert Kraft(l, i, 1) == Kraft(l, i - 1, 1) + l[i - 1] by {
        Pow2Values();
      }
    }
  }

  lemma NoLengths(l: seq<nat>)
    ensures MaxLen(l, |l|) == 0 <==> forall i | 0 <= i < |l| :: l[i] == 0
  {
  }

  /** Lengths of at most 15 bits are accepted if there are none, if the code is complete, or if there is just one
      code of one bit; and otherwise not. */
  lemma AcceptedIff(l: seq<nat>)
    requires forall i | 0 <= i < |l| :: l[i] <= 15
    ensures Accepted(l) <==>
            || (forall i | 0 <= i < |l| :: l[i] == 0)
            || Kraft(l, |l|, 15) == 32768
            || (exists j :: 0 <= j < |l| && l[j] == 1 && forall k | 0 <= k < |l| && k != j :: l[k] == 0)
  {
    hide Kraft, MaxLen, Pow2;
    var m := MaxLen(l, |l|);
    NoLengths(l);
    KraftScales(l, |l|, m, 15);
    Pow2Add(m, 15 - m);
    CancelTimes(Kraft(l, |l|, m), Pow2(m), Pow2(15 - m));
    assert Pow2(15) == 32768 by {
      Pow2Values();
      Pow2Add(8, 7);
    }
    if m == 1 {
      OnlyOnes(l, |l|);
    } else if exists j :: 0 <= j < |l| && l[j] == 1 && forall k | 0 <= k < |l| && k != j :: l[k] == 0 {
      LongestOne(l);
      assert false;
    }
  }

  lemma LongestOne(l: seq<nat>)
    requires exists j :: 0 <= j < |l| && l[j] == 1 && forall k | 0 <= k < |l| && k != j :: l[k] == 0
    ensures MaxLen(l, |l|) == 1
  {
  }

  lemma CancelTimes(a: nat, b: nat, m: nat)
    requires 0 < m
    ensures a * m == b * m <==> a == b
  {
    if a * m == b * m {
      CancelMul(a, b, m);
      CancelMul(b, a, m);
    }
  }
}
