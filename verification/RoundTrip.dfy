/** What the encoder writes, the decoder reads back. */
module RoundTrip {
  import opened Bits
  import opened Canonical
  import opened HuffmanTable
  import opened BitReader
  import opened BlockCodes
  import opened Encoder

  /** The codes of the given symbols stand one after the other from bit p on, each with its first bit
      lowest. */
  ghost predicate Written(d: seq<byte>, p: nat, codes: seq<HCode>, syms: seq<nat>)
    decreases |syms|
  {
    syms != [] ==>
      && syms[0] < |codes|
      && var c := codes[syms[0]];
         && 0 < c.len && p + c.len <= 8 * |d| && Num(d, p, c.len) == c.code
         && Written(d, p + c.len, codes, syms[1..])
  }

  /** The code of a symbol that occurs is read as that symbol. */
  lemma ReadsBack(d: seq<byte>, p: nat, freq: seq<nat>, codes: seq<HCode>, s: nat)
    requires CodeFor(freq, codes) && s < |codes| && 0 < codes[s].len
    requires p + codes[s].len <= 8 * |d| && Num(d, p, codes[s].len) == codes[s].code
    ensures SymbolAt(Lens(codes), d, p) == Some(s)
  {
    var l, n := Lens(codes), codes[s].len;
    CodeBitsRev(d, p, n, n);
    RevTwice(Code(l, s), n);
    CodeFits(l, s);
    ModSmall(Code(l, s), Pow2(n));
    assert CodeAt(l, d, p, s);
    SymbolAtIs(l, d, p, s);
  }

  /** The decoder for a code the encoder has made. */
  method MakeDecoder(codes: seq<HCode>, ghost freq: seq<nat>) returns (h: HuffmanDecoder)
    requires CodeFor(freq, codes) && forall x | 0 <= x < |codes| :: codes[x].len < MAX_CODE_LEN
    ensures fresh(h) && fresh(h.chunks) && h.Valid() && h.lens == Lens(codes) && h.MinIsLeast()
  {
    hide Accepted, HuffmanDecoder.Consistent;
    h := new HuffmanDecoder(CHUNK_BITS);
    var ok := h.Init(Lens(codes));
  }

  /** Decodes one symbol. */
  method DecodeSymbol(in_: BitReader, h: HuffmanDecoder, ghost freq: seq<nat>, ghost codes: seq<HCode>,
      ghost syms: seq<nat>)
    returns (sym: nat)
    requires CodeFor(freq, codes) && in_.Valid() && h.Valid() && h.lens == Lens(codes) && h.MinIsLeast()
    requires syms != [] && Written(in_.r.data, in_.P(), codes, syms)
    modifies in_, in_.r
    ensures in_.Valid() && sym == syms[0] && Written(in_.r.data, in_.P(), codes, syms[1..])
  {
    hide BitReader.InStep, HuffmanDecoder.Consistent, CodeFor, SymbolAt;
    ReadsBack(in_.r.data, in_.P(), freq, codes, syms[0]);
    assert h.lens[syms[0]] == codes[syms[0]].len;
    var err;
    sym, err := in_.HuffSym(h);
  }

  /** Decodes n symbols. */
  method DecodeSymbols(codes: seq<HCode>, in_: BitReader, n: nat, ghost freq: seq<nat>, ghost syms: seq<nat>)
    returns (out: seq<nat>)
    requires CodeFor(freq, codes) && forall x | 0 <= x < |codes| :: codes[x].len < MAX_CODE_LEN
    requires in_.Valid() && n == |syms| && Written(in_.r.data, in_.P(), codes, syms)
    modifies in_, in_.r
    ensures out == syms
  {
    hide CodeFor, Written, BitReader.InStep, HuffmanDecoder.Consistent;
    var h := MakeDecoder(codes, freq);
    out := [];
    assert syms[0..] == syms;
    while |out| < n
      invariant in_.Valid() && h.Valid() && h.lens == Lens(codes) && h.MinIsLeast() && |out| <= n
      invariant out == syms[..|out|] && Written(in_.r.data, in_.P(), codes, syms[|out|..])
    {
      assert syms[|out|..][1..] == syms[|out| + 1..];
      var sym := DecodeSymbol(in_, h, freq, codes, syms[|out|..]);
      out := out + [sym];
    }
  }
}
