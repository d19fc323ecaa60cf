/** The checksum of section 8 of RFC 1952, one bit at a time. */
module Checksum {
  import opened Bits

  const POLYNOMIAL: u32 := 0xEDB88320

  type u32 = x: int | 0 <= x < 0x1_0000_0000

  /** Exclusive or of n bits. */
  function Xor(a: nat, b: nat, n: nat): (r: nat)
    ensures r < Pow2(n)
    decreases n
  {
    if n == 0 then 0 else (a + b) % 2 + 2 * Xor(a / 2, b / 2, n - 1)
  }

  function Xor32(a: u32, b: u32): u32 {
    FourBytes();
    Xor(a, b, 32)
  }

  lemma FourBytes()
    ensures Pow2(32) == 0x1_0000_0000
  {
    hide Pow2;
    Pow2Values();
    Pow2Add(8, 8);
    Pow2Add(16, 16);
  }

  function Shift(c: u32, k: nat): u32
    decreases k
  {
    if k == 0 then c else Shift(if c % 2 == 1 then Xor32(c / 2, POLYNOMIAL) else c / 2, k - 1)
  }

  function Feed(c: u32, s: seq<byte>): u32 {
    if s == [] then c else Shift(Xor32(Feed(c, s[..|s| - 1]), s[|s| - 1]), 8)
  }

  function Not(c: u32): u32 {
    0xFFFF_FFFF - c
  }

  /** The checksum of what has been seen so far, c, and then s. */
  function Update(c: u32, s: seq<byte>): u32 {
    Not(Feed(Not(c), s))
  }

  lemma {:induction false} FeedAppend(c: u32, x: seq<byte>, y: seq<byte>)
    ensures Feed(Feed(c, x), y) == Feed(c, x + y)
  {
    hide Shift, Xor32;
    if y == [] {
      assert x + y == x;
    } else {
      FeedAppend(c, x, y[..|y| - 1]);
      assert (x + y)[..|x + y| - 1] == x + y[..|y| - 1];
    }
  }

  /** Updating with two parts one after the other is updating with both at once. */
  lemma UpdateAppend(c: u32, x: seq<byte>, y: seq<byte>)
    ensures Update(Update(c, x), y) == Update(c, x + y)
  {
    hide Feed;
    FeedAppend(Not(c), x, y);
  }

  lemma UpdateNothing(c: u32)
    ensures Update(c, []) == c
  {
  }
}
