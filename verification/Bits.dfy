/** Bits of a byte string, in the order of section 3.1.1 of RFC 1951, and the
    arithmetic that ties the two readings of a bit field together: `Num` takes the
    first bit as least significant (extra bits, lengths), `CodeBits` takes it as most
    significant (Huffman codes). */
module Bits {

  type byte = x: int | 0 <= x < 256

  function Pow2(n: nat): (r: nat)
    ensures 0 < r
  {
    if n == 0 then 1 else 2 * Pow2(n - 1)
  }

  lemma {:induction false} Pow2Add(m: nat, n: nat)
    ensures Pow2(m + n) == Pow2(m) * Pow2(n)
  {
    if n == 0 {
    } else {
      Pow2Add(m, n - 1);
      assert Pow2(m + n) == 2 * Pow2(m + n - 1);
      assert Pow2(m) * Pow2(n) == 2 * (Pow2(m) * Pow2(n - 1));
    }
  }

  lemma {:induction false} Pow2Mono(m: nat, n: nat)
    requires m <= n
    ensures Pow2(m) <= Pow2(n)
  {
    if m < n {
      Pow2Mono(m, n - 1);
    }
  }

  lemma Pow2Values()
    ensures Pow2(0) == 1 && Pow2(1) == 2 && Pow2(2) == 4 && Pow2(3) == 8
    ensures Pow2(4) == 16 && Pow2(5) == 32 && Pow2(6) == 64 && Pow2(7) == 128
    ensures Pow2(8) == 256 && Pow2(9) == 512
  {
    assert Pow2(3) == 2 * Pow2(2) && Pow2(2) == 2 * Pow2(1) && Pow2(1) == 2 * Pow2(0);
    assert Pow2(6) == 2 * Pow2(5) && Pow2(5) == 2 * Pow2(4) && Pow2(4) == 2 * Pow2(3);
    assert Pow2(9) == 2 * Pow2(8) && Pow2(8) == 2 * Pow2(7) && Pow2(7) == 2 * Pow2(6);
  }

  lemma MorePow2Values()
    ensures Pow2(10) == 1024 && Pow2(11) == 2048 && Pow2(12) == 4096 && Pow2(13) == 8192 && Pow2(14) == 16384
  {
    Pow2Values();
    assert Pow2(11) == 2 * Pow2(10) && Pow2(10) == 2 * Pow2(9);
    assert Pow2(13) == 2 * Pow2(12) && Pow2(12) == 2 * Pow2(11);
  }

  // Division and remainder

  /** Quotient and remainder are determined by q * m + r with r < m. */
  lemma DivModUnique(x: int, q: int, r: int, m: int)
    requires 0 < m && 0 <= r < m && x == q * m + r
    ensures x / m == q && x % m == r
  {
    var q', r' := x / m, x % m;
    assert x == q' * m + r';
    assert (q - q') * m == r' - r && (q' - q) * m == r - r';
    if q' < q {
      MulGe(q - q', m);
    } else if q < q' {
      MulGe(q' - q, m);
    }
  }

  lemma MulGe(k: int, m: int)
    requires 1 <= k && 0 <= m
    ensures k * m >= m
  {
    assert k * m == (k - 1) * m + m;
  }

  lemma DivTwice(x: nat, m: nat, n: nat)
    requires 0 < m && 0 < n
    ensures 0 < m * n && (x / m) / n == x / (m * n)
    ensures x % (m * n) == x % m + m * ((x / m) % n)
  {
    var a := x / m;
    var q, r := a / n, a % n;
    assert x == a * m + x % m;
    assert a == q * n + r;
    assert x == q * (m * n) + (m * r + x % m) by {
      assert (q * n + r) * m == q * (m * n) + m * r;
    }
    assert m * r + x % m < m * n by {
      assert m * (r + 1) <= m * n by { MulMono(m, r + 1, n); }
      assert m * (r + 1) == m * r + m;
    }
    assert 0 < m * n by { MulGe(m, n); }
    assert 0 <= m * r;
    DivModUnique(x, q, m * r + x % m, m * n);
  }

  lemma MulMono(m: nat, a: nat, b: nat)
    requires a <= b
    ensures m * a <= m * b
  {
    assert m * b == m * a + m * (b - a);
  }

  /** Bit i of x. */
  function BitOf(x: nat, i: nat): (r: nat)
    ensures r < 2
  {
    (x / Pow2(i)) % 2
  }

  lemma ModStep(x: nat, n: nat)
    ensures x % Pow2(n + 1) == x % Pow2(n) + Pow2(n) * BitOf(x, n)
    ensures x / Pow2(n + 1) == (x / Pow2(n)) / 2
  {
    DivTwice(x, Pow2(n), 2);
    assert Pow2(n) * 2 == Pow2(n + 1);
  }

  lemma FieldsUnique(x: nat, low: nat, m: nat, high: nat)
    requires low < m && x == low + m * high
    ensures x % m == low && x / m == high
  {
    DivModUnique(x, high, low, m);
  }

  lemma LowBit(a: nat, h: nat)
    requires 0 < h
    ensures (a % (2 * h)) % 2 == a % 2
  {
    DivTwice(a, 2, h);
    FieldsUnique(a % (2 * h), a % 2, 2, (a / 2) % h);
  }

  lemma ModDiv(x: nat, m: nat, h: nat)
    requires 0 < m && 0 < h
    ensures 0 < m * h && (x % (m * h)) / m == (x / m) % h
  {
    DivTwice(x, m, h);
    FieldsUnique(x % (m * h), x % m, m, (x / m) % h);
  }

  /** The low bits of x do not change when higher bits are added. */
  lemma BitOfMod(x: nat, i: nat, n: nat)
    requires i < n
    ensures BitOf(x % Pow2(n), i) == BitOf(x, i)
  {
    var k := n - i;
    Pow2Add(i, k);
    ModDiv(x, Pow2(i), Pow2(k));
    assert Pow2(k) == 2 * Pow2(k - 1);
    LowBit(x / Pow2(i), Pow2(k - 1));
  }

  // Bit reversal

  /** The n low bits of x, with the order of the bits reversed. */
  function Rev(x: nat, n: nat): (r: nat)
    ensures r < Pow2(n)
  {
    if n == 0 then 0 else 2 * Rev(x, n - 1) + BitOf(x, n - 1)
  }

  lemma RevHalf(x: nat, n: nat)
    requires 0 < n
    ensures Rev(x, n) / 2 == Rev(x, n - 1)
    ensures Rev(x, n) % 2 == BitOf(x, n - 1)
  {
  }

  lemma {:induction false} RevDrop(x: nat, n: nat, m: nat)
    requires m <= n
    ensures Rev(x, n) / Pow2(n - m) == Rev(x, m)
    decreases n
  {
    if m < n {
      RevDrop(x, n - 1, m);
      RevHalf(x, n);
      DivTwice(Rev(x, n), 2, Pow2(n - 1 - m));
      assert Pow2(n - m) == 2 * Pow2(n - 1 - m);
    } else {
      assert Rev(x, n) / 1 == Rev(x, n);
    }
  }

  lemma {:induction false} RevSame(x: nat, y: nat, n: nat)
    requires forall i: nat | i < n :: BitOf(x, i) == BitOf(y, i)
    ensures Rev(x, n) == Rev(y, n)
  {
    if 0 < n {
      RevSame(x, y, n - 1);
    }
  }

  lemma RevMod(x: nat, n: nat, k: nat)
    requires n <= k
    ensures Rev(x % Pow2(k), n) == Rev(x, n)
  {
    forall i: nat | i < n ensures BitOf(x % Pow2(k), i) == BitOf(x, i) {
      BitOfMod(x, i, k);
    }
    RevSame(x % Pow2(k), x, n);
  }

  /** Bit i of the reversal is bit n-1-i of the original. */
  lemma {:induction false} RevBit(x: nat, n: nat, i: nat)
    requires i < n
    ensures BitOf(Rev(x, n), i) == BitOf(x, n - 1 - i)
    decreases i
  {
    RevHalf(x, n);
    if i == 0 {
      assert Rev(x, n) / Pow2(0) == Rev(x, n);
    } else {
      RevBit(x, n - 1, i - 1);
      DivTwice(Rev(x, n), 2, Pow2(i - 1));
      assert Pow2(i) == 2 * Pow2(i - 1);
    }
  }

  lemma {:induction false} SameBitsSameMod(x: nat, y: nat, n: nat)
    requires forall i: nat | i < n :: BitOf(x, i) == BitOf(y, i)
    ensures x % Pow2(n) == y % Pow2(n)
  {
    if 0 < n {
      SameBitsSameMod(x, y, n - 1);
      ModStep(x, n - 1);
      ModStep(y, n - 1);
    } else {
      assert x % 1 == 0 && y % 1 == 0;
    }
  }

  lemma ModSmall(x: nat, m: nat)
    requires x < m
    ensures x % m == x && x / m == 0
  {
    DivModUnique(x, 0, x, m);
  }

  lemma RevTwice(x: nat, n: nat)
    ensures Rev(Rev(x, n), n) == x % Pow2(n)
  {
    var y := Rev(Rev(x, n), n);
    forall i: nat | i < n ensures BitOf(y, i) == BitOf(x, i) {
      RevBit(Rev(x, n), n, i);
      RevBit(x, n, n - 1 - i);
    }
    SameBitsSameMod(x, y, n);
    ModSmall(y, Pow2(n));
  }

  lemma RevInverse(x: nat, y: nat, n: nat)
    requires x < Pow2(n) && y < Pow2(n)
    ensures (Rev(x, n) == y) == (x == Rev(y, n))
  {
    RevTwice(x, n);
    RevTwice(y, n);
    ModSmall(x, Pow2(n));
    ModSmall(y, Pow2(n));
  }

  lemma BitTruncated(x: nat, k: nat, i: nat)
    ensures BitOf(x % Pow2(k), i) <= BitOf(x, i)
  {
    if i < k {
      BitOfMod(x, i, k);
    } else {
      Pow2Mono(k, i);
      ModSmall(x % Pow2(k), Pow2(i));
    }
  }

  /** Dropping high-order input bits can only lower the reversal, at every width. */
  lemma {:induction false} RevTruncated(x: nat, k: nat, n: nat)
    ensures Rev(x % Pow2(k), n) <= Rev(x, n)
  {
    if 0 < n {
      RevTruncated(x, k, n - 1);
      BitTruncated(x, k, n - 1);
    }
  }

  /** Reversing at width n is reversing at a larger width and shifting right: the form
      used with a fixed 16-bit or 8-bit reversal instruction. */
  lemma {:induction false} RevShift(x: nat, n: nat, w: nat)
    requires n <= w
    ensures Rev(x, w) / Pow2(w - n) == Rev(x, n)
  {
    RevDrop(x, w, n);
  }

  // Bit fields of a byte string

  function Bit(d: seq<byte>, k: nat): (r: nat)
    requires k < 8 * |d|
    ensures r < 2
  {
    BitOf(d[k / 8], k % 8)
  }

  /** The n bits from position p on, first bit least significant. */
  function Num(d: seq<byte>, p: nat, n: nat): (r: nat)
    requires p + n <= 8 * |d|
    ensures r < Pow2(n)
  {
    if n == 0 then 0 else Num(d, p, n - 1) + Pow2(n - 1) * Bit(d, p + n - 1)
  }

  /** The n bits from position p on, first bit most significant. */
  function CodeBits(d: seq<byte>, p: nat, n: nat): (r: nat)
    requires p + n <= 8 * |d|
    ensures r < Pow2(n)
  {
    if n == 0 then 0 else 2 * CodeBits(d, p, n - 1) + Bit(d, p + n - 1)
  }

  lemma {:induction false} NumAppend(d: seq<byte>, p: nat, m: nat, n: nat)
    requires p + m + n <= 8 * |d|
    ensures Num(d, p, m + n) == Num(d, p, m) + Pow2(m) * Num(d, p + m, n)
  {
    hide Bit;
    if n == 0 {
    } else {
      NumAppend(d, p, m, n - 1);
      Pow2Add(m, n - 1);
      NumAppendBit(Num(d, p, m), Pow2(m), Num(d, p + m, n - 1), Pow2(n - 1), Bit(d, p + m + n - 1));
    }
  }

  lemma NumAppendBit(low: nat, m: nat, a: nat, b: nat, t: nat)
    ensures low + m * (a + b * t) == (low + m * a) + (m * b) * t
  {
    Distribute(m, a, b, t);
  }

  lemma Distribute(m: nat, a: nat, b: nat, t: nat)
    ensures m * (a + b * t) == m * a + (m * b) * t
  {
    assert m * (b * t) == (m * b) * t;
  }

  lemma NumSplit(d: seq<byte>, p: nat, m: nat, n: nat)
    requires p + m + n <= 8 * |d|
    ensures Num(d, p, m + n) == Num(d, p, m) + Pow2(m) * Num(d, p + m, n)
    ensures Num(d, p, m + n) % Pow2(m) == Num(d, p, m)
    ensures Num(d, p, m + n) / Pow2(m) == Num(d, p + m, n)
  {
    NumAppend(d, p, m, n);
    FieldsUnique(Num(d, p, m + n), Num(d, p, m), Pow2(m), Num(d, p + m, n));
  }

  lemma {:induction false} NumByteBits(d: seq<byte>, k: nat, n: nat)
    requires k < |d| && n <= 8
    ensures Num(d, 8 * k, n) == d[k] % Pow2(n)
  {
    if 0 < n {
      NumByteBits(d, k, n - 1);
      ModStep(d[k], n - 1);
      assert (8 * k + n - 1) / 8 == k && (8 * k + n - 1) % 8 == n - 1;
    } else {
      assert d[k] % 1 == 0;
    }
  }

  lemma ByteMod(c: byte)
    ensures c % Pow2(8) == c
  {
    Pow2Values();
    ModSmall(c, 256);
  }

  lemma NumByte(d: seq<byte>, k: nat)
    requires k < |d|
    ensures Num(d, 8 * k, 8) == d[k]
  {
    NumByteBits(d, k, 8);
    ByteMod(d[k]);
  }

  lemma {:induction false} NumBit(d: seq<byte>, p: nat, n: nat, i: nat)
    requires p + n <= 8 * |d| && i < n
    ensures BitOf(Num(d, p, n), i) == Bit(d, p + i)
  {
    NumSplit(d, p, i, n - i);
    NumSplit(d, p + i, 1, n - i - 1);
    assert Num(d, p + i, 1) == Bit(d, p + i) by {
      assert Num(d, p + i, 0) == 0 && Pow2(0) == 1;
    }
    assert Pow2(1) == 2;
  }

  /** A code read from the stream is the reversal of the same bits read as a number. */
  lemma {:induction false} CodeBitsRev(d: seq<byte>, p: nat, n: nat, m: nat)
    requires n <= m && p + m <= 8 * |d|
    ensures CodeBits(d, p, n) == Rev(Num(d, p, m), n)
  {
    if 0 < n {
      CodeBitsRev(d, p, n - 1, m);
      NumBit(d, p, m, n - 1);
    }
  }

  lemma TypeBound(d: seq<byte>, p: nat)
    requires p + 2 <= 8 * |d|
    ensures Num(d, p, 2) < 4
  {
    Pow2Values();
  }

  // Streams inside others

  /** d stands in x from byte k on. */
  predicate Contains(x: seq<byte>, d: seq<byte>, k: nat) {
    k + |d| <= |x| && x[k..k + |d|] == d
  }

  lemma ByteMoved(x: seq<byte>, d: seq<byte>, k: nat, q: nat)
    requires Contains(x, d, k) && q < |d|
    ensures x[k + q] == d[q]
  {
    assert x[k..k + |d|][q] == x[k + q];
  }

  lemma {:induction false} NumMoved(x: seq<byte>, d: seq<byte>, k: nat, p: nat, n: nat)
    requires Contains(x, d, k) && p + n <= 8 * |d|
    ensures Num(x, p + 8 * k, n) == Num(d, p, n)
  {
    hide Bit, Contains;
    if n > 0 {
      NumMoved(x, d, k, p, n - 1);
      BitMoved(x, d, k, p + n - 1);
    }
  }

  lemma BitMoved(x: seq<byte>, d: seq<byte>, k: nat, p: nat)
    requires Contains(x, d, k) && p < 8 * |d|
    ensures Bit(x, p + 8 * k) == Bit(d, p)
  {
    ByteMoved(x, d, k, p / 8);
    assert (p + 8 * k) / 8 == p / 8 + k && (p + 8 * k) % 8 == p % 8;
  }
}
