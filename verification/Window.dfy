/** The sliding window of the inflater: a buffer of fixed size that is filled from the front,
    handed out piece by piece, and overwritten once it has been handed out. */
module Window {
  import opened Bits

  function Min(a: nat, b: nat): nat {
    if a < b then a else b
  }

  /** The last n bytes of h, or all of it. */
  function Last(h: seq<byte>, n: nat): (r: seq<byte>)
    ensures |r| == Min(|h|, n)
  {
    if |h| <= n then h else h[|h| - n..]
  }

  /** A back-reference (section 3.2.3 of RFC 1951), one byte at a time: the source may run into
      the bytes being written. */
  function CopyBytes(h: seq<byte>, dist: nat, n: nat): (r: seq<byte>)
    requires 0 < dist <= |h|
    ensures |r| == |h| + n && r[..|h|] == h
  {
    if n == 0 then h
    else
      var r' := CopyBytes(h, dist, n - 1);
      r' + [r'[|r'| - dist]]
  }

  lemma {:induction false} CopyPeriod(h: seq<byte>, dist: nat, n: nat, i: nat)
    requires 0 < dist <= |h| <= i < |h| + n
    ensures CopyBytes(h, dist, n)[i] == CopyBytes(h, dist, n)[i - dist]
  {
    if i < |h| + n - 1 {
      CopyPeriod(h, dist, n - 1, i);
    }
  }

  ghost predicate Periodic(s: seq<byte>, dist: nat) {
    forall i | dist <= i < |s| :: s[i] == s[i - dist]
  }

  /** Looking m distances back at once: what lets the copy double its source. */
  lemma {:induction false} PeriodShift(s: seq<byte>, dist: nat, m: nat, shift: nat)
    requires 0 < dist && Periodic(s, dist) && shift == m * dist
    ensures forall i | 0 <= i < |s| - shift :: s[i] == s[i + shift]
  {
    if m == 0 {
    } else {
      assert (m - 1) * dist == shift - dist >= 0 by {
        MulMono(dist, 0, m - 1);
      }
      PeriodShift(s, dist, m - 1, shift - dist);
      forall i | 0 <= i < |s| - shift ensures s[i] == s[i + shift] {
        assert s[i + shift] == s[i + shift - dist];
      }
    }
  }

  lemma CopyIsPeriodic(h: seq<byte>, dist: nat, n: nat, from: nat)
    requires 0 < dist <= |h| && |h| - dist <= from <= |h| + n
    ensures Periodic(CopyBytes(h, dist, n)[from..], dist)
  {
    var s := CopyBytes(h, dist, n);
    forall i | dist <= i < |s| - from ensures s[from..][i] == s[from..][i - dist] {
      CopyPeriod(h, dist, n, from + i);
    }
  }

  lemma LastAppend(h: seq<byte>, x: seq<byte>, n: nat)
    requires |x| <= n
    ensures Last(h + x, n) == Last(h, n - |x|) + x
  {
  }

  lemma {:induction false} CopyPrefix(h: seq<byte>, dist: nat, m: nat, n: nat)
    requires 0 < dist <= |h| && m <= n
    ensures CopyBytes(h, dist, n)[..|h| + m] == CopyBytes(h, dist, m)
  {
    if m < n {
      CopyPrefix(h, dist, m, n - 1);
      var r := CopyBytes(h, dist, n - 1);
      assert CopyBytes(h, dist, n)[..|h| + m] == r[..|h| + m];
    } else {
      var r := CopyBytes(h, dist, n);
      assert r[..|h| + n] == r;
    }
  }

  lemma {:induction false} CopySplit(h: seq<byte>, dist: nat, m: nat, n: nat)
    requires 0 < dist <= |h|
    ensures CopyBytes(CopyBytes(h, dist, m), dist, n) == CopyBytes(h, dist, m + n)
  {
    if 0 < n {
      CopySplit(h, dist, m, n - 1);
    }
  }

  /** What a buffer h with write position w gives back-references to, oldest byte first, when the
      next cnt bytes are about to be overwritten. */
  function Kept(h: seq<byte>, w: nat, cnt: nat, full: bool): (r: seq<byte>)
    requires w + cnt <= |h|
  {
    if full then h[w + cnt..] + h[..w] else h[..w]
  }

  /** That is the end of the stream `total`. */
  ghost predicate Holds(h: seq<byte>, w: nat, cnt: nat, full: bool, total: seq<byte>)
  {
    && w + cnt <= |h| && 0 < |h|
    && (if full then |h| <= |total| else |total| == w)
    && Kept(h, w, cnt, full) == Last(total, if full then |h| - cnt else |h|)
  }

  lemma HoldsLess(h: seq<byte>, w: nat, cnt: nat, full: bool, total: seq<byte>)
    requires Holds(h, w, 0, full, total) && w + cnt <= |h|
    ensures Holds(h, w, cnt, full, total)
  {
    if full {
      assert Kept(h, w, cnt, full) == Kept(h, w, 0, full)[cnt..];
    }
  }

  lemma HoldsStored(h: seq<byte>, h': seq<byte>, w: nat, cnt: nat, full: bool, total: seq<byte>)
    requires Holds(h, w, cnt, full, total)
    requires |h'| == |h| && forall i | 0 <= i < |h| && !(w <= i < w + cnt) :: h'[i] == h[i]
    ensures Holds(h', w, cnt, full, total)
  {
    assert h'[..w] == h[..w] && h'[w + cnt..] == h[w + cnt..];
  }

  lemma HoldsMarked(h: seq<byte>, w: nat, cnt: nat, full: bool, total: seq<byte>)
    requires Holds(h, w, cnt, full, total)
    ensures Holds(h, w + cnt, 0, full, total + h[w..w + cnt])
  {
    var data := h[w..w + cnt];
    assert h[..w + cnt] == h[..w] + data;
    if full {
      LastAppend(total, data, |h|);
      assert Kept(h, w + cnt, 0, full) == Kept(h, w, cnt, full) + data;
    } else {
      assert Kept(h, w + cnt, 0, full) == total + data;
    }
  }

  lemma HoldsByte(h: seq<byte>, w: nat, full: bool, total: seq<byte>, c: byte)
    requires Holds(h, w, 0, full, total) && w < |h|
    ensures Holds(h[w := c], w + 1, 0, full, total + [c])
  {
    hide Holds, Last, Kept;
    HoldsLess(h, w, 1, full, total);
    HoldsStored(h, h[w := c], w, 1, full, total);
    HoldsMarked(h[w := c], w, 1, full, total);
    assert h[w := c][w..w + 1] == [c];
  }

  lemma HoldsWrapped(h: seq<byte>, full: bool, total: seq<byte>)
    requires Holds(h, |h|, 0, full, total)
    ensures Holds(h, 0, 0, true, total)
  {
    assert h[..|h|] == h && h[|h|..] == [] && h[0..] == h && h[..0] == [];
  }

  /** The buffer in front of the write position is the end of the stream. */
  lemma HoldsFront(h: seq<byte>, w: nat, full: bool, total: seq<byte>, from: nat)
    requires Holds(h, w, 0, full, total) && from <= w
    ensures w <= |total| && h[from..w] == total[|total| - (w - from)..]
  {
    var r := Kept(h, w, 0, full);
    assert h[..w] == r[|r| - w..];
    assert h[from..w] == r[|r| - (w - from)..];
  }

  lemma LastSlice(total: seq<byte>, n: nat, dist: nat, k: nat)
    requires k <= dist <= n <= |total|
    ensures Last(total, n)[n - dist..n - dist + k] == total[|total| - dist..|total| - dist + k]
  {
  }

  /** The end of a full buffer is what came before that. */
  lemma HoldsBack(h: seq<byte>, w: nat, total: seq<byte>, dist: nat, k: nat, srcPos: nat)
    requires Holds(h, w, 0, true, total) && w < dist <= |h| && srcPos == w - dist + |h| && srcPos + k <= |h|
    ensures h[srcPos..srcPos + k] == total[|total| - dist..|total| - dist + k]
  {
    var r := Kept(h, w, 0, true);
    assert h[srcPos..srcPos + k] == r[|h| - dist..|h| - dist + k];
    LastSlice(total, |h|, dist, k);
  }

  /** What is in place before the doubling copy. The stretch of the buffer from `back` bytes before
      the write position w to n bytes after it is to become `want`; up to k bytes after w it is
      already. `out` is the stream after the copy. */
  ghost predicate Ready(h: seq<byte>, w: nat, total: seq<byte>, dist: nat, n: nat, back: nat, k: nat,
                        want: seq<byte>, out: seq<byte>)
  {
    && back <= w && k <= n && w + n <= |h| && |want| == back + n && Periodic(want, dist)
    && h[w - back..w + k] == want[..back + k]
    && out == total + want[back..]
  }

  lemma Target(total: seq<byte>, dist: nat, n: nat, back: nat)
    requires 0 < dist <= |total| && back <= dist
    ensures var out := CopyBytes(total, dist, n);
            var want := out[|total| - back..];
            && |want| == back + n && Periodic(want, dist) && out == total + want[back..]
            && want[..back] == total[|total| - back..]
  {
    CopyIsPeriodic(total, dist, n, |total| - back);
    var out := CopyBytes(total, dist, n);
    var want := out[|total| - back..];
    assert want[..back] == out[..|total|][|total| - back..];
    assert want[back..] == out[|total|..];
    assert out == out[..|total|] + out[|total|..];
  }

  lemma ReadyInFront(h: seq<byte>, w: nat, full: bool, total: seq<byte>, dist: nat, n: nat)
    requires Holds(h, w, 0, full, total) && 0 < dist <= w && w + n <= |h|
    ensures Holds(h, w, n, full, total) && dist <= |total|
    ensures Ready(h, w, total, dist, n, dist, 0, CopyBytes(total, dist, n)[|total| - dist..], CopyBytes(total, dist, n))
  {
    hide Holds, CopyBytes, Periodic;
    HoldsLess(h, w, n, full, total);
    HoldsFront(h, w, full, total, w - dist);
    Target(total, dist, n, dist);
    assert h[w - dist..w + 0] == total[|total| - dist..];
  }

  lemma ReadyWrapped(h: seq<byte>, h': seq<byte>, w: nat, full: bool, total: seq<byte>, dist: nat, n: nat, k: nat,
      srcPos: nat)
    requires Holds(h, w, 0, full, total) && w < dist <= Min(|total|, |h|) && k <= n && w + n <= |h|
    requires srcPos == w - dist + |h| && srcPos + k <= |h|
    requires |h'| == |h| && h'[w..w + k] == h[srcPos..srcPos + k]
    requires forall i | 0 <= i < |h| && !(w <= i < w + k) :: h'[i] == h[i]
    ensures Holds(h', w, n, full, total) && w <= |total|
    ensures Ready(h', w, total, dist, n, w, k, CopyBytes(total, dist, n)[|total| - w..], CopyBytes(total, dist, n))
  {
    HoldsBack(h, w, total, dist, k, srcPos);
    CopyFromBack(total, dist, n, k);
    HoldsFront(h, w, full, total, 0);
    HoldsLess(h, w, n, full, total);
    HoldsStored(h, h', w, n, full, total);
    Target(total, dist, n, w);
    hide Holds, CopyBytes, Periodic;
    var out := CopyBytes(total, dist, n);
    var want := out[|total| - w..];
    assert h'[..w] == h[..w];
    assert h'[0..w + k] == h'[..w] + h'[w..w + k];
    assert want[..w + k] == want[..w] + out[|total|..|total| + k];
  }

  lemma ReadyParts(h: seq<byte>, w: nat, total: seq<byte>, dist: nat, n: nat, back: nat, k: nat,
                   want: seq<byte>, out: seq<byte>, src: int, start: nat)
    requires Ready(h, w, total, dist, n, back, k, want, out) && src == w - back && start == w + k
    ensures 0 <= src <= start <= w + n <= |h| && |want| == w + n - src && Periodic(want, dist)
    ensures start - src == back + k && h[src..start] == want[..start - src]
  {
    hide Periodic;
  }

  /** What has changed lies between lo and hi. */
  ghost predicate Within(h: seq<byte>, h': seq<byte>, lo: nat, hi: nat) {
    |h'| == |h| && forall i | 0 <= i < |h| && !(lo <= i < hi) :: h'[i] == h[i]
  }

  lemma CopyDone(h: seq<byte>, h': seq<byte>, w: nat, full: bool, total: seq<byte>, dist: nat, n: nat, back: nat,
                 k: nat, want: seq<byte>, out: seq<byte>)
    requires Ready(h, w, total, dist, n, back, k, want, out) && Holds(h, w, n, full, total)
    requires Within(h, h', w + k, w + n) && h'[w - back..w + n] == want
    ensures Holds(h', w + n, 0, full, out)
  {
    hide Periodic;
    HoldsStored(h, h', w, n, full, total);
    HoldsMarked(h', w, n, full, total);
    assert h'[w..w + n] == h'[w - back..w + n][back..];
  }

  lemma CopyFromBack(total: seq<byte>, dist: nat, n: nat, k: nat)
    requires 0 < dist <= |total| && k <= n && k <= dist
    ensures CopyBytes(total, dist, n)[|total|..|total| + k] == total[|total| - dist..|total| - dist + k]
  {
    var out := CopyBytes(total, dist, n);
    forall i | |total| <= i < |total| + k ensures out[i] == total[i - dist] {
      CopyPeriod(total, dist, n, i);
    }
  }

  /** Copies n bytes inside a, as if through a buffer. */
  method CopyWithin(a: array<byte>, dst: nat, src: nat, n: nat)
    requires dst + n <= a.Length && src + n <= a.Length
    modifies a
    ensures a[..][dst..dst + n] == old(a[..])[src..src + n]
    ensures forall i | 0 <= i < a.Length && !(dst <= i < dst + n) :: a[i] == old(a[i])
  {
    forall i | 0 <= i < n {
      a[dst + i] := a[src + i];
    }
  }

  /** The forward copy that doubles its source while it catches up with the target: the bytes from
      srcPos to endPos become `want`, which repeats with period dist. */
  method CopyForward(a: array<byte>, srcPos: nat, start: nat, endPos: nat, ghost want: seq<byte>, ghost dist: nat)
    requires srcPos <= start <= endPos <= a.Length
    requires 0 < dist && |want| == endPos - srcPos && Periodic(want, dist)
    requires start == endPos || start - srcPos == dist
    requires a[..][srcPos..start] == want[..start - srcPos]
    modifies a
    ensures a[..][srcPos..endPos] == want && Within(old(a[..]), a[..], start, endPos)
  {
    hide Periodic;
    ghost var m := 1;
    var dstPos := start;
    while dstPos < endPos
      invariant start <= dstPos <= endPos
      invariant dstPos == endPos || dstPos - srcPos == m * dist
      invariant a[..][srcPos..dstPos] == want[..dstPos - srcPos]
      invariant forall i | 0 <= i < a.Length && !(start <= i < dstPos) :: a[i] == old(a[i])
    {
      var k := Min(endPos - dstPos, dstPos - srcPos);
      PeriodShift(want, dist, m, dstPos - srcPos);
      ghost var before := a[..];
      CopyWithin(a, dstPos, srcPos, k);
      CopiedPart(before, a[..], srcPos, dstPos, k, want);
      dstPos := dstPos + k;
      Doubled(m, dist);
      m := 2 * m;
    }
    assert want[..endPos - srcPos] == want;
  }

  lemma Doubled(m: nat, dist: nat)
    ensures m * dist + m * dist == (2 * m) * dist
  {
  }

  lemma CopiedPart(h: seq<byte>, h': seq<byte>, srcPos: nat, dstPos: nat, k: nat, want: seq<byte>)
    requires srcPos <= dstPos && dstPos + k <= |h| == |h'| && k <= dstPos - srcPos && dstPos - srcPos + k <= |want|
    requires h[srcPos..dstPos] == want[..dstPos - srcPos]
    requires forall i | 0 <= i < |want| - (dstPos - srcPos) :: want[i] == want[i + (dstPos - srcPos)]
    requires h'[dstPos..dstPos + k] == h[srcPos..srcPos + k]
    requires forall i | 0 <= i < |h| && !(dstPos <= i < dstPos + k) :: h'[i] == h[i]
    ensures h'[srcPos..dstPos + k] == want[..dstPos - srcPos + k]
  {
    var len := dstPos - srcPos;
    assert h'[srcPos..dstPos] == h[srcPos..dstPos];
    assert h[srcPos..srcPos + k] == h[srcPos..dstPos][..k];
    assert want[..len][..k] == want[..k];
    assert want[len..len + k] == want[..k];
    assert h'[srcPos..dstPos + k] == h'[srcPos..dstPos] + h'[dstPos..dstPos + k];
    assert want[..len + k] == want[..len] + want[len..len + k];
  }

  class DictDecoder {
    const hist: array<byte>
    var wrPos: nat
    var rdPos: nat
    var full: bool
    /** Every byte written so far, starting with the preset dictionary. */
    ghost var total: seq<byte>

    /** Bytes written and not yet handed out. */
    function AvailRead(): nat
      reads this
      requires rdPos <= wrPos
    {
      wrPos - rdPos
    }

    function AvailWrite(): nat
      reads this
      requires wrPos <= hist.Length
    {
      hist.Length - wrPos
    }

    ghost predicate Valid()
      reads this, hist
    {
      rdPos <= wrPos && Holds(hist[..], wrPos, 0, full, total)
    }

    /** The bytes at the write position have been overwritten with new data, not yet counted. */
    ghost predicate Loaded(cnt: nat)
      reads this, hist
    {
      rdPos <= wrPos && Holds(hist[..], wrPos, cnt, full, total)
    }

    constructor (size: nat, dict: seq<byte>)
      requires 0 < size
      ensures Valid() && fresh(hist) && hist.Length == size
      ensures total == dict && AvailRead() == 0 && wrPos < size
    {
      var kept := if |dict| > size then dict[|dict| - size..] else dict;
      hist := new byte[size](i => if 0 <= i < |kept| then kept[i] else 0);
      wrPos, rdPos, full := |kept|, |kept|, false;
      total := dict;
      new;
      assert hist[..wrPos] == kept;
      if wrPos == hist.Length {
        wrPos, rdPos := 0, 0;
        full := true;
        assert hist[..] == kept;
      }
    }

    /** The window a checkpoint describes. */
    constructor Restore(size: nat, saved: seq<byte>, wrPos: nat, rdPos: nat, full: bool)
      requires 0 < size && rdPos <= wrPos < size
      ensures Valid() && fresh(hist) && hist.Length == size
      ensures this.wrPos == wrPos && this.rdPos == rdPos && this.full == full
      ensures hist[..] == seq(size, i requires 0 <= i => if i < |saved| then saved[i] else 0)
      ensures total == Kept(hist[..], wrPos, 0, full)
    {
      hist := new byte[size](i => if 0 <= i < |saved| then saved[i] else 0);
      this.wrPos, this.rdPos, this.full := wrPos, rdPos, full;
      new;
      total := Kept(hist[..], wrPos, 0, full);
    }

    method HistSize() returns (n: nat)
      requires Valid()
      ensures n == Min(|total|, hist.Length)
    {
      return if full then hist.Length else wrPos;
    }

    method WriteByte(c: byte)
      requires Valid() && 0 < AvailWrite()
      modifies `wrPos, `total, hist
      ensures Valid() && total == old(total) + [c] && wrPos == old(wrPos) + 1
    {
      hide Holds, Last, Kept;
      HoldsByte(hist[..], wrPos, full, total, c);
      ghost var after := hist[..][wrPos := c];
      hist[wrPos] := c;
      assert hist[..] == after;
      wrPos := wrPos + 1;
      total := total + [c];
    }

    /** Bytes stored at the write position are not part of the window until they are counted. */
    twostate lemma StoreLoads(cnt: nat)
      requires old(Valid()) && wrPos + cnt <= hist.Length
      requires wrPos == old(wrPos) && rdPos == old(rdPos) && full == old(full) && total == old(total)
      requires forall i | 0 <= i < hist.Length && !(wrPos <= i < wrPos + cnt) :: hist[i] == old(hist[i])
      ensures Loaded(cnt)
    {
      hide Kept, Last;
      HoldsLess(old(hist[..]), wrPos, cnt, full, total);
      HoldsStored(old(hist[..]), hist[..], wrPos, cnt, full, total);
    }

    /** Counts cnt bytes stored at the write position. */
    method WriteMark(cnt: nat)
      requires Loaded(cnt)
      modifies `wrPos, `total
      ensures Valid() && wrPos == old(wrPos) + cnt
      ensures total == old(total) + hist[..][old(wrPos)..old(wrPos) + cnt]
    {
      HoldsMarked(hist[..], wrPos, cnt, full, total);
      total := total + hist[..][wrPos..wrPos + cnt];
      wrPos := wrPos + cnt;
    }

    /** Copies up to `length` bytes from `dist` back, as many as fit in the buffer. */
    method WriteCopy(dist: nat, length: nat) returns (cnt: nat)
      requires Valid() && 0 < dist <= Min(|total|, hist.Length)
      modifies `wrPos, `total, hist
      ensures Valid() && cnt == Min(length, old(AvailWrite()))
      ensures total == CopyBytes(old(total), dist, cnt) && wrPos == old(wrPos) + cnt
    {
      var dstBase := wrPos;
      var dstPos := dstBase;
      var srcPos := dstPos - dist;
      var endPos := dstPos + length;
      if endPos > hist.Length {
        endPos := hist.Length;
      }
      cnt := endPos - dstBase;
      if srcPos < 0 {
        srcPos := srcPos + hist.Length;
        CopyWrapped(dist, cnt, Min(endPos - dstPos, hist.Length - srcPos), srcPos);
      } else {
        CopyInFront(dist, cnt);
      }
    }

    /** A copy whose source starts at the end of a full buffer: the first k bytes come from there. */
    method CopyWrapped(dist: nat, n: nat, k: nat, srcPos: nat)
      requires Valid() && wrPos < dist <= Min(|total|, hist.Length) && n <= AvailWrite()
      requires srcPos == wrPos - dist + hist.Length && k == Min(n, hist.Length - srcPos)
      modifies `wrPos, `total, hist
      ensures Valid() && total == CopyBytes(old(total), dist, n) && wrPos == old(wrPos) + n
    {
      hide Holds, Ready, CopyBytes, Kept, Last;
      ghost var before, out := hist[..], CopyBytes(total, dist, n);
      CopyWithin(hist, wrPos, srcPos, k);
      ReadyWrapped(before, hist[..], wrPos, full, total, dist, n, k, srcPos);
      FinishCopy(n, wrPos, k, dist, out[|total| - wrPos..], out);
    }

    /** A copy whose source lies in front of the write position. */
    method CopyInFront(dist: nat, n: nat)
      requires Valid() && 0 < dist <= wrPos && n <= AvailWrite()
      modifies `wrPos, `total, hist
      ensures Valid() && dist <= |old(total)| && total == CopyBytes(old(total), dist, n) && wrPos == old(wrPos) + n
    {
      ReadyInFront(hist[..], wrPos, full, total, dist, n);
      ghost var out := CopyBytes(total, dist, n);
      FinishCopy(n, dist, 0, dist, out[|total| - dist..], out);
    }

    /** The overlapping section of a copy of n bytes whose first k bytes are already in place. */
    method FinishCopy(n: nat, back: nat, k: nat, ghost dist: nat, ghost want: seq<byte>, ghost out: seq<byte>)
      requires Loaded(n) && Ready(hist[..], wrPos, total, dist, n, back, k, want, out)
      requires 0 < dist && (k == n || back + k == dist)
      modifies `wrPos, `total, hist
      ensures Valid() && wrPos == old(wrPos) + n && total == out
    {
      hide Holds, Ready, Periodic, Kept, Last, CopyBytes, Within, DictDecoder.Valid;
      ghost var before := hist[..];
      ReadyParts(before, wrPos, total, dist, n, back, k, want, out, wrPos - back, wrPos + k);
      CopyForward(hist, wrPos - back, wrPos + k, wrPos + n, want, dist);
      ghost var after := hist[..];
      CopyDone(before, after, wrPos, full, total, dist, n, back, k, want, out);
      Moved(n, out);
    }

    /** n more bytes have been written. */
    method Moved(n: nat, ghost out: seq<byte>)
      requires rdPos <= wrPos && Holds(hist[..], wrPos + n, 0, full, out)
      modifies `wrPos, `total
      ensures Valid() && wrPos == old(wrPos) + n && total == out
    {
      hide Holds;
      total := out;
      wrPos := wrPos + n;
    }

    /** The copy for the common case of a source in front of the target with room to spare;
        otherwise it does nothing. */
    method TryWriteCopy(dist: nat, length: nat) returns (cnt: nat)
      requires Valid() && 0 < dist <= Min(|total|, hist.Length)
      modifies `wrPos, `total, hist
      ensures Valid()
      ensures cnt == if old(wrPos) < dist || length > old(AvailWrite()) then 0 else length
      ensures total == CopyBytes(old(total), dist, cnt) && wrPos == old(wrPos) + cnt
    {
      var dstPos := wrPos;
      var endPos := dstPos + length;
      if dstPos < dist || endPos > hist.Length {
        return 0;
      }
      CopyInFront(dist, length);
      return length;
    }

    /** Hands out what has been written since the last time, as a range of the buffer; at the end of
        the buffer, starts again at the front. */
    method ReadFlush() returns (lo: nat, hi: nat)
      requires Valid()
      modifies `wrPos, `rdPos, `full
      ensures Valid() && AvailRead() == 0 && 0 < AvailWrite()
      ensures lo == old(rdPos) && hi == old(wrPos) && lo <= hi <= hist.Length && hi - lo <= |total|
      ensures old(wrPos) < hist.Length ==> wrPos == old(wrPos) && full == old(full)
      ensures hist[..][lo..hi] == total[|total| - (hi - lo)..]
    {
      HoldsFront(hist[..], wrPos, full, total, rdPos);
      lo, hi := rdPos, wrPos;
      rdPos := wrPos;
      if wrPos == hist.Length {
        HoldsWrapped(hist[..], full, total);
        wrPos, rdPos := 0, 0;
        full := true;
      }
    }
  }
}
