/** What a gzip file means (RFC 1952): a series of members, each with a header, compressed data and
    a trailer. */
module Members {
  import opened Bits
  import opened Canonical
  import opened Deflate
  import opened Checksum

  // Headers, section 2.3

  /** The longest name or comment that is read, with its zero byte. */
  const MAX_STRING: nat := 512

  function Le16(d: seq<byte>, q: nat): nat
    requires q + 2 <= |d|
  {
    Word(d, q)
  }

  function Le32(d: seq<byte>, q: nat): nat
    requires q + 4 <= |d|
  {
    Word(d, q) + 0x1_0000 * Word(d, q + 2)
  }

  predicate Flag(flags: byte, f: nat)
    requires 0 < f
  {
    flags as nat / f % 2 == 1
  }

  const HEADER_CRC: nat := 2
  const EXTRA: nat := 4
  const NAME: nat := 8
  const COMMENT: nat := 16

  function FixedEnd(d: seq<byte>, q: nat): (r: Option<nat>)
    ensures r.Some? ==> r.value == q + 10 <= |d|
  {
    if q + 10 <= |d| && d[q] == 0x1F && d[q + 1] == 0x8B && d[q + 2] == 8 then Some(q + 10) else None
  }

  function ExtraEnd(d: seq<byte>, q: nat, flags: byte): (r: Option<nat>)
    requires q <= |d|
    ensures r.Some? ==> q <= r.value <= |d|
  {
    if !Flag(flags, EXTRA) then Some(q)
    else if q + 2 > |d| || q + 2 + Le16(d, q) > |d| then None
    else Some(q + 2 + Le16(d, q))
  }

  /** The position after the first zero byte, if it is one of the next n. */
  function ZeroEnd(d: seq<byte>, q: nat, n: nat): (r: Option<nat>)
    ensures r.Some? ==> q < r.value <= |d|
    decreases n
  {
    if n == 0 || q >= |d| then None
    else if d[q] == 0 then Some(q + 1)
    else ZeroEnd(d, q + 1, n - 1)
  }

  function StringEnd(d: seq<byte>, q: nat, flags: byte, f: nat): (r: Option<nat>)
    requires q <= |d| && 0 < f
    ensures r.Some? ==> q <= r.value <= |d|
  {
    if Flag(flags, f) then ZeroEnd(d, q, MAX_STRING) else Some(q)
  }

  /** The position after the checksum of the header, which starts at q0. */
  function CrcEnd(d: seq<byte>, q0: nat, q: nat, flags: byte): (r: Option<nat>)
    requires q0 <= q <= |d|
    ensures r.Some? ==> q <= r.value <= |d|
  {
    if !Flag(flags, HEADER_CRC) then Some(q)
    else if q + 2 <= |d| && Le16(d, q) == Update(0, d[q0..q]) % 0x1_0000 then Some(q + 2)
    else None
  }

  /** The position after the header that starts at q. */
  function HeaderEnd(d: seq<byte>, q: nat): (r: Option<nat>)
    ensures r.Some? ==> q + 10 <= r.value <= |d|
  {
    match FixedEnd(d, q)
    case None => None
    case Some(q1) =>
      var flags := d[q + 3];
      match ExtraEnd(d, q1, flags)
      case None => None
      case Some(q2) =>
        match StringEnd(d, q2, flags, NAME)
        case None => None
        case Some(q3) =>
          match StringEnd(d, q3, flags, COMMENT)
          case None => None
          case Some(q4) => CrcEnd(d, q, q4, flags)
  }

  // Members, section 2.2

  /** All the output there is, and whether the file ends well. */
  datatype Decoded = Decoded(out: seq<byte>, ok: bool)

  /** The trailer at q is that of a member with output `out`. */
  predicate Sealed(d: seq<byte>, q: nat, out: seq<byte>)
    requires q + 8 <= |d|
  {
    Le32(d, q) == Update(0, out) && Le32(d, q + 4) == |out| % 0x1_0000_0000
  }

  /** The members from position q on. Trailers are only compared if `checked`; whether it is all
      right for the file to stop where it does is given by `clean`. */
  function From(d: seq<byte>, q: nat, checked: bool, clean: bool): Decoded
    requires q <= |d|
    decreases |d| - q
  {
    if q == |d| then Decoded([], clean)
    else
      match HeaderEnd(d, q)
      case None => Decoded([], false)
      case Some(h) =>
        RunInside(d, Config(Block, 8 * h, []));
        Rest(d, Run(d, Config(Block, 8 * h, [])), 0, checked, clean)
  }

  /** What is left of a member whose data ends in state g, from its byte k on, and the members after
      it. */
  function Rest(d: seq<byte>, g: Config, k: nat, checked: bool, clean: bool): Decoded
    requires Stopped(g) && g.p <= 8 * |d| && k <= |g.out|
    decreases |d| - NextByte(g.p)
  {
    var q := NextByte(g.p);
    if g.mode.Bad? || q + 8 > |d| || (checked && !Sealed(d, q, g.out)) then Decoded(g.out[k..], false)
    else
      var m := From(d, q + 8, checked, clean);
      Decoded(g.out[k..] + m.out, m.ok)
  }

  /** On a file whose trailers are right, comparing them makes no difference. */
  lemma {:induction false} Unchecked(d: seq<byte>, q: nat, clean: bool)
    requires q <= |d| && From(d, q, true, clean).ok
    ensures From(d, q, false, clean) == From(d, q, true, clean)
    decreases |d| - q
  {
    hide Run, Sealed, HeaderEnd;
    if q < |d| {
      var c := Config(Block, 8 * HeaderEnd(d, q).value, []);
      RunInside(d, c);
      UncheckedRest(d, Run(d, c), 0, clean);
    }
  }

  lemma {:induction false} UncheckedRest(d: seq<byte>, g: Config, k: nat, clean: bool)
    requires Stopped(g) && g.p <= 8 * |d| && k <= |g.out| && Rest(d, g, k, true, clean).ok
    ensures Rest(d, g, k, false, clean) == Rest(d, g, k, true, clean)
    decreases |d| - NextByte(g.p)
  {
    hide Run, Sealed, HeaderEnd;
    Unchecked(d, NextByte(g.p) + 8, clean);
  }

  /** The members of two files, one after the other. */
  lemma RestFrom(d: seq<byte>, g: Config, j: nat, k: nat, checked: bool, clean: bool)
    requires Stopped(g) && g.p <= 8 * |d| && j <= k <= |g.out|
    ensures Rest(d, g, k, checked, clean).ok == Rest(d, g, j, checked, clean).ok
    ensures Rest(d, g, j, checked, clean).out == g.out[j..k] + Rest(d, g, k, checked, clean).out
  {
    hide From, Sealed, Stopped;
    assert g.out[j..] == g.out[j..k] + g.out[k..];
  }
}
