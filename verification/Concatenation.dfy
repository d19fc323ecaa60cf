/** A gzip file may be put together from others (RFC 1952, section 2.2): what it means depends on its
    bytes, not on where they stand. */
module Concatenation {
  import opened Bits
  import opened Canonical
  import opened Deflate
  import opened Embedding
  import opened Checksum
  import opened Members

  // Headers

  function MovedEnd(r: Option<nat>, k: nat): Option<nat> {
    match r
    case None => None
    case Some(q) => Some(q + k)
  }

  lemma FixedEndMoved(x: seq<byte>, d: seq<byte>, k: nat, q: nat)
    requires Contains(x, d, k) && (FixedEnd(d, q).Some? || EndsWith(x, d, k))
    ensures FixedEnd(x, q + k) == MovedEnd(FixedEnd(d, q), k)
  {
    if q + 10 <= |d| {
      ByteMoved(x, d, k, q);
      ByteMoved(x, d, k, q + 1);
      ByteMoved(x, d, k, q + 2);
    }
  }

  lemma ExtraEndMoved(x: seq<byte>, d: seq<byte>, k: nat, q: nat, flags: byte)
    requires Contains(x, d, k) && q <= |d| && (ExtraEnd(d, q, flags).Some? || EndsWith(x, d, k))
    ensures ExtraEnd(x, q + k, flags) == MovedEnd(ExtraEnd(d, q, flags), k)
  {
    hide Flag, Word;
    if q + 2 <= |d| {
      WordMoved(x, d, k, q);
    }
  }

  lemma {:induction false} ZeroEndMoved(x: seq<byte>, d: seq<byte>, k: nat, q: nat, n: nat)
    requires Contains(x, d, k) && (ZeroEnd(d, q, n).Some? || EndsWith(x, d, k))
    ensures ZeroEnd(x, q + k, n) == MovedEnd(ZeroEnd(d, q, n), k)
    decreases n
  {
    if n > 0 && q < |d| {
      ByteMoved(x, d, k, q);
      if d[q] != 0 {
        ZeroEndMoved(x, d, k, q + 1, n - 1);
      }
    }
  }

  lemma StringEndMoved(x: seq<byte>, d: seq<byte>, k: nat, q: nat, flags: byte, f: nat)
    requires Contains(x, d, k) && q <= |d| && 0 < f && (StringEnd(d, q, flags, f).Some? || EndsWith(x, d, k))
    ensures StringEnd(x, q + k, flags, f) == MovedEnd(StringEnd(d, q, flags, f), k)
  {
    hide Flag, ZeroEnd;
    if Flag(flags, f) {
      ZeroEndMoved(x, d, k, q, MAX_STRING);
    }
  }

  lemma CrcEndMoved(x: seq<byte>, d: seq<byte>, k: nat, q0: nat, q: nat, flags: byte)
    requires Contains(x, d, k) && q0 <= q <= |d| && (CrcEnd(d, q0, q, flags).Some? || EndsWith(x, d, k))
    ensures CrcEnd(x, q0 + k, q + k, flags) == MovedEnd(CrcEnd(d, q0, q, flags), k)
  {
    hide Flag, Update;
    PartMoved(x, d, k, q0, q);
    if q + 2 <= |d| {
      WordMoved(x, d, k, q);
    }
  }

  lemma HeaderMoved(x: seq<byte>, d: seq<byte>, k: nat, q: nat)
    requires Contains(x, d, k) && (HeaderEnd(d, q).Some? || EndsWith(x, d, k))
    ensures HeaderEnd(x, q + k) == MovedEnd(HeaderEnd(d, q), k)
  {
    hide FixedEnd, ExtraEnd, StringEnd, CrcEnd;
    FixedEndMoved(x, d, k, q);
    if FixedEnd(d, q).Some? {
      ByteMoved(x, d, k, q + 3);
      var flags, q1 := d[q + 3], FixedEnd(d, q).value;
      ExtraEndMoved(x, d, k, q1, flags);
      if ExtraEnd(d, q1, flags).Some? {
        var q2 := ExtraEnd(d, q1, flags).value;
        StringEndMoved(x, d, k, q2, flags, NAME);
        if StringEnd(d, q2, flags, NAME).Some? {
          var q3 := StringEnd(d, q2, flags, NAME).value;
          StringEndMoved(x, d, k, q3, flags, COMMENT);
          if StringEnd(d, q3, flags, COMMENT).Some? {
            CrcEndMoved(x, d, k, q, StringEnd(d, q3, flags, COMMENT).value, flags);
          }
        }
      }
    }
  }

  lemma SealedMoved(x: seq<byte>, d: seq<byte>, k: nat, q: nat, out: seq<byte>)
    requires Contains(x, d, k) && q + 8 <= |d|
    ensures Sealed(x, q + k, out) == Sealed(d, q, out)
  {
    hide Update;
    WordMoved(x, d, k, q);
    WordMoved(x, d, k, q + 2);
    WordMoved(x, d, k, q + 4);
    WordMoved(x, d, k, q + 6);
  }

  // Files

  /** Where the data of the member at q ends. */
  function Goal(d: seq<byte>, q: nat): Config
    requires HeaderEnd(d, q).Some?
  {
    Run(d, Config(Block, 8 * HeaderEnd(d, q).value, []))
  }

  lemma GoalMoved(x: seq<byte>, d: seq<byte>, k: nat, q: nat)
    requires Contains(x, d, k) && HeaderEnd(d, q).Some? && (Goal(d, q).mode.Done? || EndsWith(x, d, k))
    ensures HeaderEnd(x, q + k).Some? && Goal(x, q + k) == MovedConfig(Goal(d, q), k)
    ensures Goal(d, q).p <= 8 * |d| && NextByte(Goal(d, q).p + 8 * k) == NextByte(Goal(d, q).p) + k
    ensures 8 * q < Goal(d, q).p
  {
    hide HeaderEnd, Run;
    HeaderMoved(x, d, k, q);
    var c := Config(Block, 8 * HeaderEnd(d, q).value, []);
    RunMoved(x, d, k, c);
    RunInside(d, c);
  }

  /** What stands at the end of a file means what it means on its own. */
  lemma {:induction false} SuffixFrom(x: seq<byte>, d: seq<byte>, k: nat, q: nat, checked: bool, clean: bool)
    requires EndsWith(x, d, k) && q <= |d|
    ensures From(x, q + k, checked, clean) == From(d, q, checked, clean)
    decreases |d| - q
  {
    hide HeaderEnd, Run, Sealed;
    if q < |d| {
      HeaderMoved(x, d, k, q);
      if HeaderEnd(d, q).Some? {
        GoalMoved(x, d, k, q);
        var g := Goal(d, q);
        var e := NextByte(g.p);
        if e + 8 <= |d| {
          SealedMoved(x, d, k, e, g.out);
          SuffixFrom(x, d, k, e + 8, checked, clean);
        }
      }
    }
  }

  /** A good file means the same in front of another, and then comes what follows it. */
  lemma {:induction false} PrefixFrom(x: seq<byte>, d: seq<byte>, q: nat, checked: bool, clean: bool)
    requires Contains(x, d, 0) && q <= |d| && From(d, q, checked, true).ok
    ensures var rest := From(x, |d|, checked, clean);
            From(x, q, checked, clean) == Decoded(From(d, q, checked, true).out + rest.out, rest.ok)
    decreases |d| - q
  {
    hide HeaderEnd, Run, Sealed;
    if q < |d| {
      HeaderMoved(x, d, 0, q);
      GoalMoved(x, d, 0, q);
      var g := Goal(d, q);
      var e := NextByte(g.p);
      SealedMoved(x, d, 0, e, g.out);
      PrefixFrom(x, d, e + 8, checked, clean);
      assert g.out[0..] == g.out;
    }
  }

  /** The output of a file put together from two is that of the one, if it is good, and then that of
      the other; and it ends well if the other one does. */
  lemma Concatenated(a: seq<byte>, b: seq<byte>, clean: bool)
    requires From(a, 0, true, true).ok
    ensures From(a + b, 0, true, clean)
         == Decoded(From(a, 0, true, true).out + From(b, 0, true, clean).out, From(b, 0, true, clean).ok)
  {
    hide From;
    PrefixFrom(a + b, a, 0, true, clean);
    SuffixFrom(a + b, b, |a|, 0, true, clean);
  }
}
