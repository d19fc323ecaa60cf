/** The compressed input: a file read from some position on, and the values an error can have. */
module Input {
  import opened Bits

  datatype Err = Ok | Eof | UnexpectedEof | Corrupt | BadChecksum | BadHeader | ReadFailed

  /** An end of input where more was needed is not a clean one. */
  function NoEof(e: Err): Err {
    if e == Eof then UnexpectedEof else e
  }

  /** A reader over the file that counts what is taken from it. At the end of the data it reports
      `atEnd`: the end of the file, or a failure of the storage behind it. */
  class CountReader {
    const data: seq<byte>
    const atEnd: Err
    /** Position in the file. */
    var pos: nat
    /** Bytes counted since the reader was made; a failed ReadByte counts as well. */
    var n: nat
    ghost const start: nat

    /** The count is right as long as there is something to read. */
    ghost predicate Valid()
      reads this
    {
      start <= pos <= |data| && atEnd in {Eof, ReadFailed} && (pos < |data| ==> n == pos - start)
    }

    constructor (data: seq<byte>, pos: nat, atEnd: Err)
      requires pos <= |data| && atEnd in {Eof, ReadFailed}
      ensures Valid() && this.data == data && this.pos == pos && this.atEnd == atEnd && n == 0 && start == pos
    {
      start := pos;
      this.data, this.pos, this.atEnd, n := data, pos, atEnd, 0;
    }

    method ReadByte() returns (c: byte, err: Err)
      requires Valid()
      modifies this
      ensures Valid() && n == old(n) + 1
      ensures err == if old(pos) < |data| then Ok else atEnd
      ensures err == Ok ==> c == data[old(pos)] && pos == old(pos) + 1 && n == pos - start
      ensures err != Ok ==> pos == old(pos) == |data|
    {
      n := n + 1;
      if pos == |data| {
        return 0, atEnd;
      }
      c, err := data[pos], Ok;
      pos := pos + 1;
    }

    /** Fills cnt slots of a from lo on, as far as the data goes. */
    method ReadFull(a: array<byte>, lo: nat, cnt: nat) returns (got: nat, err: Err)
      requires Valid() && lo + cnt <= a.Length
      modifies this, a
      ensures Valid() && n == old(n) + got && pos == old(pos) + got && (0 < got ==> n == pos - start)
      ensures got == if old(pos) + cnt <= |data| then cnt else |data| - old(pos)
      ensures err == if got == cnt then Ok else if got == 0 then atEnd else NoEof(atEnd)
      ensures a[lo..lo + got] == data[old(pos)..old(pos) + got]
      ensures forall i | 0 <= i < a.Length && !(lo <= i < lo + got) :: a[i] == old(a[i])
    {
      got := if pos + cnt <= |data| then cnt else |data| - pos;
      forall i | 0 <= i < got {
        a[lo + i] := data[pos + i];
      }
      pos := pos + got;
      n := n + got;
      err := if got == cnt then Ok else if got == 0 then atEnd else NoEof(atEnd);
    }
  }
}
