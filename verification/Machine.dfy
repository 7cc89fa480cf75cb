/** Bytes, 64-bit numbers, and handles that read bytes. */
module Machine {
  type Byte = b: nat | b < 256
  type Bytes = seq<Byte>
  type U64 = n: nat | n < 0x1_0000_0000_0000_0000

  const U64_MAX: U64 := 0xFFFF_FFFF_FFFF_FFFF
  const CR: Byte := 13
  const LF: Byte := 10

  function Smaller(a: nat, b: nat): nat {
    if a < b then a else b
  }

  function Larger(a: nat, b: nat): nat {
    if a < b then b else a
  }

  /** The bytes of several pieces, in order. */
  function Flat(pieces: seq<Bytes>): Bytes {
    if pieces == [] then [] else pieces[0] + Flat(pieces[1..])
  }

  /** A handle on a file whose reads return at least one byte, but possibly fewer than there is room for. */
  class FileHandle {
    const bytes: seq<Byte>
    /** How many bytes the n-th read is willing to return. */
    const pace: nat -> nat
    var position: nat
    var calls: nat

    ghost predicate Valid()
      reads this
    {
      position <= |bytes|
    }

    constructor (content: seq<Byte>, speed: nat -> nat)
      ensures Valid() && bytes == content && pace == speed && position == 0
    {
      bytes, pace, position, calls := content, speed, 0, 0;
    }

    /** Reads into the buffer from index `from`; zero only at the end of the file or of the buffer. */
    method Read(buffer: array<Byte>, from: nat) returns (n: nat)
      requires Valid() && from <= buffer.Length
      modifies this, buffer
      ensures Valid() && position == old(position) + n && from + n <= buffer.Length
      ensures n == 0 <==> from == buffer.Length || old(position) == |bytes|
      ensures buffer[..from] == old(buffer[..from])
      ensures buffer[from..from + n] == bytes[old(position)..position]
    {
      var room := Smaller(buffer.Length - from, |bytes| - position);
      n := if pace(calls) == 0 then Smaller(1, room) else Smaller(pace(calls), room);
      forall i | 0 <= i < n {
        buffer[from + i] := bytes[position + i];
      }
      position, calls := position + n, calls + 1;
    }

    /** Reads until the buffer is full or the file ends: short reads do not show. */
    method ReadChunk(buffer: array<Byte>) returns (filled: nat)
      requires Valid()
      modifies this, buffer
      ensures Valid() && position == old(position) + filled
      ensures filled == Smaller(buffer.Length, |bytes| - old(position))
      ensures buffer[..filled] == bytes[old(position)..position]
    {
      filled := 0;
      while filled < buffer.Length
        invariant Valid() && filled <= buffer.Length && position == old(position) + filled
        invariant buffer[..filled] == bytes[old(position)..position]
        decreases buffer.Length - filled
      {
        ghost var before := position;
        var n := Read(buffer, filled);
        if n == 0 {
          break;
        }
        assert buffer[..filled + n] == buffer[..filled] + buffer[filled..filled + n];
        assert bytes[old(position)..position] == bytes[old(position)..before] + bytes[before..position];
        filled := filled + n;
      }
    }
  }
}
