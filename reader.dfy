/** The byte source the core reads from: the `Read & Seek` capability of
    IOModule, reduced to an in-memory stream and a cursor. The library itself
    is not part of this model; only the contract the core relies on is. */
module IO {
  import opened Types
  import opened Bytes

  class Reader {
    /** The whole stream. */
    const data: seq<u8>
    /** The current offset. */
    var pos: nat

    ghost predicate Valid()
      reads this
    {
      pos <= |data|
    }

    constructor (bytes: seq<u8>)
      ensures Valid() && data == bytes && pos == 0
    {
      data := bytes;
      pos := 0;
    }

    /** `unreadBytesCount()`: stream length minus the current offset. */
    function Unread(): (n: nat)
      reads this
      requires Valid()
      ensures pos + n == |data|
    {
      |data| - pos
    }

    /** `isAtEnd()`: no byte is left to read. */
    function IsAtEnd(): (b: bool)
      reads this
      requires Valid()
      ensures b <==> Unread() == 0
    {
      pos == |data|
    }

    /** `readByte()`: the byte under the cursor, which then moves past it. */
    method ReadByte() returns (r: Result<u8>)
      requires Valid()
      modifies this
      ensures Valid()
      ensures old(pos) < |data| ==> r == Ok(data[old(pos)]) && pos == old(pos) + 1
      ensures old(pos) == |data| ==> r == Err(EndOfStream) && pos == old(pos)
    {
      if pos == |data| {
        return Err(EndOfStream);
      }
      r := Ok(data[pos]);
      pos := pos + 1;
    }

    /** The next `width` bytes read as one big-endian integer. */
    method ReadBE(width: nat) returns (r: Result<nat>)
      requires Valid()
      modifies this
      ensures Valid()
      ensures old(pos) + width <= |data| ==>
        r == Ok(BE(data[old(pos)..old(pos) + width])) && pos == old(pos) + width
      ensures old(pos) + width > |data| ==> r == Err(EndOfStream) && pos == old(pos)
    {
      if pos + width > |data| {
        return Err(EndOfStream);
      }
      r := Ok(BE(data[pos..pos + width]));
      pos := pos + width;
    }

    /** `readInteger(endian: .big, as: UInt16.self)`, as format detection calls it. */
    method ReadU16BE() returns (r: Result<u16>)
      requires Valid()
      modifies this
      ensures Valid()
      ensures old(pos) + 2 <= |data| ==>
        r == Ok(BE(data[old(pos)..old(pos) + 2])) && pos == old(pos) + 2
      ensures old(pos) + 2 > |data| ==> r == Err(EndOfStream) && pos == old(pos)
    {
      Pow256Widths();
      var v :- ReadBE(2);
      return Ok(v);
    }

    /** `readInteger() as UInt32`, in IOModule's default byte order, taken to be big-endian. */
    method ReadU32BE() returns (r: Result<u32>)
      requires Valid()
      modifies this
      ensures Valid()
      ensures old(pos) + 4 <= |data| ==>
        r == Ok(BE(data[old(pos)..old(pos) + 4])) && pos == old(pos) + 4
      ensures old(pos) + 4 > |data| ==> r == Err(EndOfStream) && pos == old(pos)
    {
      Pow256Widths();
      var v :- ReadBE(4);
      return Ok(v);
    }

    /** `readInteger(endian: .big, as: UInt64.self)`, as format detection calls it. */
    method ReadU64BE() returns (r: Result<u64>)
      requires Valid()
      modifies this
      ensures Valid()
      ensures old(pos) + 8 <= |data| ==>
        r == Ok(BE(data[old(pos)..old(pos) + 8])) && pos == old(pos) + 8
      ensures old(pos) + 8 > |data| ==> r == Err(EndOfStream) && pos == old(pos)
    {
      Pow256Widths();
      var v :- ReadBE(8);
      return Ok(v);
    }

    /** `skip(n)`: move the cursor by n, which may be negative; a target
        outside the stream fails and leaves the cursor where it was. */
    method Skip(n: int) returns (r: Status)
      requires Valid()
      modifies this
      ensures Valid()
      ensures 0 <= old(pos) + n <= |data| ==> r == Done && pos == old(pos) + n
      ensures !(0 <= old(pos) + n <= |data|) ==> r == Failed(EndOfStream) && pos == old(pos)
    {
      if !(0 <= pos + n <= |data|) {
        return Failed(EndOfStream);
      }
      pos := pos + n;
      r := Done;
    }

    /** `seek(toOffset:from: .start)` */
    method Seek(offset: nat) returns (r: Status)
      requires Valid()
      modifies this
      ensures Valid()
      ensures offset <= |data| ==> r == Done && pos == offset
      ensures offset > |data| ==> r == Failed(EndOfStream) && pos == old(pos)
    {
      if offset > |data| {
        return Failed(EndOfStream);
      }
      pos := offset;
      r := Done;
    }
  }
}
