/** A byte buffer with a read and a write position (pkg/buffer/slicebuf.go). */
module SliceBuffers {
  import opened Common

  class SliceBuffer {
    var buf: array<byte>
    var readOffset: nat
    var writeOffset: nat

    ghost predicate Valid()
      reads this
    {
      readOffset <= buf.Length && writeOffset <= buf.Length
    }

    constructor (size: nat)
      ensures Valid() && fresh(buf) && buf.Length == size && readOffset == writeOffset == 0
    {
      buf := new byte[size](_ => 0);
      readOffset, writeOffset := 0, 0;
    }

    /** The bytes written and not yet read. */
    ghost function Unread(): bytes
      requires Valid() && readOffset <= writeOffset
      reads this, buf
    {
      buf[readOffset..writeOffset]
    }

    method Reset()
      modifies this`readOffset, this`writeOffset
      ensures readOffset == writeOffset == 0
    {
      readOffset, writeOffset := 0, 0;
    }

    /** A slice from the read to the write position: a panic when reading has overtaken writing. */
    method ReadBytes() returns (r: Outcome<bytes>)
      requires Valid()
      ensures r == if readOffset <= writeOffset then Ok(Unread()) else Panic
    {
      if readOffset > writeOffset {
        return Panic;
      }
      return Ok(buf[readOffset..writeOffset]);
    }

    /** Makes room for n more bytes and keeps those written. */
    method Grow(n: nat)
      requires Valid() && readOffset <= writeOffset
      modifies this`buf
      ensures Valid() && writeOffset + n <= buf.Length && buf.Length >= old(buf.Length)
      ensures Unread() == old(Unread())
      ensures buf == old(buf) || fresh(buf)
    {
      if n <= buf.Length - writeOffset {
        return;
      }
      var grown := new byte[writeOffset + n](_ => 0);
      var copied := Copy(grown, 0, buf[..writeOffset]);
      assert grown[..writeOffset] == buf[..writeOffset];
      assert grown[..writeOffset][readOffset..] == grown[readOffset..writeOffset];
      assert buf[..writeOffset][readOffset..] == buf[readOffset..writeOffset];
      buf := grown;
    }

    method AdvanceR(n: nat)
      requires Valid() && readOffset + n <= buf.Length
      modifies this`readOffset
      ensures Valid() && readOffset == old(readOffset) + n
    {
      readOffset := readOffset + n;
    }

    method AdvanceW(n: nat)
      requires Valid() && writeOffset + n <= buf.Length
      modifies this`writeOffset
      ensures Valid() && writeOffset == old(writeOffset) + n
    {
      writeOffset := writeOffset + n;
    }

    /** Reserves n bytes; the caller fills the region that starts at the result. */
    method WriteNBytes(n: nat) returns (start: nat)
      requires Valid() && writeOffset + n <= buf.Length
      modifies this`writeOffset
      ensures Valid() && writeOffset == old(writeOffset) + n && start == old(writeOffset)
    {
      writeOffset := writeOffset + n;
      return writeOffset - n;
    }

    /** The next n bytes of the array, whether or not they have been written. */
    method ReadNBytes(n: nat) returns (b: bytes)
      requires Valid() && readOffset + n <= buf.Length
      modifies this`readOffset
      ensures Valid() && readOffset == old(readOffset) + n && b == buf[old(readOffset)..readOffset]
    {
      readOffset := readOffset + n;
      return buf[readOffset - n..readOffset];
    }

    function Len(): int
      reads this
    {
      writeOffset - readOffset
    }
  }
}
