/** The ends of a connection: unread input bytes and a buffered, flushable output. */
module Streams {
  import opened Common

  /** A bufio.Reader over a connection; data is the input not yet consumed. */
  class ByteReader {
    var data: bytes

    constructor (input: bytes)
      ensures data == input
    {
      data := input;
    }

    method ReadByte() returns (r: Outcome<byte>)
      modifies this
      ensures old(data) == [] ==> r == Error && data == []
      ensures old(data) != [] ==> r == Ok(old(data)[0]) && data == old(data)[1..]
    {
      if data == [] {
        return Error;
      }
      r := Ok(data[0]);
      data := data[1..];
    }

    /** io.ReadFull: n bytes, or an error after consuming what there was. */
    method ReadFull(n: nat) returns (r: Outcome<bytes>)
      modifies this
      ensures n <= |old(data)| ==> r == Ok(old(data)[..n]) && data == old(data)[n..]
      ensures n > |old(data)| ==> r == Error && data == []
    {
      if n > |data| {
        data := [];
        return Error;
      }
      r := Ok(data[..n]);
      data := data[n..];
    }
  }

  /** A bufio.Writer: bytes already on the connection and bytes still buffered. */
  class BufferedWriter {
    var flushed: bytes
    var pending: bytes
    const size: nat

    constructor (size: nat)
      ensures flushed == pending == [] && this.size == size
    {
      this.size := size;
      flushed, pending := [], [];
    }

    /** Everything written so far, in order. */
    ghost function Stream(): bytes
      reads this
    {
      flushed + pending
    }

    /** Appends p; when the buffer overflows, some of the stream moves to the connection. */
    method Write(p: bytes)
      modifies this
      ensures Stream() == old(Stream()) + p
      ensures old(flushed) <= flushed
    {
      if |pending| + |p| > size {
        flushed := flushed + pending + p;
        pending := [];
      } else {
        pending := pending + p;
      }
    }

    method Flush()
      modifies this
      ensures flushed == old(Stream()) && pending == []
    {
      flushed := flushed + pending;
      pending := [];
    }
  }
}
