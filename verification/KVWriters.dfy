/** The in-place key/value printer (pkg/encoding/kvwriter.go). */
module KVWriters {
  import opened Common
  import opened Varints
  import opened Encoding
  import opened KeyValue

  /** Writes into the slice data[base..]; off bytes of it are used. */
  class KVWriter {
    const data: array<byte>
    const base: nat
    var off: nat

    ghost predicate Valid()
      reads this
    {
      base + off <= data.Length
    }

    constructor (buf: array<byte>, base: nat, off: nat)
      requires base + off <= buf.Length
      ensures Valid() && data == buf && this.base == base && this.off == off
    {
      data, this.base, this.off := buf, base, off;
    }

    function Bytes(): bytes
      requires Valid()
      reads this, data
    {
      data[base..base + off]
    }

    /** The array up to the write position: what lies before the slice, then Bytes(). */
    ghost function Written(): bytes
      requires Valid()
      reads this, data
    {
      data[..base + off]
    }

    /**
     * The effect of a call that found `before` written: it succeeds exactly when
     * piece fits, and then it has appended exactly piece.
     */
    ghost predicate Appended(ok: bool, before: bytes, piece: bytes)
      reads this, data
    {
      && Valid()
      && base <= |before|
      && data[..base] == before[..base]
      && (ok <==> |before| + |piece| <= data.Length)
      && (ok ==> Written() == before + piece)
    }

    method WriteKey(name: bytes) returns (r: Outcome<()>)
      requires Valid() && GoLength(name)
      modifies this`off, data
      ensures Appended(r.Ok?, old(Written()), EncBytes(name))
    {
      r := WriteBytes(name);
    }

    /** PutBytes at the current offset. */
    method WriteBytes(v: bytes) returns (r: Outcome<()>)
      requires Valid() && GoLength(v)
      modifies this`off, data
      ensures Appended(r.Ok?, old(Written()), EncBytes(v))
    {
      hide Enc, EncBytes;
      var n := PutBytes(data, base + off, v);
      if n.IsFailure() {
        assert data[..base] == data[..base + off][..base];
        return n.PropagateFailure();
      }
      off := off + n.value;
      assert data[..base] == data[..base + off][..base];
      return Ok(());
    }

    /** Indexing the slice at off: a panic when it is full. */
    method WriteByte(x: byte) returns (r: Outcome<()>)
      requires Valid()
      modifies this`off, data
      ensures Appended(r.Ok?, old(Written()), [x])
    {
      if base + off == data.Length {
        return Panic;
      }
      data[base + off] := x;
      off := off + 1;
      return Ok(());
    }

    method WriteVarint(v: u64) returns (r: Outcome<()>)
      requires Valid()
      modifies this`off, data
      ensures Appended(r.Ok?, old(Written()), Enc(v))
    {
      hide Enc, EncBytes;
      var n := PutVarint(data, base + off, v);
      if n.IsFailure() {
        assert data[..base] == data[..base + off][..base];
        return n.PropagateFailure();
      }
      off := off + n.value;
      assert data[..base] == data[..base + off][..base];
      return Ok(());
    }

    method SetString(name: bytes, v: bytes) returns (r: Outcome<()>)
      requires Valid() && GoLength(name) && GoLength(v)
      modifies this`off, data
      ensures Appended(r.Ok?, old(Written()), Pair(name, String(v)).Encode())
    {
      hide Enc, EncBytes;
      r := WriteKey(name);
      if r.Ok? {
        r := WriteByte(TYPE_STRING);
        if r.Ok? {
          r := WriteBytes(v);
        }
      }
    }

    method SetBinary(name: bytes, v: bytes) returns (r: Outcome<()>)
      requires Valid() && GoLength(name) && GoLength(v)
      modifies this`off, data
      ensures Appended(r.Ok?, old(Written()), Pair(name, Binary(v)).Encode())
    {
      hide Enc, EncBytes;
      r := WriteKey(name);
      if r.Ok? {
        r := WriteByte(TYPE_BINARY);
        if r.Ok? {
          r := WriteBytes(v);
        }
      }
    }

    method SetNull(name: bytes) returns (r: Outcome<()>)
      requires Valid() && GoLength(name)
      modifies this`off, data
      ensures Appended(r.Ok?, old(Written()), Pair(name, Null).Encode())
    {
      hide Enc, EncBytes;
      r := WriteKey(name);
      if r.Ok? {
        r := WriteByte(TYPE_NULL);
      }
    }

    method SetBool(name: bytes, v: bool) returns (r: Outcome<()>)
      requires Valid() && GoLength(name)
      modifies this`off, data
      ensures Appended(r.Ok?, old(Written()), Pair(name, Bool(v)).Encode())
    {
      hide Enc, EncBytes;
      r := WriteKey(name);
      if r.Ok? {
        r := WriteByte(TYPE_BOOL);
        if r.Ok? && v {
          data[base + off - 1] := SetBit(data[base + off - 1], FLAG_TRUE);
        }
      }
    }

    method SetInt(name: bytes, d: byte, v: i64) returns (r: Outcome<()>)
      requires Valid() && GoLength(name)
      modifies this`off, data
      ensures Appended(r.Ok?, old(Written()), EncBytes(name) + [d] + Enc(ToU64(v)))
    {
      hide Enc, EncBytes;
      r := WriteKey(name);
      if r.Ok? {
        r := WriteByte(d);
        if r.Ok? {
          r := WriteVarint(ToU64(v));
        }
      }
    }

    method SetUInt32(name: bytes, v: u32) returns (r: Outcome<()>)
      requires Valid() && GoLength(name)
      modifies this`off, data
      ensures Appended(r.Ok?, old(Written()), Pair(name, UInt32(v)).Encode())
    {
      hide Enc, EncBytes;
      r := SetInt(name, TYPE_UINT32, v);
    }

    method SetInt32(name: bytes, v: i32) returns (r: Outcome<()>)
      requires Valid() && GoLength(name)
      modifies this`off, data
      ensures Appended(r.Ok?, old(Written()), Pair(name, Int32(v)).Encode())
    {
      hide Enc, EncBytes;
      r := SetInt(name, TYPE_INT32, v);
    }

    method SetInt64(name: bytes, v: i64) returns (r: Outcome<()>)
      requires Valid() && GoLength(name)
      modifies this`off, data
      ensures Appended(r.Ok?, old(Written()), Pair(name, Int64(v)).Encode())
    {
      hide Enc, EncBytes;
      r := SetInt(name, TYPE_INT64, v);
    }

    method SetUInt64(name: bytes, v: u64) returns (r: Outcome<()>)
      requires Valid() && GoLength(name)
      modifies this`off, data
      ensures Appended(r.Ok?, old(Written()), Pair(name, UInt64(v)).Encode())
    {
      hide Enc, EncBytes;
      IntegersSurvive(0, 0, 0, v);
      r := SetInt(name, TYPE_UINT64, ToI64(v));
    }

    /** An invalid address is refused after its name has already been written. */
    method SetAddr(name: bytes, v: Addr) returns (r: Outcome<()>)
      requires Valid() && GoLength(name)
      modifies this`off, data
      ensures v.Addr4? ==> Appended(r.Ok?, old(Written()), Pair(name, IPv4(v.v4)).Encode())
      ensures v.Addr6? ==> Appended(r.Ok?, old(Written()), Pair(name, IPv6(v.v6)).Encode())
      ensures v.NoAddr? ==> !r.Ok? && Valid()
      ensures v.NoAddr? && |EncBytes(name)| <= data.Length - old(base + off) ==> Written() == old(Written()) + EncBytes(name)
    {
      hide Enc, EncBytes;
      r := WriteKey(name);
      if !r.Ok? {
        return;
      }
      if v.NoAddr? {
        return Error;
      }
      r := WriteByte(if v.Addr6? then TYPE_IPV6 else TYPE_IPV4);
      if r.Ok? {
        r := WriteAddr(v);
      }
    }

    method WriteAddr(v: Addr) returns (r: Outcome<()>)
      requires Valid()
      modifies this`off, data
      ensures Appended(r.Ok?, old(Written()), v.AsSlice())
    {
      var n := PutAddr(data, base + off, v);
      if n.IsFailure() {
        assert data[..base] == data[..base + off][..base];
        return n.PropagateFailure();
      }
      off := off + n.value;
      assert data[..base] == data[..base + off][..base];
      return Ok(());
    }

    /** The setter a caller picks for a typed value. */
    method Set(p: Pair) returns (r: Outcome<()>)
      requires Valid() && p.Valid()
      modifies this`off, data
      ensures Appended(r.Ok?, old(Written()), p.Encode())
    {
      hide Enc, EncBytes, Pair.Encode;
      match p.value {
        case Null => r := SetNull(p.name);
        case Bool(v) => r := SetBool(p.name, v);
        case Int32(v) => r := SetInt32(p.name, v);
        case UInt32(v) => r := SetUInt32(p.name, v);
        case Int64(v) => r := SetInt64(p.name, v);
        case UInt64(v) => r := SetUInt64(p.name, v);
        case IPv4(v) => r := SetAddr(p.name, Addr4(v));
        case IPv6(v) => r := SetAddr(p.name, Addr6(v));
        case String(v) => r := SetString(p.name, v);
        case Binary(v) => r := SetBinary(p.name, v);
      }
    }

    /** Any sequence of setter calls: all succeed exactly when the whole list fits. */
    method SetAll(ps: seq<Pair>) returns (r: Outcome<()>)
      requires Valid() && AllValid(ps)
      modifies this`off, data
      ensures Appended(r.Ok?, old(Written()), EncodePairs(ps))
      ensures r.Ok? ==> Bytes() == old(Bytes()) + EncodePairs(ps)
    {
      hide EncodePairs, Pair.Encode;
      r := Ok(());
      assert EncodePairs(ps[..0]) == [] by {
        EmptyPairs();
      }
      for i := 0 to |ps|
        invariant r.Ok? && Valid() && Written() == old(Written()) + EncodePairs(ps[..i])
      {
        PairsSplit(ps, i);
        r := Set(ps[i]);
        if !r.Ok? {
          return;
        }
      }
      assert ps[..|ps|] == ps;
      assert Bytes() == Written()[base..];
    }
  }
}
