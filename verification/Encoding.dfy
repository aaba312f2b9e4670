/** Length-prefixed bytes, addresses and the SPOE typed-data bytes (pkg/encoding/encoding.go). */
module Encoding {
  import opened Common
  import opened Varints

  const TYPE_NULL: byte := 0
  const TYPE_BOOL: byte := 1
  const TYPE_INT32: byte := 2
  const TYPE_UINT32: byte := 3
  const TYPE_INT64: byte := 4
  const TYPE_UINT64: byte := 5
  const TYPE_IPV4: byte := 6
  const TYPE_IPV6: byte := 7
  const TYPE_STRING: byte := 8
  const TYPE_BINARY: byte := 9
  const TYPE_MASK: byte := 0x0F
  const FLAG_TRUE: byte := 0x10

  type ip4 = s: bytes | |s| == 4 witness [0, 0, 0, 0]
  type ip6 = s: bytes | |s| == 16 witness [0, 0, 0, 0, 0, 0, 0, 0, 0, 0, 0, 0, 0, 0, 0, 0]

  /** netip.Addr without zones; the zero Addr is neither v4 nor v6. */
  datatype Addr = NoAddr | Addr4(v4: ip4) | Addr6(v6: ip6) {
    function AsSlice(): bytes {
      match this
      case NoAddr => []
      case Addr4(s) => s
      case Addr6(s) => s
    }
  }

  /** No Go slice is longer than this on a 64-bit Linux; make panics beyond it. */
  const MAX_ALLOC: nat := 0x1_0000_0000_0000

  predicate GoLength(s: bytes) {
    |s| <= MAX_ALLOC
  }

  function EncBytes(s: bytes): (r: bytes)
    ensures |r| > |s|
  {
    Enc(ToU64(|s|)) + s
  }

  /** The inverse of EncBytes: the string and the bytes used; Panic when the slice is out of range. */
  function DecBytes(b: bytes): (r: Outcome<(bytes, nat)>)
    ensures r.Ok? ==> 1 <= r.value.1 <= |b| && r.value.1 == |b| - |b[r.value.1..]|
  {
    match Dec(b)
    case Ok((l, n)) => if l > |b[n..]| then Panic else Ok((b[n..][..l], n + l))
    case _ => Error
  }

  lemma EncBytesParts(s: bytes)
    requires GoLength(s)
    ensures EncBytes(s) == Enc(|s|) + s
  {
  }

  lemma BytesRoundTrip(s: bytes, rest: bytes)
    requires GoLength(s)
    ensures DecBytes(EncBytes(s) + rest) == Ok((s, |EncBytes(s)|))
    ensures (EncBytes(s) + rest)[|EncBytes(s)|..] == rest
  {
    hide Enc, Dec;
    var e := Enc(|s|);
    assert EncBytes(s) + rest == e + (s + rest);
    RoundTrip(|s|, s + rest);
    DropPrefix(e, s + rest);
    DropPrefix(s, rest);
  }

  /** PutBytes: length prefix and content, exactly when both fit in b[off..]. */
  method PutBytes(b: array<byte>, off: nat, v: bytes) returns (r: Outcome<nat>)
    requires off <= b.Length && GoLength(v)
    modifies b
    ensures r == if |EncBytes(v)| <= b.Length - off then Ok(|EncBytes(v)|) else Error
    ensures r.Ok? ==> b[..off + r.value] == old(b[..off]) + EncBytes(v)
    ensures b[..off] == old(b[..off])
  {
    hide Enc;
    var l := |v|;
    var n :- PutVarint(b, off, l);
    if l + n > b.Length - off {
      return Error;
    }
    var copied := Copy(b, off + n, v);
    assert v[..copied] == v;
    assert b[..off] == b[..off + n][..off];
    return Ok(n + l);
  }

  /** Decodes a length at the front of b and slices that many bytes off: the bytes and the rest. */
  method TakeBytes(b: bytes) returns (r: Outcome<(bytes, bytes)>)
    ensures match DecBytes(b)
            case Ok((s, n)) => r == Ok((s, b[n..]))
            case Error => r == Error
            case Panic => r == Panic
  {
    hide Dec;
    var d :- Varint(b);
    var (l, n) := d;
    if l > |b| - n {
      return Panic;
    }
    assert b[n..][l..] == b[n + l..];
    return Ok((b[n..][..l], b[n..][l..]));
  }

  /** PutAddr: the raw address bytes, exactly when they fit. */
  method PutAddr(b: array<byte>, off: nat, ip: Addr) returns (r: Outcome<nat>)
    requires off <= b.Length
    modifies b
    ensures r == if |ip.AsSlice()| <= b.Length - off then Ok(|ip.AsSlice()|) else Error
    ensures r.Ok? ==> b[..off + r.value] == old(b[..off]) + ip.AsSlice()
    ensures b[..off] == old(b[..off])
  {
    var s := ip.AsSlice();
    if b.Length - off < |s| {
      return Error;
    }
    var copied := Copy(b, off, s);
    assert s[..copied] == s;
    return Ok(|s|);
  }
}
