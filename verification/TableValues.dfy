/** Stick-table keys and data values, and the tables of their kinds (peers/sticktable/constants.go, values.go). */
module TableValues {
  import opened Common
  import opened Varints
  import opened Encoding

  // ---------- schema ----------

  datatype KeyKind = KInt | KIPv4 | KIPv6 | KString | KBinary

  /** KeyType.New: any other number panics. */
  function KeyKindOf(keyType: int): Option<KeyKind> {
    match keyType
    case 2 => Some(KInt)
    case 4 => Some(KIPv4)
    case 5 => Some(KIPv6)
    case 6 => Some(KString)
    case 7 => Some(KBinary)
    case _ => None
  }

  /** The number of a key kind, as HAProxy has it. */
  function KeyTypeOf(k: KeyKind): int {
    match k
    case KInt => 2
    case KIPv4 => 4
    case KIPv6 => 5
    case KString => 6
    case KBinary => 7
  }

  /** Each kind has one number, and all other numbers, booleans and plain addresses among them, have none. */
  lemma KeyTypesInverse(t: int)
    ensures forall k: KeyKind :: KeyKindOf(t) == Some(k) <==> t == KeyTypeOf(k)
    ensures KeyKindOf(t).None? <==> t < 2 || t == 3 || t > 7
  {
  }

  datatype DataKind = DSigned | DUnsigned | DLong | DFreq | DDict

  /** DataType.New: nil for a number without a kind. */
  function DataKindOf(dataType: nat): (k: Option<DataKind>)
    ensures k.Some? <==> dataType <= 26
  {
    if dataType == 0 then Some(DSigned)
    else if dataType in {1, 2, 4, 6, 7, 9, 11, 17, 20, 25} then Some(DUnsigned)
    else if dataType in {13, 15} then Some(DLong)
    else if dataType in {3, 5, 8, 10, 12, 14, 16, 18, 21, 26} then Some(DFreq)
    else if dataType in {19, 22, 23, 24} then Some(DDict)
    else None
  }

  /** The types whose definition carries a counter and a period. */
  predicate IsDelay(dataType: nat) {
    dataType in {3, 5, 8, 10, 12, 14, 16, 18, 21}
  }

  /** Every kind of rate but one comes with a counter and a period in its definition. */
  lemma GlitchRateIsAlone(t: nat)
    ensures IsDelay(t) ==> DataKindOf(t) == Some(DFreq)
    ensures DataKindOf(t) == Some(DFreq) && !IsDelay(t) <==> t == 26
  {
  }

  /** One signed value, the server ID; two long ones, the byte counters; four dictionary ones, the server key and the arrays. */
  lemma OtherKinds(t: nat)
    ensures DataKindOf(t) == Some(DSigned) <==> t == 0
    ensures DataKindOf(t) == Some(DLong) <==> t == 13 || t == 15
    ensures DataKindOf(t) == Some(DDict) <==> t == 19 || 22 <= t <= 24
  {
  }

  // ---------- keys ----------

  /** The MapKey interface: NilKey is nil, ForeignIPv4Key an IPv4AddressKey that holds no IPv4 address. */
  datatype Key =
    | IntKey(v: i32)
    | IPv4Key(ip4: ip4)
    | IPv6Key(ip6: ip6)
    | StringKey(text: bytes)
    | BinaryKey(data: bytes)
    | ForeignIPv4Key
    | NilKey
  {
    function Kind(): Option<KeyKind> {
      match this
      case IntKey(_) => Some(KInt)
      case IPv4Key(_) => Some(KIPv4)
      case IPv6Key(_) => Some(KIPv6)
      case StringKey(_) => Some(KString)
      case BinaryKey(_) => Some(KBinary)
      case ForeignIPv4Key => Some(KIPv4)
      case NilKey => None
    }

    /** The wire form in a table with this key length. */
    function Encode(keySize: u64): Outcome<bytes> {
      match this
      case IntKey(v) => Ok(BE32(ToU32(v)))
      case IPv4Key(s) => if keySize != 4 then Error else Ok(s)
      case IPv6Key(s) => if keySize != 16 then Error else Ok(s)
      case StringKey(s) => Ok(EncBytes(s))
      case BinaryKey(s) => Ok(s[..Min(|s|, keySize)])
      case ForeignIPv4Key => if keySize != 4 then Error else Panic
      case NilKey => Panic
    }

    /** The key can be written in, and read back from, a table with this key length. */
    predicate Fits(keySize: u64) {
      match this
      case IntKey(_) => true
      case IPv4Key(_) => keySize == 4
      case IPv6Key(_) => keySize == 16
      case StringKey(_) => true
      case BinaryKey(s) => |s| == keySize
      case ForeignIPv4Key => false
      case NilKey => false
    }

    predicate Valid() {
      (StringKey? ==> GoLength(text)) && (BinaryKey? ==> GoLength(data))
    }

    /** What Marshal returns with room bytes left: the text of a string key is cut to fit, a short address buffer goes unnoticed. */
    function MarshalResult(keySize: u64, room: nat): Outcome<nat> {
      match this
      case IntKey(_) => if room < 4 then Panic else Ok(4)
      case IPv4Key(_) => if keySize != 4 then Error else Ok(4)
      case IPv6Key(_) => if keySize != 16 then Error else Ok(16)
      case StringKey(s) =>
        var n := |Enc(ToU64(|s|))|;
        if n > room then Error else Ok(n + Min(|s|, room - n))
      case BinaryKey(s) => if keySize > room then Panic else Ok(Min(|s|, keySize))
      case ForeignIPv4Key => if keySize != 4 then Error else Panic
      case NilKey => Panic
    }
  }

  /** Unmarshal of a key: the key and the unread rest. */
  function ParseKey(kind: KeyKind, keySize: u64, b: bytes): Outcome<(Key, bytes)> {
    match kind
    case KInt => if |b| < 4 then Panic else Ok((IntKey(ToI32(FromBE32(b))), b[4..]))
    case KIPv4 => if keySize != 4 then Error else if |b| < 4 then Panic else Ok((IPv4Key(b[..4]), b[4..]))
    case KIPv6 => if keySize != 16 then Error else if |b| < 16 then Panic else Ok((IPv6Key(b[..16]), b[16..]))
    case KString =>
      var (s, n) :- DecBytes(b);
      Ok((StringKey(s), b[n..]))
    case KBinary => if keySize > |b| then Panic else Ok((BinaryKey(b[..keySize]), b[keySize..]))
  }

  lemma IntegerKeySurvives(v: i32)
    ensures ToI32(ToU32(v)) == v
  {
  }

  /** A key survives the wire exactly when it fits the table's key length, whatever follows it. */
  lemma KeyRoundTripIff(k: Key, keySize: u64, rest: bytes)
    requires k.Valid()
    ensures k.Fits(keySize) <==>
              && k.Kind().Some? && k.Encode(keySize).Ok?
              && ParseKey(k.Kind().value, keySize, k.Encode(keySize).value + rest) == Ok((k, rest))
  {
    hide Enc, Dec, EncBytes, DecBytes, BE32, FromBE32, ToU32, ToI32;
    if k.Encode(keySize).Ok? {
      var e := k.Encode(keySize).value;
      DropPrefix(e, rest);
      match k
      case IntKey(v) =>
        BE32RoundTrip(ToU32(v), rest);
        IntegerKeySurvives(v);
      case StringKey(s) => BytesRoundTrip(s, rest);
      case BinaryKey(s) =>
        assert |s| == keySize ==> e == s;
        assert |s| > keySize ==> (e + rest)[..keySize] == e;
      case _ =>
    }
  }

  method MarshalKey(k: Key, b: array<byte>, off: nat, keySize: u64) returns (r: Outcome<nat>)
    requires off <= b.Length && k.Valid()
    modifies b
    ensures r == k.MarshalResult(keySize, b.Length - off)
    ensures b[..off] == old(b[..off])
    ensures r.Ok? && r.value <= b.Length - off ==>
              var e := k.Encode(keySize);
              e.Ok? && r.value <= |e.value| && b[..off + r.value] == old(b[..off]) + e.value[..r.value]
  {
    hide Enc, EncBytes, BE32;
    match k {
      case IntKey(v) =>
        if b.Length - off < 4 {
          return Panic;
        }
        PutUint32(b, off, ToU32(v));
        assert b[..off] == b[..off + 4][..off];
        return Ok(4);
      case IPv4Key(s) =>
        if keySize != 4 {
          return Error;
        }
        var n := Copy(b, off, s);
        assert b[..off] == b[..off + n][..off];
        return Ok(4);
      case IPv6Key(s) =>
        if keySize != 16 {
          return Error;
        }
        var n := Copy(b, off, s);
        assert b[..off] == b[..off + n][..off];
        return Ok(16);
      case StringKey(s) =>
        r := MarshalStringKey(s, b, off);
      case BinaryKey(s) =>
        if keySize > b.Length - off {
          return Panic;
        }
        var c := Copy(b, off, s[..Min(|s|, keySize)]);
        assert b[..off] == b[..off + c][..off];
        return Ok(c);
      case ForeignIPv4Key =>
        return if keySize != 4 then Error else Panic;
      case NilKey =>
        return Panic;
    }
  }

  method MarshalStringKey(s: bytes, b: array<byte>, off: nat) returns (r: Outcome<nat>)
    requires off <= b.Length && GoLength(s)
    modifies b
    ensures r == if |Enc(|s|)| > b.Length - off then Error else Ok(|Enc(|s|)| + Min(|s|, b.Length - off - |Enc(|s|)|))
    ensures b[..off] == old(b[..off])
    ensures r.Ok? ==> r.value <= |EncBytes(s)| && b[..off + r.value] == old(b[..off]) + EncBytes(s)[..r.value]
  {
    hide Enc, EncBytes;
    ghost var prefix := b[..off];
    var n :- PutVarint(b, off, |s|);
    var c := Copy(b, off + n, s);
    EncBytesParts(s);
    assert EncBytes(s)[..n + c] == Enc(|s|) + s[..c];
    assert b[..off + n + c] == prefix + (Enc(|s|) + s[..c]);
    assert b[..off] == b[..off + n + c][..off];
    return Ok(n + c);
  }

  method UnmarshalKey(kind: KeyKind, b: bytes, keySize: u64) returns (r: Outcome<(Key, nat)>)
    ensures match ParseKey(kind, keySize, b)
            case Ok((k, rest)) => r.Ok? && r.value.0 == k && r.value.1 <= |b| && b[r.value.1..] == rest
            case Error => r == Error
            case Panic => r == Panic
  {
    hide Dec, FromBE32, ToI32;
    match kind {
      case KInt =>
        if |b| < 4 {
          return Panic;
        }
        return Ok((IntKey(ToI32(FromBE32(b))), 4));
      case KIPv4 =>
        if keySize != 4 {
          return Error;
        }
        if |b| < 4 {
          return Panic;
        }
        return Ok((IPv4Key(b[..4]), 4));
      case KIPv6 =>
        if keySize != 16 {
          return Error;
        }
        if |b| < 16 {
          return Panic;
        }
        return Ok((IPv6Key(b[..16]), 16));
      case KString =>
        var d :- Varint(b);
        var (valueLength, n) := d;
        if valueLength == 0 {
          assert b[n..][..0] == [];
          return Ok((StringKey([]), n));
        }
        if valueLength > |b| - n {
          return Panic;
        }
        assert b[n..][..valueLength] == b[n..n + valueLength];
        return Ok((StringKey(b[n..n + valueLength]), n + valueLength));
      case KBinary =>
        if keySize > |b| {
          return Panic;
        }
        return Ok((BinaryKey(b[..keySize]), keySize));
    }
  }

  // ---------- data ----------

  datatype Data =
    | SignedData(s: i32)
    | UnsignedData(u: u32)
    | LongData(l: u64)
    | FreqData(tick: u64, current: u64, last: u64)
    | DictData(value: bytes, id: u64)
  {
    function Kind(): DataKind {
      match this
      case SignedData(_) => DSigned
      case UnsignedData(_) => DUnsigned
      case LongData(_) => DLong
      case FreqData(_, _, _) => DFreq
      case DictData(_, _) => DDict
    }

    predicate Valid() {
      DictData? ==> GoLength(value)
    }

    /** Everything but a dictionary value's own bytes. */
    function Numbers(): bytes {
      match this
      case SignedData(v) => Enc(ToU64(v))
      case UnsignedData(v) => Enc(v)
      case LongData(v) => Enc(v)
      case FreqData(t, c, l) => Enc(t) + Enc(c) + Enc(l)
      case DictData(s, i) =>
        var n := Enc(ToU64(|s|));
        n + Enc(i) + if s == [] then [] else n
    }

    function Encode(): bytes {
      Numbers() + if DictData? then value else []
    }

    /** The values a reader gets back: a dictionary value needs two bytes. */
    predicate Readable() {
      DictData? ==> |value| >= 2
    }
  }

  /** Unmarshal of a data value: the value and the unread rest. A dictionary value that is cut short is padded with zeros. */
  function ParseData(kind: DataKind, b: bytes): Outcome<(Data, bytes)> {
    match kind
    case DSigned =>
      var (v, rest) :- ParseNumber(b, false);
      Ok((SignedData(ToI32(v)), rest))
    case DUnsigned =>
      var (v, rest) :- ParseNumber(b, false);
      Ok((UnsignedData(ToU32(v)), rest))
    case DLong =>
      var (v, rest) :- ParseNumber(b, false);
      Ok((LongData(v), rest))
    case DFreq =>
      var (ns, rest) :- ParseNumbers(b, 3, false);
      Ok((FreqData(ns[0], ns[1], ns[2]), rest))
    case DDict => ParseDict(b)
  }

  function ParseDict(b: bytes): Outcome<(Data, bytes)> {
    var (length, b1) :- ParseNumber(b, false);
    if length == 0 then Ok((DictData([], 0), b1))
    else
      var (id, b2) :- ParseNumber(b1, false);
      if length == 1 then Ok((DictData([], id), b2))
      else
        var (valueLength, b3) :- ParseNumber(b2, false);
        if valueLength == 0 then Ok((DictData([], id), b3))
        else if valueLength > MAX_ALLOC then Panic
        else
          var (value, n) := ReadPadded(b3, valueLength);
          Ok((DictData(value, id), b3[n..]))
  }

  function Zeros(n: nat): (z: bytes)
    ensures |z| == n
  {
    seq(n, _ => 0)
  }

  lemma SignedSurvives(v: i32)
    ensures ToI32(ToU64(v)) == v
  {
  }

  /**
   * The other forms of a dictionary value that a peer may send: none at all for length 0, a
   * reference by its ID without its value for length 1, or an empty value.
   */
  lemma ShortDictionary(n: u64, id: u64, rest: bytes)
    ensures ParseDict(Enc(0) + rest) == Ok((DictData([], 0), rest))
    ensures ParseDict(Enc(1) + (Enc(id) + rest)) == Ok((DictData([], id), rest))
    ensures n >= 2 ==> ParseDict(Enc(n) + (Enc(id) + (Enc(0) + rest))) == Ok((DictData([], id), rest))
  {
    hide Enc, ParseNumber;
    NumberRoundTrip(0, rest, false);
    NumberRoundTrip(id, rest, false);
    NumberRoundTrip(1, Enc(id) + rest, false);
    NumberRoundTrip(id, Enc(0) + rest, false);
    NumberRoundTrip(n, Enc(id) + (Enc(0) + rest), false);
  }

  lemma DictRoundTripIff(s: bytes, id: u64, rest: bytes)
    requires GoLength(s)
    ensures ParseDict(DictData(s, id).Encode() + rest) == Ok((DictData(s, id), rest)) <==> |s| >= 2
  {
    hide Enc, ParseNumber, ParseDict;
    var n, i := Enc(|s|), Enc(id);
    var b := DictData(s, id).Encode() + rest;
    if s == [] {
      assert b == n + (i + rest);
      ShortDictionary(0, id, i + rest);
      assert |i + rest| > |rest|;
    } else {
      var tail := n + (s + rest);
      assert b == n + (i + tail);
      if |s| == 1 {
        ShortDictionary(0, id, tail);
        assert |tail| > |rest|;
      } else {
        WholeDictionary(s, id, rest);
      }
    }
  }

  lemma WholeDictionary(s: bytes, id: u64, rest: bytes)
    requires GoLength(s) && |s| >= 2
    ensures ParseDict(Enc(|s|) + (Enc(id) + (Enc(|s|) + (s + rest)))) == Ok((DictData(s, id), rest))
  {
    hide Enc, ParseNumber;
    var tail := Enc(|s|) + (s + rest);
    NumberRoundTrip(|s|, Enc(id) + tail, false);
    NumberRoundTrip(id, tail, false);
    NumberRoundTrip(|s|, s + rest, false);
    DropPrefix(s, rest);
  }

  /**
   * A value of the announced length, whatever the first number says, is taken from the input;
   * where the input ends before it, the bytes that are missing read as zero.
   */
  lemma PaddedDictionary(n: u64, id: u64, length: u64, s: bytes, i: nat)
    requires n >= 2 && 0 < length <= MAX_ALLOC
    ensures match ParseDict(Enc(n) + (Enc(id) + (Enc(length) + s)))
            case Ok((d, rest)) =>
              && d.DictData? && d.id == id && |d.value| == length
              && (i < length ==> d.value[i] == if i < |s| then s[i] else 0)
              && rest == if |s| <= length then [] else s[length..]
            case _ => false
  {
    hide Enc, ParseNumber;
    NumberRoundTrip(length, s, false);
    NumberRoundTrip(id, Enc(length) + s, false);
    NumberRoundTrip(n, Enc(id) + (Enc(length) + s), false);
  }

  /** A 32-bit value keeps the number on the wire modulo 2^32, whatever a peer sends. */
  lemma NumbersTruncate(x: u64, rest: bytes)
    ensures match ParseData(DSigned, Enc(x) + rest)
            case Ok((d, left)) => d.SignedData? && (d.s - x) % TWO_32 == 0 && left == rest
            case _ => false
    ensures match ParseData(DUnsigned, Enc(x) + rest)
            case Ok((d, left)) => d.UnsignedData? && (d.u - x) % TWO_32 == 0 && left == rest
            case _ => false
  {
    hide Enc, ParseNumber;
    NumberRoundTrip(x, rest, false);
  }

  /** A data value survives the wire exactly when it is not a dictionary entry of fewer than two bytes. */
  lemma DataRoundTripIff(d: Data, rest: bytes)
    requires d.Valid()
    ensures ParseData(d.Kind(), d.Encode() + rest) == Ok((d, rest)) <==> d.Readable()
  {
    hide Enc, ParseNumber, ParseNumbers, ParseDict, EncAll;
    match d
    case SignedData(v) =>
      NumberRoundTrip(ToU64(v), rest, false);
      SignedSurvives(v);
      assert d.Encode() == Enc(ToU64(v));
    case UnsignedData(v) =>
      NumberRoundTrip(v, rest, false);
      assert d.Encode() == Enc(v) && ToU32(v) == v;
    case LongData(v) =>
      NumberRoundTrip(v, rest, false);
      assert d.Encode() == Enc(v);
    case FreqData(t, c, l) =>
      EncAllThree(t, c, l);
      NumbersRoundTrip([t, c, l], rest, false);
      assert d.Encode() == EncAll([t, c, l]);
    case DictData(s, i) => DictRoundTripIff(s, i, rest);
  }

  /** Numbers are refused when they do not fit; a dictionary value is cut silently and still counted in full. */
  method MarshalData(d: Data, b: array<byte>, off: nat) returns (r: Outcome<nat>)
    requires off <= b.Length && d.Valid()
    modifies b
    ensures r == if |d.Numbers()| <= b.Length - off then Ok(|d.Encode()|) else Error
    ensures b[..off] == old(b[..off])
    ensures r.Ok? && r.value <= b.Length - off ==> b[..off + r.value] == old(b[..off]) + d.Encode()
  {
    hide Enc, EncAll;
    match d {
      case SignedData(v) =>
        r := PutVarint(b, off, ToU64(v));
      case UnsignedData(v) =>
        r := PutVarint(b, off, v);
      case LongData(v) =>
        r := PutVarint(b, off, v);
      case FreqData(t, c, l) =>
        EncAllThree(t, c, l);
        r := PutVarints(b, off, [t, c, l]);
      case DictData(s, i) =>
        r := MarshalDict(s, i, b, off);
    }
  }

  method MarshalDict(s: bytes, id: u64, b: array<byte>, off: nat) returns (r: Outcome<nat>)
    requires off <= b.Length && GoLength(s)
    modifies b
    ensures var d := DictData(s, id);
            && r == (if |d.Numbers()| <= b.Length - off then Ok(|d.Encode()|) else Error)
            && (r.Ok? && r.value <= b.Length - off ==> b[..off + r.value] == old(b[..off]) + d.Encode())
    ensures b[..off] == old(b[..off])
  {
    hide Enc, Data.Numbers, Data.Encode;
    DictParts(s, id);
    ghost var prefix := b[..off];
    var offset := off;
    var n :- PutVarint(b, offset, |s|);
    offset := offset + n;
    ghost var w1 := b[..offset];
    PrefixKept(w1, prefix, Enc(|s|));
    n :- PutVarint(b, offset, id);
    offset := offset + n;
    ghost var w2 := b[..offset];
    Extended(w1, w2, prefix, Enc(|s|), Enc(id));
    if |s| > 0 {
      n :- MarshalDictValue(s, b, offset);
      assert b[..off] == w2[..off];
      if offset + n <= b.Length {
        Extended(w2, b[..offset + n], prefix, Enc(|s|) + Enc(id), Enc(|s|) + s);
        assert Enc(|s|) + Enc(id) + (Enc(|s|) + s) == Enc(|s|) + Enc(id) + Enc(|s|) + s;
      }
      offset := offset + n;
    } else {
      assert Enc(|s|) + Enc(id) + s == Enc(|s|) + Enc(id);
    }
    return Ok(offset - off);
  }

  method MarshalDictValue(s: bytes, b: array<byte>, off: nat) returns (r: Outcome<nat>)
    requires off <= b.Length && GoLength(s)
    modifies b
    ensures r == if |Enc(|s|)| <= b.Length - off then Ok(|Enc(|s|)| + |s|) else Error
    ensures b[..off] == old(b[..off])
    ensures r.Ok? && r.value <= b.Length - off ==> b[..off + r.value] == old(b[..off]) + (Enc(|s|) + s)
  {
    hide Enc;
    ghost var prefix := b[..off];
    var n :- PutVarint(b, off, |s|);
    var copied := Copy(b, off + n, s);
    PrefixKept(b[..off + n + copied], prefix, Enc(|s|) + s[..copied]);
    assert copied == |s| ==> s[..copied] == s;
    return Ok(n + |s|);
  }

  /** What is before the write position stays while more is appended. */
  lemma PrefixKept(now: bytes, prefix: bytes, done: bytes)
    requires now == prefix + done
    ensures now[..|prefix|] == prefix
  {
  }

  lemma DictParts(s: bytes, id: u64)
    requires GoLength(s)
    ensures var d := DictData(s, id);
            && d.Numbers() == (if s == [] then Enc(|s|) + Enc(id) else Enc(|s|) + Enc(id) + Enc(|s|))
            && d.Encode() == d.Numbers() + s
  {
    hide Enc;
  }

  method UnmarshalData(kind: DataKind, b: bytes) returns (r: Outcome<(Data, nat)>)
    ensures match ParseData(kind, b)
            case Ok((d, rest)) => r.Ok? && r.value.0 == d && r.value.1 <= |b| && b[r.value.1..] == rest
            case Error => r == Error
            case Panic => r == Panic
  {
    hide Dec, ParseDict, ParseNumbers;
    match kind {
      case DSigned =>
        var v :- Varint(b);
        return Ok((SignedData(ToI32(v.0)), v.1));
      case DUnsigned =>
        var v :- Varint(b);
        return Ok((UnsignedData(ToU32(v.0)), v.1));
      case DLong =>
        var v :- Varint(b);
        return Ok((LongData(v.0), v.1));
      case DFreq =>
        assert b[0..] == b;
        var ns :- VarintsAt(b, 0, 3);
        return Ok((FreqData(ns.0[0], ns.0[1], ns.0[2]), ns.1));
      case DDict =>
        r := UnmarshalDict(b);
    }
  }

  method UnmarshalDict(b: bytes) returns (r: Outcome<(Data, nat)>)
    ensures match ParseDict(b)
            case Ok((d, rest)) => r.Ok? && r.value.0 == d && r.value.1 <= |b| && b[r.value.1..] == rest
            case Error => r == Error
            case Panic => r == Panic
  {
    hide ParseNumber, ReadPadded;
    assert b[0..] == b;
    var length :- VarintAt(b, 0);
    if length.0 == 0 {
      return Ok((DictData([], 0), length.1));
    }
    var id :- VarintAt(b, length.1);
    if length.0 == 1 {
      return Ok((DictData([], id.0), id.1));
    }
    var valueLength :- VarintAt(b, id.1);
    var offset := valueLength.1;
    if valueLength.0 == 0 {
      return Ok((DictData([], id.0), offset));
    }
    if valueLength.0 > MAX_ALLOC {
      return Panic;
    }
    var (value, n) := ReadPadded(b[offset..], valueLength.0);
    assert b[offset..][n..] == b[offset + n..];
    return Ok((DictData(value, id.0), offset + n));
  }

  /** make([]byte, size) followed by a copy: a short source leaves zeros at the end. */
  function ReadPadded(b: bytes, size: nat): (r: (bytes, nat))
    ensures r.1 == Min(size, |b|) && |r.0| == size
    ensures size <= |b| ==> r.0 == b[..size]
  {
    var n := Min(size, |b|);
    (b[..n] + Zeros(size - n), n)
  }
}
