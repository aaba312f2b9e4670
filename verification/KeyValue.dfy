/** SPOE typed key/value lists: their encoding and how the scanner reads them back. */
module KeyValue {
  import opened Common
  import opened Varints
  import opened Encoding

  datatype TypedValue =
    | Null
    | Bool(flag: bool)
    | Int32(i32: i32)
    | UInt32(u32: u32)
    | Int64(i64: i64)
    | UInt64(u64: u64)
    | IPv4(ip4: ip4)
    | IPv6(ip6: ip6)
    | String(text: bytes)
    | Binary(data: bytes)
  {
    predicate Valid() {
      (String? ==> GoLength(text)) && (Binary? ==> GoLength(data))
    }

    function Type(): (t: byte)
      ensures t <= TYPE_BINARY
    {
      match this
      case Null => TYPE_NULL
      case Bool(_) => TYPE_BOOL
      case Int32(_) => TYPE_INT32
      case UInt32(_) => TYPE_UINT32
      case Int64(_) => TYPE_INT64
      case UInt64(_) => TYPE_UINT64
      case IPv4(_) => TYPE_IPV4
      case IPv6(_) => TYPE_IPV6
      case String(_) => TYPE_STRING
      case Binary(_) => TYPE_BINARY
    }

    predicate Flag() {
      Bool? && flag
    }

    /** Type nibble and flag bit. */
    function TypeByte(): byte {
      if Flag() then Type() + FLAG_TRUE else Type()
    }

    /** What follows the type byte. */
    function Payload(): bytes {
      match this
      case Null => []
      case Bool(_) => []
      case Int32(v) => Enc(ToU64(v))
      case UInt32(v) => Enc(v)
      case Int64(v) => Enc(ToU64(v))
      case UInt64(v) => Enc(v)
      case IPv4(s) => s
      case IPv6(s) => s
      case String(s) => EncBytes(s)
      case Binary(s) => EncBytes(s)
    }

    function Encode(): bytes {
      [TypeByte()] + Payload()
    }
  }

  datatype Pair = Pair(name: bytes, value: TypedValue) {
    predicate Valid() {
      GoLength(name) && value.Valid()
    }

    function Encode(): (s: bytes)
      ensures s != []
    {
      EncBytes(name) + value.Encode()
    }
  }

  function EncodePairs(ps: seq<Pair>): bytes {
    if ps == [] then [] else ps[0].Encode() + EncodePairs(ps[1..])
  }

  lemma EmptyPairs()
    ensures EncodePairs([]) == []
  {
  }

  predicate AllValid(ps: seq<Pair>) {
    forall p <- ps :: p.Valid()
  }

  // ---------- scanning ----------

  /** The fields of a KVEntry after a scan step. */
  datatype Entry = Entry(name: bytes, dataType: byte, byteVal: bytes, intVal: i64, boolVar: bool) {
    predicate IsInteger() {
      TYPE_INT32 <= dataType <= TYPE_UINT64
    }

    /** KVEntry.Value: the typed value, by the type nibble. */
    function Value(): Outcome<TypedValue> {
      if dataType == TYPE_NULL then Ok(Null)
      else if dataType == TYPE_BOOL then Ok(Bool(boolVar))
      else if dataType == TYPE_INT32 then Ok(Int32(ToI32(intVal)))
      else if dataType == TYPE_INT64 then Ok(Int64(intVal))
      else if dataType == TYPE_UINT32 then Ok(UInt32(ToU32(intVal)))
      else if dataType == TYPE_UINT64 then Ok(UInt64(ToU64(intVal)))
      else if dataType == TYPE_IPV4 || dataType == TYPE_IPV6 then
        if |byteVal| == 4 then Ok(IPv4(byteVal))
        else if |byteVal| == 16 then Ok(IPv6(byteVal))
        else Panic
      else if dataType == TYPE_STRING then Ok(String(byteVal))
      else if dataType == TYPE_BINARY then Ok(Binary(byteVal))
      else Panic
    }
  }

  const EMPTY_ENTRY := Entry([], 0, [], 0, false)

  /** One scan step: an entry and the unread rest, a clean end, an error with what is left unread, or a panic. */
  datatype Step = Scanned(entry: Entry, rest: bytes) | Exhausted | Failed(left: bytes) | Crash

  function ScanStep(buf: bytes): (s: Step)
    ensures s.Scanned? ==> |s.rest| + 2 <= |buf| && s.rest == buf[|buf| - |s.rest|..]
    ensures s.Failed? ==> |s.left| <= |buf| && s.left == buf[|buf| - |s.left|..]
    ensures s.Exhausted? <==> buf == []
  {
    if buf == [] then Exhausted
    else
      match DecBytes(buf)
      case Error => Failed(buf)
      case Panic => Crash
      case Ok((name, n)) =>
        var b := buf[n..];
        if b == [] then Crash else ScanValue(name, b[0], b[1..])
  }

  function ScanValue(name: bytes, t: byte, b: bytes): (s: Step)
    ensures s.Scanned? ==> |s.rest| <= |b| && s.rest == b[|b| - |s.rest|..]
    ensures s.Failed? ==> |s.left| <= |b| && s.left == b[|b| - |s.left|..]
    ensures !s.Exhausted?
  {
    var e := Entry(name, t % 16, [], 0, t / 16 % 2 == 1);
    if e.dataType <= TYPE_BOOL then Scanned(e, b)
    else if e.dataType <= TYPE_UINT64 then
      match Dec(b)
      case Ok((v, n)) => Scanned(e.(intVal := ToI64(v)), b[n..])
      case _ => Failed(b)
    else if e.dataType == TYPE_IPV4 then
      if |b| < 4 then Crash else Scanned(e.(byteVal := b[..4]), b[4..])
    else if e.dataType == TYPE_IPV6 then
      if |b| < 16 then Crash else Scanned(e.(byteVal := b[..16]), b[16..])
    else if e.dataType <= TYPE_BINARY then
      match DecBytes(b)
      case Ok((s, n)) => Scanned(e.(byteVal := s), b[n..])
      case Error => Failed(b)
      case Panic => Crash
    else Failed(b)
  }

  /** All the entries a `for Next(e)` loop sees, and the step that ends it. */
  function ScanAll(buf: bytes): (r: (seq<Entry>, Step))
    ensures !r.1.Scanned?
    decreases |buf|
  {
    var s := ScanStep(buf);
    if s.Scanned? then
      var (es, end) := ScanAll(s.rest);
      ([s.entry] + es, end)
    else ([], s)
  }

  /** The entry that encodes p. */
  function EntryOf(p: Pair): Entry {
    var e := Entry(p.name, p.value.Type(), [], 0, p.value.Flag());
    match p.value
    case Null => e
    case Bool(_) => e
    case Int32(v) => e.(intVal := v)
    case UInt32(v) => e.(intVal := v)
    case Int64(v) => e.(intVal := v)
    case UInt64(v) => e.(intVal := ToI64(v))
    case IPv4(s) => e.(byteVal := s)
    case IPv6(s) => e.(byteVal := s)
    case String(s) => e.(byteVal := s)
    case Binary(s) => e.(byteVal := s)
  }

  function EntriesOf(ps: seq<Pair>): (es: seq<Entry>)
    ensures |es| == |ps|
  {
    if ps == [] then [] else [EntryOf(ps[0])] + EntriesOf(ps[1..])
  }

  /** Signed values travel sign-extended to 64 bits and come back by truncation. */
  lemma IntegersSurvive(v: i64, w: i32, u: u32, x: u64)
    ensures ToI64(ToU64(v)) == v && ToU64(ToI64(x)) == x
    ensures ToI32(w) == w && ToI64(ToU64(w)) == w && ToU32(u) == u && ToI64(u) == u
  {
  }

  lemma EntryValue(p: Pair)
    ensures EntryOf(p).name == p.name && EntryOf(p).Value() == Ok(p.value)
  {
    if p.value.UInt64? {
      IntegersSurvive(0, 0, 0, p.value.u64);
    }
  }

  lemma TypeByteSplits(v: TypedValue)
    ensures v.TypeByte() % 16 == v.Type() && (v.TypeByte() / 16 % 2 == 1) == v.Flag()
  {
  }

  lemma IntRoundTrip(v: i64, rest: bytes)
    ensures var e := Enc(ToU64(v));
            Dec(e + rest) == Ok((ToU64(v), |e|)) && (e + rest)[|e|..] == rest && ToI64(ToU64(v)) == v
  {
    RoundTrip(ToU64(v), rest);
  }

  lemma IntPayload(p: Pair, v: i64)
    requires match p.value
             case Int32(w) => v == w
             case UInt32(w) => v == w
             case Int64(w) => v == w
             case UInt64(w) => v == ToI64(w)
             case _ => false
    ensures p.value.Payload() == Enc(ToU64(v))
    ensures EntryOf(p) == Entry(p.name, p.value.Type(), [], v, false)
    ensures TYPE_INT32 <= p.value.Type() <= TYPE_UINT64
  {
    if p.value.UInt64? {
      IntegersSurvive(0, 0, 0, p.value.u64);
    }
  }

  lemma ValueRoundTrip(p: Pair, rest: bytes)
    requires p.value.Valid()
    ensures ScanValue(p.name, p.value.TypeByte(), p.value.Payload() + rest) == Scanned(EntryOf(p), rest)
  {
    hide Enc, EncBytes, DecBytes, Dec, TypedValue.TypeByte;
    TypeByteSplits(p.value);
    match p.value
    case Null => assert [] + rest == rest;
    case Bool(_) => assert [] + rest == rest;
    case IPv4(s) => DropPrefix(s, rest);
    case IPv6(s) => DropPrefix(s, rest);
    case String(s) => BytesRoundTrip(s, rest);
    case Binary(s) => BytesRoundTrip(s, rest);
    case _ =>
      var v := EntryOf(p).intVal;
      IntPayload(p, v);
      IntRoundTrip(v, rest);
  }

  // ---------- whatever a peer sends ----------

  /** A length-prefixed string that runs past the end of b. */
  predicate Overruns(b: bytes) {
    match Dec(b)
    case Ok((l, n)) => l > |b| - n
    case _ => false
  }

  /** The value that type nibble t announces is not all there. */
  predicate CutValue(t: nat, b: bytes) {
    (t == 6 && |b| < 4) || (t == 7 && |b| < 16) || ((t == 8 || t == 9) && Overruns(b))
  }

  /** The value that type nibble t announces cannot be told: an unknown type, or a number without an end. */
  predicate BadValue(t: nat, b: bytes) {
    t > 9 || (2 <= t <= 5 && Dec(b).Error?) || ((t == 8 || t == 9) && Dec(b).Error?)
  }

  lemma ValueOutcome(name: bytes, t: byte, b: bytes)
    ensures var s := ScanValue(name, t, b);
            && (s.Crash? <==> CutValue(t % 16, b))
            && (s.Failed? <==> BadValue(t % 16, b))
            && (s.Scanned? ==> s.entry.name == name && s.entry.dataType == t % 16 && s.entry.Value().Ok?)
  {
    hide Dec, ToI32, ToU32, ToU64, ToI64;
  }

  /**
   * Exactly the inputs on which a scan step panics, fails or finds an entry: nothing is there
   * behind the name, or name or value run past the end; a number does not end, or the type is
   * unknown; anything else is an entry of a known type with a value.
   */
  lemma ScanOutcome(buf: bytes)
    requires buf != []
    ensures var s := ScanStep(buf);
            match Dec(buf)
            case Ok((l, n)) =>
              if l > |buf| - n - 1 then s.Crash?
              else
                var t := buf[n + l] % 16;
                var b := buf[n + l + 1..];
                && (s.Crash? <==> CutValue(t, b))
                && (s.Failed? <==> BadValue(t, b))
                && (s.Scanned? ==> s.entry.name == buf[n..n + l] && s.entry.dataType == t && s.entry.Value().Ok?)
            case _ => s.Failed?
  {
    hide Dec, ScanValue, CutValue, BadValue, Entry.Value;
    match Dec(buf)
    case Ok((l, n)) =>
      if l <= |buf| - n {
        assert buf[n..][..l] == buf[n..n + l] && buf[n + l..] == buf[n..][l..];
        if buf[n + l..] != [] {
          assert buf[n + l..][0] == buf[n + l] && buf[n + l..][1..] == buf[n + l + 1..];
          ValueOutcome(buf[n..n + l], buf[n + l], buf[n + l + 1..]);
        }
      }
    case _ =>
  }

  /** Any number on the wire is kept modulo the width of its type. */
  lemma IntegersTruncate(name: bytes, x: u64, rest: bytes)
    ensures match ScanValue(name, TYPE_INT32, Enc(x) + rest)
            case Scanned(e, left) => left == rest && e.Value().Ok? && e.Value().value.Int32? && (e.Value().value.i32 - x) % TWO_32 == 0
            case _ => false
    ensures match ScanValue(name, TYPE_UINT32, Enc(x) + rest)
            case Scanned(e, left) => left == rest && e.Value().Ok? && e.Value().value.UInt32? && (e.Value().value.u32 - x) % TWO_32 == 0
            case _ => false
    ensures match ScanValue(name, TYPE_INT64, Enc(x) + rest)
            case Scanned(e, left) => left == rest && e.Value().Ok? && e.Value().value.Int64? && (e.Value().value.i64 - x) % TWO_64 == 0
            case _ => false
    ensures match ScanValue(name, TYPE_UINT64, Enc(x) + rest)
            case Scanned(e, left) => left == rest && e.Value() == Ok(UInt64(x))
            case _ => false
  {
    hide ScanValue, Enc, ToI32, ToU32, ToU64, ToI64;
    IntegerScanned(name, TYPE_INT32, x, rest);
    IntegerScanned(name, TYPE_UINT32, x, rest);
    IntegerScanned(name, TYPE_INT64, x, rest);
    IntegerScanned(name, TYPE_UINT64, x, rest);
    Congruent(x);
  }

  lemma IntegerScanned(name: bytes, t: byte, x: u64, rest: bytes)
    requires TYPE_INT32 <= t <= TYPE_UINT64
    ensures ScanValue(name, t, Enc(x) + rest) == Scanned(Entry(name, t, [], ToI64(x), false), rest)
  {
    hide Enc, Dec, ToI64, ToU64;
    Congruent(x);
    IntRoundTrip(ToI64(x), rest);
    PlainType(t);
  }

  lemma PlainType(t: byte)
    requires t < 16
    ensures t % 16 == t && t / 16 % 2 == 0
  {
  }

  lemma Congruent(x: u64)
    ensures (ToI32(ToI64(x)) - x) % TWO_32 == 0 && (ToU32(ToI64(x)) - x) % TWO_32 == 0
    ensures (ToI64(x) - x) % TWO_64 == 0 && ToU64(ToI64(x)) == x
  {
  }

  lemma PairRoundTrip(p: Pair, rest: bytes)
    requires p.Valid()
    ensures ScanStep(p.Encode() + rest) == Scanned(EntryOf(p), rest)
  {
    hide Enc, EncBytes, DecBytes, Dec, ScanValue, TypedValue.Payload, TypedValue.TypeByte;
    var t := p.value.TypeByte();
    var tail := [t] + (p.value.Payload() + rest);
    assert p.Encode() + rest == EncBytes(p.name) + tail;
    BytesRoundTrip(p.name, tail);
    assert tail[0] == t && tail[1..] == p.value.Payload() + rest;
    ValueRoundTrip(p, rest);
  }

  lemma ScanAllEmpty()
    ensures ScanAll([]) == ([], Exhausted)
  {
  }

  lemma ScanAllUnfold(buf: bytes, e: Entry, rest: bytes)
    requires ScanStep(buf) == Scanned(e, rest)
    ensures ScanAll(buf) == ([e] + ScanAll(rest).0, ScanAll(rest).1)
  {
  }

  /** ScanAll by the kind of its first step. */
  lemma ScanAllCases(buf: bytes)
    ensures match ScanStep(buf)
            case Scanned(e, rest) => ScanAll(buf) == ([e] + ScanAll(rest).0, ScanAll(rest).1)
            case s => ScanAll(buf) == ([], s)
  {
  }

  /** Scanning an encoded list yields exactly its names, types and values, then a clean end. */
  lemma {:induction false} PairsRoundTrip(ps: seq<Pair>)
    requires AllValid(ps)
    ensures ScanAll(EncodePairs(ps)) == (EntriesOf(ps), Exhausted)
  {
    hide ScanStep, ScanAll, Pair.Encode, EntryOf;
    if ps == [] {
      ScanAllEmpty();
    } else {
      var rest := EncodePairs(ps[1..]);
      PairRoundTrip(ps[0], rest);
      ScanAllUnfold(EncodePairs(ps), EntryOf(ps[0]), rest);
      PairsRoundTrip(ps[1..]);
    }
  }

  lemma {:induction false} EntriesCarryPairs(ps: seq<Pair>, i: nat)
    requires i < |ps|
    ensures EntriesOf(ps)[i].name == ps[i].name && EntriesOf(ps)[i].Value() == Ok(ps[i].value)
  {
    if i == 0 {
      EntryValue(ps[0]);
    } else {
      EntriesCarryPairs(ps[1..], i - 1);
    }
  }

  lemma {:induction false} EncodePairsAppend(a: seq<Pair>, b: seq<Pair>)
    ensures EncodePairs(a + b) == EncodePairs(a) + EncodePairs(b)
  {
    if a == [] {
      assert a + b == b;
    } else {
      assert (a + b)[1..] == a[1..] + b;
      EncodePairsAppend(a[1..], b);
    }
  }

  /** The list up to, at and after position i. */
  lemma PairsSplit(ps: seq<Pair>, i: nat)
    requires i < |ps|
    ensures EncodePairs(ps[..i + 1]) == EncodePairs(ps[..i]) + ps[i].Encode()
    ensures |EncodePairs(ps[..i + 1])| <= |EncodePairs(ps)|
  {
    hide Pair.Encode;
    EncodePairsAppend(ps[..i], [ps[i]]);
    EncodePairsAppend(ps[..i + 1], ps[i + 1..]);
    assert ps[..i] + [ps[i]] == ps[..i + 1] && ps[..i + 1] + ps[i + 1..] == ps;
    assert EncodePairs([ps[i]]) == ps[i].Encode() + EncodePairs([]);
  }
}
