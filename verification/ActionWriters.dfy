/** The growing writer for SPOE actions (pkg/encoding/actionwriter.go). */
module ActionWriters {
  import opened Common
  import opened Varints
  import opened Encoding
  import opened KeyValue

  // ---------- specification ----------

  const SET_VAR: byte := 1
  const UNSET_VAR: byte := 2

  datatype Action = Unset(scope: byte, name: bytes) | Set(scope: byte, name: bytes, value: TypedValue) {
    predicate Valid() {
      GoLength(name) && (Set? ==> value.Valid())
    }

    /** Type, argument count, scope and name. */
    function Header(): bytes {
      (if Set? then [SET_VAR, 3, scope] else [UNSET_VAR, 2, scope]) + EncBytes(name)
    }

    function Encode(): bytes {
      if Unset? then Header() else Header() + OnWire(value).Encode()
    }
  }

  /** Every integer setter funnels into SetInt64, so all integers travel with that one type. */
  function OnWire(v: TypedValue): (w: TypedValue)
    ensures v.Valid() ==> w.Valid()
  {
    match v
    case Int32(x) => Int64(x)
    case UInt32(x) => Int64(x)
    case UInt64(x) => Int64(ToI64(x))
    case _ => v
  }

  /** The typed value an address is stored as. */
  function AddrValue(v: Addr): TypedValue {
    match v
    case NoAddr => Null
    case Addr4(a) => IPv4(a)
    case Addr6(a) => IPv6(a)
  }

  lemma AddrEncoding(v: Addr)
    requires !v.NoAddr?
    ensures var w := OnWire(AddrValue(v));
            w.TypeByte() == (if v.Addr6? then TYPE_IPV6 else TYPE_IPV4) && w.Payload() == v.AsSlice()
  {
  }

  /** The bytes of a SET-VAR, part by part. */
  lemma SetEncoding(s: byte, name: bytes, v: TypedValue, t: byte, payload: bytes)
    requires OnWire(v).TypeByte() == t && OnWire(v).Payload() == payload
    ensures Set(s, name, v).Encode() == ([SET_VAR, 3, s] + EncBytes(name)) + ([t] + payload)
  {
    hide EncBytes, OnWire, TypedValue.TypeByte, TypedValue.Payload;
  }

  function EncodeActions(acts: seq<Action>): bytes {
    if acts == [] then [] else acts[0].Encode() + EncodeActions(acts[1..])
  }

  // ---------- the receiving side, from section 3.4 of SPOE.txt ----------

  /** Reads one action: a SET-VAR has three arguments, an UNSET-VAR two. */
  function ParseAction(b: bytes): (r: Option<(Action, bytes)>)
    ensures r.Some? ==> |r.value.1| < |b|
  {
    if |b| < 3 then None
    else
      match DecBytes(b[3..])
      case Ok((name, n)) =>
        var rest := b[3..][n..];
        if b[0] == UNSET_VAR && b[1] == 2 then Some((Unset(b[2], name), rest))
        else if b[0] == SET_VAR && b[1] == 3 && rest != [] then
          match ScanValue([], rest[0], rest[1..])
          case Scanned(e, left) => if e.Value().Ok? then Some((Set(b[2], name, e.Value().value), left)) else None
          case _ => None
        else None
      case _ => None
  }

  function ParseActions(b: bytes): (r: Option<seq<Action>>)
    decreases |b|
  {
    if b == [] then Some([])
    else
      match ParseAction(b)
      case None => None
      case Some((a, rest)) =>
        match ParseActions(rest)
        case None => None
        case Some(acts) => Some([a] + acts)
  }

  /** The action acts HAProxy understands it. */
  function Received(a: Action): Action {
    if a.Unset? then a else a.(value := OnWire(a.value))
  }

  function ReceivedAll(acts: seq<Action>): (r: seq<Action>)
    ensures |r| == |acts|
  {
    if acts == [] then [] else [Received(acts[0])] + ReceivedAll(acts[1..])
  }

  /**
   * What HAProxy understands, kind by kind: same action, scope and name, the same number for
   * integers (for unsigned 64-bit ones the int64 congruent to it), and any other value itself.
   */
  predicate Understood(sent: Action, got: Action) {
    match sent
    case Unset(s, n) => got == Unset(s, n)
    case Set(s, n, v) =>
      && got.Set? && got.scope == s && got.name == n
      && match v
         case Int32(x) => got.value == Int64(x)
         case UInt32(x) => got.value == Int64(x)
         case Int64(x) => got.value == Int64(x)
         case UInt64(x) => got.value.Int64? && (got.value.i64 - x) % TWO_64 == 0
         case _ => got.value == v
  }

  predicate AllUnderstood(sent: seq<Action>, got: seq<Action>) {
    |sent| == |got| && forall i :: 0 <= i < |sent| ==> Understood(sent[i], got[i])
  }

  lemma ReceivedUnderstood(a: Action)
    ensures Understood(a, Received(a))
  {
  }

  /** One action in front of anything else is read back as it was meant, and its reader stops at its end. */
  lemma ActionUnderstood(a: Action, rest: bytes)
    requires a.Valid()
    ensures match ParseAction(a.Encode() + rest)
            case Some((got, left)) => Understood(a, got) && left == rest
            case None => false
  {
    hide ParseAction, Action.Encode, Understood, Received;
    ActionRoundTrip(a, rest);
    ReceivedUnderstood(a);
  }

  lemma HeaderRoundTrip(a: Action, rest: bytes)
    requires GoLength(a.name)
    ensures var b := a.Header() + rest;
            && |b| > 3 && b[0] == (if a.Set? then SET_VAR else UNSET_VAR) && b[1] == (if a.Set? then 3 else 2) && b[2] == a.scope
            && DecBytes(b[3..]) == Ok((a.name, |EncBytes(a.name)|))
            && b[3..][|EncBytes(a.name)|..] == rest
  {
    hide EncBytes, DecBytes;
    var b := a.Header() + rest;
    assert b[3..] == EncBytes(a.name) + rest;
    BytesRoundTrip(a.name, rest);
  }

  lemma ActionRoundTrip(a: Action, rest: bytes)
    requires a.Valid()
    ensures ParseAction(a.Encode() + rest) == Some((Received(a), rest))
  {
    hide EncBytes, DecBytes, ScanValue, OnWire, TypedValue.TypeByte, TypedValue.Payload, EntryOf, Entry.Value, Action.Header;
    if a.Unset? {
      HeaderRoundTrip(a, rest);
    } else {
      var p := Pair([], OnWire(a.value));
      var tail := p.value.Encode() + rest;
      HeaderRoundTrip(a, tail);
      assert a.Encode() + rest == a.Header() + tail;
      assert tail[0] == p.value.TypeByte() && tail[1..] == p.value.Payload() + rest;
      ValueRoundTrip(p, rest);
      EntryValue(p);
    }
  }

  /** A sequence of actions is uniquely decodable and keeps its order: what is read is what was meant, one for one. */
  lemma ActionsRoundTrip(acts: seq<Action>)
    requires forall a <- acts :: a.Valid()
    ensures match ParseActions(EncodeActions(acts))
            case Some(got) => AllUnderstood(acts, got)
            case None => false
  {
    hide ParseActions, EncodeActions, Understood, Received;
    ActionsReceived(acts);
    forall i | 0 <= i < |acts|
      ensures Understood(acts[i], ReceivedAll(acts)[i])
    {
      ReceivedAt(acts, i);
      ReceivedUnderstood(acts[i]);
    }
  }

  lemma {:induction false} ReceivedAt(acts: seq<Action>, i: nat)
    requires i < |acts|
    ensures ReceivedAll(acts)[i] == Received(acts[i])
  {
    hide Received;
    if i > 0 {
      ReceivedAt(acts[1..], i - 1);
    }
  }

  lemma {:induction false} ActionsReceived(acts: seq<Action>)
    requires forall a <- acts :: a.Valid()
    ensures ParseActions(EncodeActions(acts)) == Some(ReceivedAll(acts))
  {
    hide ParseAction, Action.Encode;
    if acts != [] {
      var rest := EncodeActions(acts[1..]);
      ActionRoundTrip(acts[0], rest);
      ActionsReceived(acts[1..]);
      assert acts[0].Encode() + rest != [] by {
        EncodeNonEmpty(acts[0]);
      }
    }
  }

  lemma EncodeNonEmpty(a: Action)
    ensures a.Encode() != []
  {
  }

  /** Which values HAProxy gets back unchanged: an unsigned 64-bit one only below 2^63. */
  lemma ReceivedNumber(v: TypedValue)
    requires v.UInt64?
    ensures OnWire(v).Int64? && (OnWire(v).i64 == v.u64 <==> v.u64 < TWO_63)
  {
  }

  lemma EncodeNone()
    ensures EncodeActions([]) == []
  {
  }

  lemma {:induction false} EncodeActionsAppend(acts: seq<Action>, more: seq<Action>)
    ensures EncodeActions(acts + more) == EncodeActions(acts) + EncodeActions(more)
  {
    hide Action.Encode;
    if acts == [] {
      assert acts + more == more;
    } else {
      assert (acts + more)[1..] == acts[1..] + more;
      EncodeActionsAppend(acts[1..], more);
    }
  }

  lemma EncodeActionsSnoc(acts: seq<Action>, a: Action)
    ensures EncodeActions(acts + [a]) == EncodeActions(acts) + a.Encode()
  {
    hide Action.Encode;
    EncodeActionsAppend(acts, [a]);
    assert EncodeActions([a]) == a.Encode() + EncodeActions([]);
  }

  // ---------- the writer ----------

  /**
   * Writes into the slice home[homeBase..] until that is too small, then into arrays of its
   * own. Setters other than SetAddr return no error: what could fail in the source is shown
   * here not to fail, because Grow has made room.
   */
  class ActionWriter {
    var data: array<byte>
    var base: nat
    var off: nat
    ghost const home: array<byte>
    ghost const homeBase: nat
    ghost const homePrefix: bytes

    /** The write position is in range, and what lies before the caller's slice is as it was. */
    ghost predicate Valid()
      reads this, data, home
    {
      && base + off <= data.Length
      && homeBase <= home.Length
      && home[..homeBase] == homePrefix
      && (data == home ==> base == homeBase)
    }

    constructor (buf: array<byte>, base: nat, off: nat)
      requires base + off <= buf.Length
      ensures Valid() && data == buf && this.base == base && this.off == off
      ensures home == buf && homeBase == base && homePrefix == buf[..base]
    {
      data, this.base, this.off := buf, base, off;
      home, homeBase, homePrefix := buf, base, buf[..base];
    }

    /** NewActionWriter(nil, 0) */
    constructor Nil()
      ensures Valid() && Bytes() == [] && fresh(data) && fresh(home)
    {
      var nothing := new byte[0];
      data, base, off := nothing, 0, 0;
      home, homeBase, homePrefix := nothing, 0, [];
    }

    function Bytes(): bytes
      requires Valid()
      reads this, data, home
    {
      data[base..base + off]
    }

    ghost function Room(): int
      reads this, data
    {
      data.Length - base - off
    }

    method Grow(n: nat)
      requires Valid()
      modifies this
      ensures Valid() && Room() >= n && Bytes() == old(Bytes())
      ensures data == old(data) || fresh(data)
    {
      if n <= data.Length - base - off {
        return;
      }
      var size := (data.Length - base) * 2;
      var required := off + n;
      if size < required {
        size := required;
      }
      var grown := new byte[size](_ => 0);
      var copied := Copy(grown, 0, data[base..base + off]);
      assert grown[..off] == data[base..base + off];
      data, base := grown, 0;
    }

    /** An indexed store at off; Grow has made room. */
    method PutByte(x: byte)
      requires Valid() && Room() >= 1
      modifies this`off, data
      ensures Valid() && Room() == old(Room()) - 1
      ensures Bytes() == old(Bytes()) + [x]
    {
      data[base + off] := x;
      off := off + 1;
      assert data == home ==> home[..homeBase] == old(home[..homeBase]);
    }

    method PutSlice(v: bytes)
      requires Valid() && GoLength(v) && Room() >= |EncBytes(v)|
      modifies this`off, data
      ensures Valid() && Room() == old(Room()) - |EncBytes(v)|
      ensures Bytes() == old(Bytes()) + EncBytes(v)
    {
      hide EncBytes;
      var n := PutBytes(data, base + off, v);
      Advance(n.value, old(data[..base]));
    }

    method PutNumber(v: u64)
      requires Valid() && Room() >= |Enc(v)|
      modifies this`off, data
      ensures Valid() && Room() == old(Room()) - |Enc(v)|
      ensures Bytes() == old(Bytes()) + Enc(v)
    {
      hide Enc;
      var n := PutVarint(data, base + off, v);
      Advance(n.value, old(data[..base]));
    }

    method PutAddress(v: Addr)
      requires Valid() && Room() >= |v.AsSlice()|
      modifies this`off, data
      ensures Valid() && Room() == old(Room()) - |v.AsSlice()|
      ensures Bytes() == old(Bytes()) + v.AsSlice()
    {
      hide Addr.AsSlice;
      var n := PutAddr(data, base + off, v);
      Advance(n.value, old(data[..base]));
    }

    /** off += n after n bytes were stored behind the used part. */
    method Advance(n: nat, ghost prefix: bytes)
      requires base + off + n <= data.Length
      requires homeBase <= home.Length && (data == home ==> base == homeBase)
      requires data != home ==> home[..homeBase] == homePrefix
      requires prefix == data[..base] && (data == home ==> prefix == homePrefix)
      modifies this`off
      ensures Valid() && off == old(off) + n
    {
      off := off + n;
    }

    method ActionHeader(t: byte, s: byte, name: bytes)
      requires t == SET_VAR || t == UNSET_VAR
      requires Valid() && GoLength(name)
      modifies this, data
      ensures Valid() && Bytes() == old(Bytes()) + [t, if t == SET_VAR then 3 else 2, s] + EncBytes(name)
      ensures data == old(data) || fresh(data)
    {
      hide Valid, Bytes, Room, EncBytes, Enc;
      ghost var before := Bytes();
      var l := VarintLen(|name|);
      EncBytesParts(name);
      Grow(3 + l + |name|);
      PutByte(t);
      var nbArgs: byte := if t == SET_VAR then 3 else 2;
      PutByte(nbArgs);
      PutByte(s);
      PutSlice(name);
      assert Bytes() == before + [t] + [nbArgs] + [s] + EncBytes(name);
    }

    method Unset(s: byte, name: bytes)
      requires Valid() && GoLength(name)
      modifies this, data
      ensures Valid() && Bytes() == old(Bytes()) + Action.Unset(s, name).Encode()
      ensures data == old(data) || fresh(data)
    {
      hide Valid, Bytes, Room, EncBytes, Enc;
      ActionHeader(UNSET_VAR, s, name);
    }

    /** What SetStringBytes and SetBinary share: the header, a type byte, length-prefixed bytes. */
    method SetBytes(s: byte, name: bytes, t: byte, v: bytes)
      requires Valid() && GoLength(name) && GoLength(v)
      modifies this, data
      ensures Valid() && Bytes() == old(Bytes()) + (([SET_VAR, 3, s] + EncBytes(name)) + ([t] + EncBytes(v)))
      ensures data == old(data) || fresh(data)
    {
      hide Valid, Bytes, Room, EncBytes, Enc;
      ActionHeader(SET_VAR, s, name);
      var l := VarintLen(|v|);
      EncBytesParts(v);
      Grow(1 + l + |v|);
      PutByte(t);
      PutSlice(v);
    }

    method SetStringBytes(s: byte, name: bytes, v: bytes)
      requires Valid() && GoLength(name) && GoLength(v)
      modifies this, data
      ensures Valid() && Bytes() == old(Bytes()) + Action.Set(s, name, String(v)).Encode()
      ensures data == old(data) || fresh(data)
    {
      hide Valid, Bytes, Room, EncBytes, Enc;
      SetBytes(s, name, TYPE_STRING, v);
    }

    method SetBinary(s: byte, name: bytes, v: bytes)
      requires Valid() && GoLength(name) && GoLength(v)
      modifies this, data
      ensures Valid() && Bytes() == old(Bytes()) + Action.Set(s, name, Binary(v)).Encode()
      ensures data == old(data) || fresh(data)
    {
      hide Valid, Bytes, Room, EncBytes, Enc;
      SetBytes(s, name, TYPE_BINARY, v);
    }

    method SetNull(s: byte, name: bytes)
      requires Valid() && GoLength(name)
      modifies this, data
      ensures Valid() && Bytes() == old(Bytes()) + Action.Set(s, name, Null).Encode()
      ensures data == old(data) || fresh(data)
    {
      hide Valid, Bytes, Room, EncBytes, Enc;
      ActionHeader(SET_VAR, s, name);
      Grow(1);
      PutByte(TYPE_NULL);
    }

    method SetBool(s: byte, name: bytes, v: bool)
      requires Valid() && GoLength(name)
      modifies this, data
      ensures Valid() && Bytes() == old(Bytes()) + Action.Set(s, name, Bool(v)).Encode()
      ensures data == old(data) || fresh(data)
    {
      hide Valid, Bytes, Room, EncBytes, Enc;
      ActionHeader(SET_VAR, s, name);
      Grow(1);
      PutByte(if v then SetBit(TYPE_BOOL, FLAG_TRUE) else TYPE_BOOL);
    }

    method SetInt64(s: byte, name: bytes, v: i64)
      requires Valid() && GoLength(name)
      modifies this, data
      ensures Valid() && Bytes() == old(Bytes()) + Action.Set(s, name, Int64(v)).Encode()
      ensures data == old(data) || fresh(data)
    {
      hide Valid, Bytes, Room, EncBytes, Enc, ToU64, Action.Encode;
      ActionHeader(SET_VAR, s, name);
      var l := VarintLen(ToU64(v));
      Grow(1 + l);
      PutByte(TYPE_INT64);
      PutNumber(ToU64(v));
      SetEncoding(s, name, Int64(v), TYPE_INT64, Enc(ToU64(v)));
    }

    method SetUInt32(s: byte, name: bytes, v: u32)
      requires Valid() && GoLength(name)
      modifies this, data
      ensures Valid() && Bytes() == old(Bytes()) + Action.Set(s, name, UInt32(v)).Encode()
      ensures data == old(data) || fresh(data)
    {
      hide Valid, Bytes, Room, EncBytes, Enc;
      SetInt64(s, name, v);
    }

    method SetInt32(s: byte, name: bytes, v: i32)
      requires Valid() && GoLength(name)
      modifies this, data
      ensures Valid() && Bytes() == old(Bytes()) + Action.Set(s, name, Int32(v)).Encode()
      ensures data == old(data) || fresh(data)
    {
      hide Valid, Bytes, Room, EncBytes, Enc;
      SetInt64(s, name, v);
    }

    method SetUInt64(s: byte, name: bytes, v: u64)
      requires Valid() && GoLength(name)
      modifies this, data
      ensures Valid() && Bytes() == old(Bytes()) + Action.Set(s, name, UInt64(v)).Encode()
      ensures data == old(data) || fresh(data)
    {
      hide Valid, Bytes, Room, EncBytes, Enc;
      SetInt64(s, name, ToI64(v));
    }

    /** A valid address always succeeds; the invalid one fails after its header is written. */
    method SetAddr(s: byte, name: bytes, v: Addr) returns (r: Outcome<()>)
      requires Valid() && GoLength(name)
      modifies this, data
      ensures Valid() && r == if v.NoAddr? then Error else Ok(())
      ensures var a := Action.Set(s, name, AddrValue(v));
              Bytes() == old(Bytes()) + if v.NoAddr? then a.Header() else a.Encode()
      ensures data == old(data) || fresh(data)
    {
      hide Valid, Bytes, Room, EncBytes, Enc, Addr.AsSlice, Action.Encode, AddrValue, OnWire, TypedValue.TypeByte, TypedValue.Payload;
      ghost var before := Bytes();
      ActionHeader(SET_VAR, s, name);
      ghost var header := [SET_VAR, 3, s] + EncBytes(name);
      assert Bytes() == before + header;
      Grow(1 + |v.AsSlice()|);
      if v.NoAddr? {
        return Error;
      }
      ghost var t: byte := if v.Addr6? then TYPE_IPV6 else TYPE_IPV4;
      PutByte(if v.Addr6? then TYPE_IPV6 else TYPE_IPV4);
      PutAddress(v);
      assert Bytes() == before + (header + ([t] + v.AsSlice()));
      AddrEncoding(v);
      SetEncoding(s, name, AddrValue(v), if v.Addr6? then TYPE_IPV6 else TYPE_IPV4, v.AsSlice());
      return Ok(());
    }

    /** The setter a handler picks for a typed value. */
    method Perform(a: Action)
      requires Valid() && a.Valid()
      modifies this, data
      ensures Valid() && Bytes() == old(Bytes()) + a.Encode()
      ensures data == old(data) || fresh(data)
    {
      hide Valid, Bytes, Action.Encode;
      match a {
        case Unset(s, n) => Unset(s, n);
        case Set(s, n, Null) => SetNull(s, n);
        case Set(s, n, Bool(v)) => SetBool(s, n, v);
        case Set(s, n, Int32(v)) => SetInt32(s, n, v);
        case Set(s, n, UInt32(v)) => SetUInt32(s, n, v);
        case Set(s, n, Int64(v)) => SetInt64(s, n, v);
        case Set(s, n, UInt64(v)) => SetUInt64(s, n, v);
        case Set(s, n, IPv4(v)) => var ok := SetAddr(s, n, Addr4(v));
        case Set(s, n, IPv6(v)) => var ok := SetAddr(s, n, Addr6(v));
        case Set(s, n, String(v)) => SetStringBytes(s, n, v);
        case Set(s, n, Binary(v)) => SetBinary(s, n, v);
      }
    }

    /** Any sequence of calls, from any starting buffer and capacity, appends the specified encodings. */
    method PerformAll(acts: seq<Action>)
      requires Valid() && forall a <- acts :: a.Valid()
      modifies this, data
      ensures Valid() && Bytes() == old(Bytes()) + EncodeActions(acts)
      ensures data == old(data) || fresh(data)
    {
      hide Valid, Bytes, Action.Encode, EncodeActions;
      EncodeNone();
      for i := 0 to |acts|
        invariant Valid() && Bytes() == old(Bytes()) + EncodeActions(acts[..i])
        invariant data == old(data) || fresh(data)
      {
        EncodeActionsSnoc(acts[..i], acts[i]);
        assert acts[..i] + [acts[i]] == acts[..i + 1];
        Perform(acts[i]);
      }
      assert acts[..|acts|] == acts;
    }
  }
}
