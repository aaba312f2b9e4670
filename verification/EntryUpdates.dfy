/** Stick-table entry updates, laid out by their table's definition (peers/sticktable/sticktables.go). */
module EntryUpdates {
  import opened Common
  import opened Varints
  import opened Encoding
  import opened TableValues
  import opened StickTables

  // ---------- specification ----------

  datatype Entry = Entry(
    table: TableDef, key: Key, data: seq<Data>,
    withLocalUpdateID: bool, localUpdateID: u32, withExpiry: bool, expiry: u32)
  {
    predicate Valid() {
      key.Valid() && forall d <- data :: d.Valid()
    }

    /** Optional update ID and expiry. */
    function Fixed(): bytes {
      (if withLocalUpdateID then BE32(localUpdateID) else []) + (if withExpiry then BE32(expiry) else [])
    }

    function Encode(): Outcome<bytes> {
      var k :- key.Encode(table.keyLength);
      Ok(Fixed() + (k + EncodeData(data)))
    }

    /** Key and data are of the table's kinds and survive the wire. */
    predicate MatchesTable() {
      && key.Kind().Some? && KeyKindOf(table.keyType) == key.Kind()
      && key.Fits(table.keyLength)
      && DataMatches(table.dataTypes, data)
    }

    /** What Marshal returns with room bytes left. */
    function MarshalResult(room: nat): Outcome<nat> {
      if |Fixed()| > room then Panic
      else
        var n :- key.MarshalResult(table.keyLength, room - |Fixed()|);
        DataResult(data, |Fixed()| + n, room)
    }
  }

  function EncodeData(ds: seq<Data>): bytes {
    if ds == [] then [] else ds[0].Encode() + EncodeData(ds[1..])
  }

  predicate DataMatches(types: seq<DataTypeDefinition>, ds: seq<Data>) {
    && |types| == |ds|
    && forall i :: 0 <= i < |ds| ==> DataKindOf(types[i].dataType) == Some(ds[i].Kind()) && ds[i].Readable() && ds[i].Valid()
  }

  /** The data loop of Marshal: an offset past the buffer makes the next slice expression panic. */
  function DataResult(ds: seq<Data>, offset: nat, room: nat): Outcome<nat> {
    if ds == [] then Ok(offset)
    else if offset > room then Panic
    else if |ds[0].Numbers()| > room - offset then Error
    else DataResult(ds[1..], offset + |ds[0].Encode()|, room)
  }

  function ParseDatas(types: seq<DataTypeDefinition>, b: bytes): (r: Outcome<(seq<Data>, bytes)>)
  {
    if types == [] then Ok(([], b))
    else
      match DataKindOf(types[0].dataType)
      case None => Error
      case Some(kind) =>
        var (d, b1) :- ParseData(kind, b);
        var (ds, rest) :- ParseDatas(types[1..], b1);
        Ok(([d] + ds, rest))
  }

  /** A 32-bit field that is there when wanted; reading it from fewer than four bytes panics. */
  function ParseFixed(b: bytes, wanted: bool, otherwise: u32): Outcome<(u32, bytes)> {
    if !wanted then Ok((otherwise, b))
    else if |b| < 4 then Panic
    else Ok((FromBE32(b), b[4..]))
  }

  /** Unmarshal under a table and the flags of the message type; id is the ID the caller already chose. */
  function ParseEntry(table: TableDef, withID: bool, withExpiry: bool, id: u32, b: bytes): Outcome<(Entry, bytes)> {
    var (updateID, b1) :- ParseFixed(b, withID, id);
    var (expiry, b2) :- ParseFixed(b1, withExpiry, 0);
    match KeyKindOf(table.keyType)
    case None => Panic
    case Some(kind) =>
      var (key, b3) :- ParseKey(kind, table.keyLength, b2);
      var (data, rest) :- ParseDatas(table.dataTypes, b3);
      Ok((Entry(table, key, data, withID, updateID, withExpiry, expiry), rest))
  }

  // ---------- round trip ----------

  lemma {:induction false} DatasRoundTrip(types: seq<DataTypeDefinition>, ds: seq<Data>, rest: bytes)
    requires DataMatches(types, ds)
    ensures ParseDatas(types, EncodeData(ds) + rest) == Ok((ds, rest))
  {
    hide Data.Encode, ParseData, DataKindOf, Data.Readable;
    if ds == [] {
      assert EncodeData(ds) + rest == rest;
    } else {
      var tail := EncodeData(ds[1..]) + rest;
      assert EncodeData(ds) + rest == ds[0].Encode() + tail;
      DataRoundTripIff(ds[0], tail);
      DatasRoundTrip(types[1..], ds[1..], rest);
      assert [ds[0]] + ds[1..] == ds;
    }
  }

  lemma FixedRoundTrip(v: u32, wanted: bool, otherwise: u32, rest: bytes)
    ensures ParseFixed((if wanted then BE32(v) else []) + rest, wanted, otherwise) == Ok((if wanted then v else otherwise, rest))
  {
    hide BE32, FromBE32;
    if wanted {
      BE32RoundTrip(v, rest);
    } else {
      assert [] + rest == rest;
    }
  }

  /**
   * Marshal then Unmarshal under the same table and flags restores key, data, update ID and
   * expiry, and uses exactly the bytes written.
   */
  lemma EntryRoundTrip(e: Entry, id: u32, rest: bytes)
    requires e.Valid() && e.MatchesTable()
    ensures e.Encode().Ok?
    ensures ParseEntry(e.table, e.withLocalUpdateID, e.withExpiry, id, e.Encode().value + rest) ==
            Ok((e.(localUpdateID := if e.withLocalUpdateID then e.localUpdateID else id,
                   expiry := if e.withExpiry then e.expiry else 0), rest))
  {
    hide BE32, Key.Encode, ParseKey, Key.Fits, ParseFixed, EncodeData, ParseDatas, KeyKindOf, DataMatches;
    KeyRoundTripIff(e.key, e.table.keyLength, EncodeData(e.data) + rest);
    var k := e.key.Encode(e.table.keyLength).value;
    var body := k + (EncodeData(e.data) + rest);
    var second := (if e.withExpiry then BE32(e.expiry) else []) + body;
    assert e.Encode().value + rest == (if e.withLocalUpdateID then BE32(e.localUpdateID) else []) + second;
    FixedRoundTrip(e.localUpdateID, e.withLocalUpdateID, id, second);
    FixedRoundTrip(e.expiry, e.withExpiry, 0, body);
    DatasRoundTrip(e.table.dataTypes, e.data, rest);
  }

  // ---------- which buffers are large enough ----------

  lemma {:induction false} DataFits(ds: seq<Data>, offset: nat, room: nat)
    requires offset + |EncodeData(ds)| <= room
    ensures DataResult(ds, offset, room) == Ok(offset + |EncodeData(ds)|)
  {
    hide Data.Numbers;
    if ds != [] {
      DataFits(ds[1..], offset + |ds[0].Encode()|, room);
    }
  }

  /** A buffer that holds the whole encoding is always enough. */
  lemma MarshalFits(e: Entry, room: nat)
    requires e.Valid() && e.MatchesTable() && e.Encode().Ok? && |e.Encode().value| <= room
    ensures e.MarshalResult(room) == Ok(|e.Encode().value|)
  {
    hide BE32, EncodeData, DataResult, Enc;
    KeyFits(e.key, e.table.keyLength, room - |e.Fixed()|);
    var k := e.key.Encode(e.table.keyLength).value;
    DataFits(e.data, |e.Fixed()| + |k|, room);
  }

  lemma KeyFits(k: Key, keySize: u64, room: nat)
    requires k.Valid() && k.Fits(keySize) && k.Encode(keySize).Ok? && |k.Encode(keySize).value| <= room
    ensures k.MarshalResult(keySize, room) == Ok(|k.Encode(keySize).value|)
  {
    hide Enc;
  }

  lemma {:induction false} DataTotal(ds: seq<Data>, offset: nat, room: nat)
    requires DataResult(ds, offset, room).Ok?
    ensures DataResult(ds, offset, room) == Ok(offset + |EncodeData(ds)|)
    ensures ds != [] ==> offset < room
  {
    hide Enc;
    if ds != [] {
      NumbersNonEmpty(ds[0]);
      DataTotal(ds[1..], offset + |ds[0].Encode()|, room);
    }
  }

  lemma NumbersNonEmpty(d: Data)
    ensures |d.Numbers()| > 0
  {
    hide Enc;
  }

  /**
   * The one silent failure of Marshal: it reports success inside the buffer, but with less than
   * the whole encoding, exactly for a string key that does not fit and is followed by no data.
   */
  lemma SilentTruncationIff(e: Entry, room: nat)
    requires e.Valid() && e.Encode().Ok?
    ensures e.MarshalResult(room).Ok? && e.MarshalResult(room).value <= room && e.MarshalResult(room).value != |e.Encode().value|
       <==> e.key.StringKey? && e.data == [] && |e.Fixed()| + |Enc(ToU64(|e.key.text|))| <= room < |e.Encode().value|
  {
    hide BE32, Enc, DataResult, Data.Encode, ToU64;
    var f := |e.Fixed()|;
    if f <= room && e.key.MarshalResult(e.table.keyLength, room - f).Ok? {
      var n := e.key.MarshalResult(e.table.keyLength, room - f).value;
      if DataResult(e.data, f + n, room).Ok? {
        DataTotal(e.data, f + n, room);
      }
      if e.data == [] {
        DataFits([], f + n, f + n);
        NoData(f + n, room);
      }
    }
  }

  lemma NoData(offset: nat, room: nat)
    ensures DataResult([], offset, room) == Ok(offset) && EncodeData([]) == []
  {
  }

  // ---------- the Go methods ----------

  class EntryUpdate {
    var stickTable: Definition
    var key: Key
    var data: seq<Data>
    var withLocalUpdateID: bool
    var localUpdateID: u32
    var withExpiry: bool
    var expiry: u32

    /** EntryUpdate{StickTable: t} */
    constructor (t: Definition)
      ensures stickTable == t && key == NilKey && data == [] && !withLocalUpdateID && !withExpiry
      ensures localUpdateID == 0 && expiry == 0
    {
      stickTable, key, data := t, NilKey, [];
      withLocalUpdateID, localUpdateID, withExpiry, expiry := false, 0, false, 0;
    }

    /** An update a sender has filled in; table holds the definition it points to. */
    constructor Of(e: Entry, table: Definition)
      requires e.table == table.View()
      ensures stickTable == table && View() == e
    {
      stickTable, key, data := table, e.key, e.data;
      withLocalUpdateID, localUpdateID := e.withLocalUpdateID, e.localUpdateID;
      withExpiry, expiry := e.withExpiry, e.expiry;
    }

    function View(): Entry
      reads this, stickTable
    {
      Entry(stickTable.View(), key, data, withLocalUpdateID, localUpdateID, withExpiry, expiry)
    }

    /** Writes at the start of b. */
    method Marshal(b: array<byte>) returns (r: Outcome<nat>)
      requires View().Valid()
      modifies b
      ensures Marshalled(View(), r, b[..])
    {
      hide BE32, Entry.Encode, Entry.MarshalResult, BodyResult;
      ghost var e := View();
      MarshalSteps(e, b.Length);
      var offset := 0;
      if withLocalUpdateID {
        if offset + 4 > b.Length {
          return Panic;
        }
        PutUint32(b, offset, localUpdateID);
        offset := offset + 4;
      }
      if withExpiry {
        if offset + 4 > b.Length {
          return Panic;
        }
        ghost var w := b[..offset];
        PutUint32(b, offset, expiry);
        offset := offset + 4;
      }
      assert b[..offset] == e.Fixed();
      r := MarshalBody(key, data, stickTable.keyLength, b, offset);
      MarshalledWhole(e, r, b[..]);
    }

    /**
     * Fills the update from the front of b. The caller has set the table, the flags and a default
     * ID; data are appended to what was there, and the expiry stays when none is sent.
     */
    method Unmarshal(b: bytes) returns (r: Outcome<nat>)
      modifies this
      ensures stickTable == old(stickTable)
      ensures withLocalUpdateID == old(withLocalUpdateID) && withExpiry == old(withExpiry)
      ensures match ParseEntry(stickTable.View(), withLocalUpdateID, withExpiry, old(localUpdateID), b)
              case Ok((e, rest)) =>
                && r.Ok? && r.value <= |b| && b[r.value..] == rest
                && View() == e.(data := old(data) + e.data, expiry := if withExpiry then e.expiry else old(expiry))
              case Error => r == Error
              case Panic => r == Panic
    {
      hide FromBE32, ParseKey, ParseDatas, KeyKindOf;
      assert b[0..] == b;
      var offset := 0;
      if withLocalUpdateID {
        if |b| - offset < 4 {
          return Panic;
        }
        localUpdateID := FromBE32(b[offset..]);
        offset := offset + 4;
      }
      if withExpiry {
        if |b| - offset < 4 {
          return Panic;
        }
        expiry := FromBE32(b[offset..]);
        assert b[offset..][4..] == b[offset + 4..];
        offset := offset + 4;
      }
      var kind := KeyKindOf(stickTable.keyType);
      if kind.None? {
        return Panic;
      }
      var k :- UnmarshalKey(kind.value, b[offset..], stickTable.keyLength);
      assert b[offset..][k.1..] == b[offset + k.1..];
      key := k.0;
      offset := offset + k.1;
      r := UnmarshalDatas(b, offset);
    }

    /** The loop over the table's data types. */
    method UnmarshalDatas(b: bytes, off: nat) returns (r: Outcome<nat>)
      requires off <= |b|
      modifies this`data
      ensures match ParseDatas(stickTable.dataTypes, b[off..])
              case Ok((ds, rest)) => r.Ok? && r.value <= |b| && b[r.value..] == rest && data == old(data) + ds
              case Error => r == Error
              case Panic => r == Panic
    {
      hide ParseData, DataKindOf, ParseDatas;
      var types := stickTable.dataTypes;
      var offset := off;
      ghost var found: seq<Data> := [];
      ghost var whole := ParseDatas(types, b[off..]);
      JoinLaws(whole, [], []);
      assert types[0..] == types;
      for i := 0 to |types|
        invariant off <= offset <= |b| && data == old(data) + found
        invariant whole == Join(found, ParseDatas(types[i..], b[offset..]))
      {
        ParseDatasStep(types[i..], b[offset..]);
        assert types[i..][1..] == types[i + 1..];
        var kind := DataKindOf(types[i].dataType);
        if kind.None? {
          return Error;
        }
        var d :- UnmarshalData(kind.value, b[offset..]);
        assert b[offset..][d.1..] == b[offset + d.1..];
        offset := offset + d.1;
        data := data + [d.0];
        JoinLaws(ParseDatas(types[i + 1..], b[offset..]), found, [d.0]);
        found := found + [d.0];
      }
      assert types[|types|..] == [];
      ParseDatasEnd(b[offset..]);
      JoinEnd(found, b[offset..]);
      return Ok(offset);
    }
  }

  /** The result of Marshal and what the buffer then holds: inside the buffer, a prefix of the encoding. */
  ghost predicate Marshalled(e: Entry, r: Outcome<nat>, now: bytes) {
    && r == e.MarshalResult(|now|)
    && (r.Ok? && r.value <= |now| ==>
          e.Encode().Ok? && r.value <= |e.Encode().value| && now[..r.value] == e.Encode().value[..r.value])
  }

  lemma MarshalSteps(e: Entry, room: nat)
    ensures e.MarshalResult(room) ==
            if |e.Fixed()| > room then Panic else BodyResult(e.key, e.data, e.table.keyLength, |e.Fixed()|, room)
    ensures |e.Fixed()| == (if e.withLocalUpdateID then 4 else 0) + if e.withExpiry then 4 else 0
  {
    hide BE32, DataResult, Key.MarshalResult;
  }

  /** Key and data written behind the fixed fields make up the whole encoding. */
  lemma MarshalledWhole(e: Entry, r: Outcome<nat>, now: bytes)
    requires |e.Fixed()| <= |now|
    requires r == e.MarshalResult(|now|)
    requires r.Ok? && r.value <= |now| ==> BodyWritten(e.key, e.data, e.table.keyLength, e.Fixed(), now[..r.value])
    ensures Marshalled(e, r, now)
  {
    hide BE32, Entry.MarshalResult, Entry.Fixed, Key.Encode, EncodeData;
    if r.Ok? && r.value <= |now| {
      var body := e.key.Encode(e.table.keyLength).value + EncodeData(e.data);
      assert (e.Fixed() + body)[..r.value] == e.Fixed() + body[..r.value - |e.Fixed()|];
    }
  }

  /** now is prefix and a prefix of key and data. */
  ghost predicate BodyWritten(key: Key, data: seq<Data>, keyLength: u64, prefix: bytes, now: bytes) {
    var k := key.Encode(keyLength);
    && k.Ok?
    && |prefix| <= |now| <= |prefix| + |k.value| + |EncodeData(data)|
    && now == prefix + (k.value + EncodeData(data))[..|now| - |prefix|]
  }

  function BodyResult(key: Key, data: seq<Data>, keyLength: u64, offset: nat, room: nat): Outcome<nat>
    requires offset <= room
  {
    var n :- key.MarshalResult(keyLength, room - offset);
    DataResult(data, offset + n, room)
  }

  /** Key and then data, from offset on; the result is the end offset in b. */
  method MarshalBody(key: Key, data: seq<Data>, keyLength: u64, b: array<byte>, offset: nat) returns (r: Outcome<nat>)
    requires offset <= b.Length && key.Valid() && forall d <- data :: d.Valid()
    modifies b
    ensures r == BodyResult(key, data, keyLength, offset, b.Length)
    ensures r.Ok? && r.value <= b.Length ==> BodyWritten(key, data, keyLength, old(b[..offset]), b[..r.value])
  {
    hide Key.Encode, Key.MarshalResult, EncodeData, DataResult, BodyWritten;
    ghost var prefix := b[..offset];
    var n :- MarshalKey(key, b, offset, keyLength);
    ghost var w := b[..Min(offset + n, b.Length)];
    r := MarshalDatas(data, b, offset + n);
    if r.Ok? && r.value <= b.Length {
      BodyDone(key, data, keyLength, prefix, w, b[..r.value], b.Length, n);
    }
  }

  lemma BodyDone(key: Key, data: seq<Data>, keyLength: u64, prefix: bytes, w: bytes, now: bytes, room: nat, n: nat)
    requires key.Valid() && |prefix| + n <= room
    requires key.MarshalResult(keyLength, room - |prefix|) == Ok(n)
    requires key.Encode(keyLength).Ok? && n <= |key.Encode(keyLength).value|
    requires w == prefix + key.Encode(keyLength).value[..n]
    requires DataResult(data, |prefix| + n, room) == Ok(|now|) && now == w + EncodeData(data)
    ensures BodyWritten(key, data, keyLength, prefix, now)
  {
    hide Key.Encode, Key.MarshalResult, EncodeData, DataResult;
    var k := key.Encode(keyLength).value;
    DataTotal(data, |prefix| + n, room);
    if n == |k| {
      assert k[..n] == k;
      WholeBody(prefix, k, EncodeData(data), now);
    } else {
      CutKeyLeavesNoRoom(key, keyLength, room - |prefix|);
      NoData(|prefix| + n, room);
      assert EncodeData(data) == [];
      CutBody(prefix, k, n, now);
    }
  }

  lemma WholeBody(prefix: bytes, k: bytes, d: bytes, now: bytes)
    requires now == prefix + k + d
    ensures now == prefix + (k + d)[..|now| - |prefix|]
  {
    assert (k + d)[..|k| + |d|] == k + d;
  }

  lemma CutBody(prefix: bytes, k: bytes, n: nat, now: bytes)
    requires n <= |k| && now == prefix + k[..n] + []
    ensures now == prefix + (k + [])[..|now| - |prefix|]
  {
    assert (k + [])[..n] == k[..n];
  }

  /** Only a string key is cut, and then it fills the buffer. */
  lemma CutKeyLeavesNoRoom(key: Key, keyLength: u64, room: nat)
    requires key.Valid() && key.MarshalResult(keyLength, room).Ok? && key.Encode(keyLength).Ok?
    requires key.MarshalResult(keyLength, room).value <= room
    requires key.MarshalResult(keyLength, room).value < |key.Encode(keyLength).value|
    ensures key.StringKey? && key.MarshalResult(keyLength, room).value == room
  {
    hide Enc, BE32;
  }

  method MarshalDatas(data: seq<Data>, b: array<byte>, at: nat) returns (r: Outcome<nat>)
    requires forall d <- data :: d.Valid()
    modifies b
    ensures r == DataResult(data, at, b.Length)
    ensures r.Ok? && r.value <= b.Length ==> at <= r.value && b[..r.value] == old(b[..Min(at, b.Length)]) + EncodeData(data)
  {
    hide Data.Encode, Data.Numbers, EncodeData, DataResult;
    ghost var prefix, done := b[..Min(at, b.Length)], [];
    var offset: nat := at;
    for i := 0 to |data|
      invariant DataResult(data, at, b.Length) == DataResult(data[i..], offset, b.Length)
      invariant EncodeData(data) == done + EncodeData(data[i..])
      invariant offset <= b.Length ==> at <= offset && b[..offset] == prefix + done
    {
      DataStep(data, i, offset, b.Length);
      if offset > b.Length {
        return Panic;
      }
      ghost var w := b[..offset];
      var n :- MarshalData(data[i], b, offset);
      offset := offset + n;
      if offset <= b.Length {
        Extended(w, b[..offset], prefix, done, data[i].Encode());
      }
      done := done + data[i].Encode();
    }
    assert data[|data|..] == [];
    NoData(offset, b.Length);
    return Ok(offset);
  }

  lemma DataStep(data: seq<Data>, i: nat, offset: nat, room: nat)
    requires i < |data|
    ensures EncodeData(data[i..]) == data[i].Encode() + EncodeData(data[i + 1..])
    ensures DataResult(data[i..], offset, room) ==
            if offset > room then Panic
            else if |data[i].Numbers()| > room - offset then Error
            else DataResult(data[i + 1..], offset + |data[i].Encode()|, room)
  {
    hide Data.Encode, Data.Numbers;
    assert data[i..][1..] == data[i + 1..];
  }

  function Join(ds: seq<Data>, r: Outcome<(seq<Data>, bytes)>): Outcome<(seq<Data>, bytes)> {
    match r
    case Ok((found, rest)) => Ok((ds + found, rest))
    case _ => r
  }

  lemma JoinLaws(r: Outcome<(seq<Data>, bytes)>, a: seq<Data>, b: seq<Data>)
    ensures Join([], r) == r
    ensures Join(a, Join(b, r)) == Join(a + b, r)
  {
    match r
    case Ok((found, rest)) =>
      assert [] + found == found && a + (b + found) == a + b + found;
    case _ =>
  }

  lemma JoinEnd(ds: seq<Data>, rest: bytes)
    ensures Join(ds, Ok(([], rest))) == Ok((ds, rest))
  {
    assert ds + [] == ds;
  }

  lemma ParseDatasStep(types: seq<DataTypeDefinition>, b: bytes)
    requires types != []
    ensures ParseDatas(types, b) ==
            match DataKindOf(types[0].dataType)
            case None => Error
            case Some(kind) =>
              match ParseData(kind, b)
              case Ok((d, b1)) => Join([d], ParseDatas(types[1..], b1))
              case Error => Error
              case Panic => Panic
  {
    hide DataKindOf, ParseData;
  }

  lemma ParseDatasEnd(b: bytes)
    ensures ParseDatas([], b) == Ok(([], b))
  {
  }
}
