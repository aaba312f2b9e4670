/** The sender of table definitions and entry updates (peers/writer.go). */
module PeerWriter {
  import opened Common
  import opened Streams
  import opened Varints
  import opened Encoding
  import opened TableValues
  import opened StickTables
  import opened EntryUpdates
  import opened PeerMessages

  const ENTRY_ROOM: nat := 65536
  const DEFINITION_ROOM: nat := 4096

  // ---------- specification ----------

  /** One send and what it puts on the stream: an ID comes with every entry. */
  datatype Sent = Sent(wire: bytes, result: Outcome<()>)

  function NextID(id: u32): u32 {
    (id + 1) % TWO_32
  }

  /** The entry as it is marshalled: always with an ID, the one assigned by the writer. */
  function Numbered(e: Entry, id: u32): Entry {
    e.(withLocalUpdateID := true, localUpdateID := id)
  }

  function EntryType(e: Entry): byte {
    if e.withExpiry then UPDATE_TIMED else ENTRY_UPDATE
  }

  function DefinitionMessage(d: TableDef): Raw {
    Raw(CLASS_UPDATES, TABLE_DEFINITION, d.Encode())
  }

  function SwitchMessage(tableID: u64): Raw {
    Raw(CLASS_UPDATES, TABLE_SWITCH, Enc(tableID))
  }

  /** The entry fits the writer's scratch buffer whole. */
  predicate Fits(e: Entry, id: u32) {
    Numbered(e, id).Encode().Ok? && |Numbered(e, id).Encode().value| <= ENTRY_ROOM
  }

  function EntryMessage(e: Entry, id: u32): Raw {
    Raw(CLASS_UPDATES, EntryType(e), Numbered(e, id).Encode().GetOr([]))
  }

  /** The bytes of an entry under an update ID: the ID, the expiry if it has one, its key and its data. */
  function EntryBytes(e: Entry, id: u32): Outcome<bytes> {
    var k :- e.key.Encode(e.table.keyLength);
    Ok(BE32(id) + (if e.withExpiry then BE32(e.expiry) else []) + (k + EncodeData(e.data)))
  }

  lemma NumberedBytes(e: Entry, id: u32)
    ensures Numbered(e, id).Encode() == EntryBytes(e, id)
  {
    hide BE32, EncodeData, Key.Encode;
  }

  /** The message one entry becomes in the scratch buffer; nothing is sent on an error or a panic. */
  function RawFor(e: Entry, id: u32): Outcome<Raw> {
    var v := Numbered(e, id);
    var n :- v.MarshalResult(ENTRY_ROOM);
    if n > ENTRY_ROOM || !v.Encode().Ok? || n > |v.Encode().value| then Panic
    else Ok(Raw(CLASS_UPDATES, EntryType(e), v.Encode().value[..n]))
  }

  function SendOne(e: Entry, id: u32): Sent {
    match RawFor(e, id)
    case Ok(m) => Sent(m.Wire(), Ok(()))
    case Error => Sent([], Error)
    case Panic => Sent([], Panic)
  }

  /** The ID is four bytes whatever it is, so it does not matter for success. */
  lemma RawForAnyID(e: Entry, id: u32)
    ensures match RawFor(e, 0)
            case Ok(_) => RawFor(e, id).Ok?
            case f => RawFor(e, id) == f
  {
    hide BE32, EncodeData, Key.Encode, Key.MarshalResult, DataResult;
  }

  lemma RawForSendable(e: Entry, id: u32)
    requires RawFor(e, id).Ok?
    ensures RawFor(e, id).value.Sendable()
  {
    hide Entry.Encode, Entry.MarshalResult;
  }

  /** The loop of SendEntry over a list, which stops at the first failure. */
  function SendAll(es: seq<Entry>, id: u32): Sent {
    if es == [] then Sent([], Ok(()))
    else
      var first := SendOne(es[0], id);
      if !first.result.Ok? then first
      else
        var more := SendAll(es[1..], NextID(id));
        Sent(first.wire + more.wire, more.result)
  }

  /** IDs used up by a loop of SendEntry: one an attempt, the failing one included. */
  function IDsUsed(es: seq<Entry>, id: u32): nat {
    if es == [] then 0
    else if !SendOne(es[0], id).result.Ok? then 1
    else 1 + IDsUsed(es[1..], NextID(id))
  }

  function Advance(id: u32, n: nat): u32 {
    (id + n) % TWO_32
  }

  /** An entry that matches its table and fits the buffer is sent whole. */
  lemma SendOneWhole(e: Entry, id: u32)
    requires e.Valid() && e.MatchesTable() && Fits(e, id)
    ensures SendOne(e, id) == Sent(EntryMessage(e, id).Wire(), Ok(()))
    ensures EntryMessage(e, id).Sendable()
    ensures EntryBytes(e, id).Ok? && EntryMessage(e, id) == Raw(CLASS_UPDATES, if e.withExpiry then 133 else 128, EntryBytes(e, id).value)
  {
    hide EntryBytes, Entry.Encode, Entry.MarshalResult, Entry.Fixed, Raw.Wire, DataMatches, Key.Fits, KeyKindOf;
    var v := Numbered(e, id);
    assert v.Valid() && v.MatchesTable();
    MarshalFits(v, ENTRY_ROOM);
    NumberedBytes(e, id);
    var s := v.Encode().value;
    assert s[..|s|] == s;
  }

  /** A reader finds the table ID in a switch message, and the next message behind it. */
  lemma SwitchReadBack(tableID: u64, rest: bytes)
    ensures match ReadRaw(SwitchMessage(tableID).Wire() + rest)
            case Got(m, left) =>
              left == rest && m.cls == CLASS_UPDATES && m.msgType == TABLE_SWITCH && Dec(m.data) == Ok((tableID, |m.data|))
            case _ => false
  {
    hide Enc, Dec, Raw.Wire, ReadRaw;
    LengthBound(tableID);
    ReadBack(SwitchMessage(tableID), rest);
    RoundTrip(tableID, []);
    assert Enc(tableID) + [] == Enc(tableID);
  }

  /**
   * A batch that meets an entry it cannot marshal: what came before it is on the stream and
   * nothing else, its failure is the result, and its ID is gone too.
   */
  lemma {:induction false} BatchStops(es: seq<Entry>, k: nat, id: u32)
    requires k < |es| && !RawFor(es[k], 0).Ok?
    requires forall i :: 0 <= i < k ==> RawFor(es[i], 0).Ok?
    ensures SendAll(es[..k], id).result == Ok(()) && IDsUsed(es[..k], id) == k
    ensures SendAll(es, id).wire == SendAll(es[..k], id).wire && IDsUsed(es, id) == k + 1
    ensures SendAll(es, id).result == if RawFor(es[k], 0).Error? then Error else Panic
    decreases k
  {
    hide RawFor, NextID, Raw.Wire;
    RawForAnyID(es[0], id);
    if k > 0 {
      assert es[..k][1..] == es[1..][..k - 1] && es[..k][0] == es[0];
      BatchStops(es[1..], k - 1, NextID(id));
    } else {
      assert es[..0] == [];
    }
  }

  // ---------- which entries panic ----------

  /** Bytes of the update ID and the expiry. */
  function FixedSize(e: Entry): nat {
    if e.withExpiry then 8 else 4
  }

  /** Data value i starts behind the given offset so that its numbers still fit and its value does not. */
  predicate Overruns(ds: seq<Data>, i: nat, offset: nat, room: nat) {
    && i < |ds|
    && var at := offset + |EncodeData(ds[..i])|;
    at + |ds[i].Numbers()| <= room < at + |ds[i].Encode()|
  }

  ghost predicate SomeOverruns(ds: seq<Data>, offset: nat, room: nat) {
    exists i: nat :: Overruns(ds, i, offset, room)
  }

  /**
   * The entries that make marshalling into the scratch buffer panic: a nil key, an IPv4 key without
   * an IPv4 address where one is wanted, a binary key in a table whose key length exceeds the room
   * left, or a dictionary value of which only the numbers fit.
   */
  ghost predicate Unmarshallable(e: Entry) {
    var room := ENTRY_ROOM - FixedSize(e);
    || e.key.NilKey?
    || (e.key.ForeignIPv4Key? && e.table.keyLength == 4)
    || (e.key.BinaryKey? && e.table.keyLength > room)
    || (e.key.Encode(e.table.keyLength).Ok? &&
        var k := |e.key.Encode(e.table.keyLength).value|;
        k <= room && SomeOverruns(e.data, FixedSize(e) + k, ENTRY_ROOM))
  }

  lemma OverrunsFirst(ds: seq<Data>, i: nat, offset: nat, room: nat)
    requires ds != [] && 0 < i
    ensures Overruns(ds, i, offset, room) <==> Overruns(ds[1..], i - 1, offset + |ds[0].Encode()|, room)
  {
    hide Data.Encode, Data.Numbers;
    if i < |ds| {
      assert ds[..i][1..] == ds[1..][..i - 1] && ds[1..][i - 1] == ds[i];
    }
  }

  lemma NumbersWithin(d: Data)
    ensures |d.Numbers()| <= |d.Encode()|
  {
    hide Enc;
  }

  /** Past the end of the buffer nothing overruns any more. */
  lemma NoOverrunBeyond(ds: seq<Data>, i: nat, offset: nat, room: nat)
    requires offset > room
    ensures !Overruns(ds, i, offset, room)
  {
    hide Data.Encode, Data.Numbers;
  }

  /** The data loop leaves the buffer, by a panic or with an offset past its end, exactly when some value overruns it. */
  lemma {:induction false} DataOverrunIff(ds: seq<Data>, offset: nat, room: nat)
    requires offset <= room
    ensures var r := DataResult(ds, offset, room);
            r.Panic? || (r.Ok? && r.value > room) <==> SomeOverruns(ds, offset, room)
  {
    hide Data.Encode, Data.Numbers, Overruns;
    if ds == [] {
      NoneOverruns(offset, room);
    } else {
      var next := offset + |ds[0].Encode()|;
      FirstOverrun(ds, offset, room);
      NumbersWithin(ds[0]);
      forall i: nat | 0 < i
        ensures Overruns(ds, i, offset, room) <==> Overruns(ds[1..], i - 1, next, room)
      {
        OverrunsFirst(ds, i, offset, room);
      }
      if next > room {
        forall i: nat
          ensures !Overruns(ds[1..], i, next, room)
        {
          NoOverrunBeyond(ds[1..], i, next, room);
        }
      } else {
        DataOverrunIff(ds[1..], next, room);
        forall i: nat | Overruns(ds[1..], i, next, room)
          ensures Overruns(ds, i + 1, offset, room)
        {
          OverrunsFirst(ds, i + 1, offset, room);
        }
      }
    }
  }

  lemma FirstOverrun(ds: seq<Data>, offset: nat, room: nat)
    requires ds != []
    ensures Overruns(ds, 0, offset, room) <==> offset + |ds[0].Numbers()| <= room < offset + |ds[0].Encode()|
  {
    hide Data.Encode, Data.Numbers;
    assert EncodeData(ds[..0]) == [];
  }

  lemma NoneOverruns(offset: nat, room: nat)
    ensures !SomeOverruns([], offset, room)
  {
  }

  /** Marshalling an entry panics if and only if the entry is one of these, whatever the ID. */
  lemma PanicIff(e: Entry, id: u32)
    requires e.Valid()
    ensures RawFor(e, id).Panic? <==> Unmarshallable(e)
  {
    hide BE32, Enc, EncBytes, DataResult, SomeOverruns, EncodeData, Key.MarshalResult, Key.Encode, Entry.Encode, Entry.MarshalResult;
    var v := Numbered(e, id);
    var room := ENTRY_ROOM - FixedSize(e);
    MarshalSteps(v, ENTRY_ROOM);
    KeyOutcome(e.key, e.table.keyLength, room);
    match e.key.MarshalResult(e.table.keyLength, room)
    case Ok(n) =>
      EncodedSize(v);
      DataOverrunIff(e.data, FixedSize(e) + n, ENTRY_ROOM);
      if DataResult(e.data, FixedSize(e) + n, ENTRY_ROOM).Ok? {
        DataTotal(e.data, FixedSize(e) + n, ENTRY_ROOM);
      }
      if n == room {
        FullBufferStops(e.data, ENTRY_ROOM);
      }
    case _ =>
  }

  /** The result of a key by its kind, as far as the panic goes. */
  lemma KeyOutcome(k: Key, keySize: u64, room: nat)
    requires k.Valid() && room >= 16
    ensures var r := k.MarshalResult(keySize, room);
            && (r.Panic? <==> k.NilKey? || (k.ForeignIPv4Key? && keySize == 4) || (k.BinaryKey? && keySize > room))
            && (r.Error? ==> !k.Encode(keySize).Ok? || |k.Encode(keySize).value| > room)
            && (r.Ok? ==> k.Encode(keySize).Ok? && r.value <= room && r.value <= |k.Encode(keySize).value|)
            && (r.Ok? && r.value < |k.Encode(keySize).value| ==> r.value == room)
  {
    hide Enc;
  }

  lemma EncodedSize(e: Entry)
    requires e.key.Encode(e.table.keyLength).Ok?
    ensures e.Encode().Ok? && |e.Encode().value| == |e.Fixed()| + |e.key.Encode(e.table.keyLength).value| + |EncodeData(e.data)|
  {
    hide Key.Encode, EncodeData, BE32;
  }

  /** In a full buffer the first number is refused. */
  lemma FullBufferStops(ds: seq<Data>, room: nat)
    ensures DataResult(ds, room, room) == if ds == [] then Ok(room) else Error
  {
    hide Enc;
    if ds != [] {
      NumbersNonEmpty(ds[0]);
    }
  }

  /** A table with a large key length and an empty binary key are enough. */
  lemma LongKeyPanics(id: u32)
    ensures RawFor(Entry(TableDef([], [], 7, 0, 70000, 0), BinaryKey([]), [], false, 0, false, 0), id) == Panic
  {
    hide RawFor;
    PanicIff(Entry(TableDef([], [], 7, 0, 70000, 0), BinaryKey([]), [], false, 0, false, 0), id);
  }

  lemma SentPanics(e: Entry, id: u32)
    ensures SendOne(e, id).result.Panic? <==> RawFor(e, id).Panic?
  {
    hide RawFor;
  }

  /** An update whose key was never set panics in every table. */
  lemma NilKeyPanics(table: TableDef, data: seq<Data>, withExpiry: bool, expiry: u32, id: u32)
    requires forall d <- data :: d.Valid()
    ensures RawFor(Entry(table, NilKey, data, false, 0, withExpiry, expiry), id) == Panic
  {
    hide RawFor;
    PanicIff(Entry(table, NilKey, data, false, 0, withExpiry, expiry), id);
  }

  // ---------- the writer ----------

  /** locked is the mutex: a call made while it is locked waits. */
  class Writer {
    const bw: BufferedWriter
    const buf: array<byte>
    var nextUpdateID: u32
    var locked: bool

    constructor ()
      ensures fresh(bw) && fresh(buf) && buf.Length == ENTRY_ROOM
      ensures nextUpdateID == 0 && bw.Stream() == [] && !locked
    {
      bw := new BufferedWriter(65536);
      buf := new byte[ENTRY_ROOM](_ => 0);
      nextUpdateID, locked := 0, false;
    }

    method Flush()
      requires !locked
      modifies this`locked, bw
      ensures !locked && bw.flushed == old(bw.Stream()) && bw.pending == []
    {
      locked := true;
      bw.Flush();
      locked := false;
    }

    method WriteMessage(cls: byte, msgType: byte, data: bytes)
      requires !locked && GoLength(data)
      modifies this`locked, bw
      ensures !locked && bw.Stream() == old(bw.Stream()) + Raw(cls, msgType, data).Wire()
    {
      locked := true;
      WriteMessageLocked(cls, msgType, data);
      locked := false;
    }

    method WriteMessageLocked(cls: byte, msgType: byte, data: bytes)
      requires locked && GoLength(data)
      modifies bw
      ensures bw.Stream() == old(bw.Stream()) + Raw(cls, msgType, data).Wire()
    {
      hide Enc, EncBytes;
      var lenBuf := new byte[10](_ => 0);
      var lenBytes := 0;
      if msgType >= 128 {
        LengthBound(|data|);
        var n := PutVarint(lenBuf, 0, |data|);
        lenBytes := n.value;
        assert lenBuf[..lenBytes] == Enc(|data|);
        EncBytesParts(data);
      }
      ghost var before := bw.Stream();
      bw.Write([cls, msgType]);
      if lenBytes > 0 {
        bw.Write(lenBuf[..lenBytes]);
      }
      if |data| > 0 {
        bw.Write(data);
      }
      WireParts(before, Raw(cls, msgType, data));
    }

    /** A definition of more than 4096 bytes is refused and nothing is written. */
    method SendTableDefinition(def: Definition) returns (r: Outcome<()>)
      requires !locked && GoLength(def.name)
      modifies this`locked, bw
      ensures !locked
      ensures var d := def.View();
              if |d.Encode()| <= DEFINITION_ROOM
              then r == Ok(()) && bw.flushed == old(bw.Stream()) + DefinitionMessage(d).Wire() && bw.pending == []
              else r == Error && bw.flushed == old(bw.flushed) && bw.pending == old(bw.pending)
    {
      hide TableDef.Encode, Raw.Wire;
      var scratch := new byte[DEFINITION_ROOM](_ => 0);
      var n :- def.Marshal(scratch, 0);
      assert scratch[..n] == def.View().Encode();
      WriteMessage(CLASS_UPDATES, TABLE_DEFINITION, scratch[..n]);
      Flush();
      return Ok(());
    }

    method SendTableSwitch(tableID: u64)
      requires !locked
      modifies this`locked, bw
      ensures !locked
      ensures bw.flushed == old(bw.Stream()) + SwitchMessage(tableID).Wire() && bw.pending == []
    {
      hide Enc, Raw.Wire;
      var scratch := new byte[10](_ => 0);
      LengthBound(tableID);
      var n := PutVarint(scratch, 0, tableID);
      assert scratch[..n.value] == Enc(tableID);
      WriteMessage(CLASS_UPDATES, TABLE_SWITCH, scratch[..n.value]);
      Flush();
    }

    /**
     * Takes an ID, marshals, writes and flushes. The ID is gone even when marshalling fails. Every
     * return unlocks, but a panic does not.
     */
    method SendEntry(entry: EntryUpdate) returns (r: Outcome<()>)
      requires !locked && buf.Length == ENTRY_ROOM && entry.View().Valid()
      modifies this, bw, buf
      ensures nextUpdateID == NextID(old(nextUpdateID))
      ensures var s := SendOne(old(entry.View()), old(nextUpdateID));
              && r == s.result
              && (if r.Ok? then bw.flushed == old(bw.Stream()) + s.wire && bw.pending == []
                  else bw.flushed == old(bw.flushed) && bw.pending == old(bw.pending))
      ensures locked <==> Unmarshallable(old(entry.View()))
    {
      hide SendOne, NextID, Unmarshallable, RawFor;
      SentPanics(entry.View(), nextUpdateID);
      PanicIff(entry.View(), nextUpdateID);
      locked := true;
      r := WriteEntry(entry);
      if r.Panic? {
        return;
      }
      if r.Error? {
        locked := false;
        return;
      }
      bw.Flush();
      locked := false;
    }

    /** The body shared by SendEntry and the loop of SendEntries. */
    method WriteEntry(entry: EntryUpdate) returns (r: Outcome<()>)
      requires locked && buf.Length == ENTRY_ROOM && entry.View().Valid()
      modifies this`nextUpdateID, bw, buf
      ensures nextUpdateID == NextID(old(nextUpdateID))
      ensures var s := SendOne(old(entry.View()), old(nextUpdateID));
              && r == s.result
              && bw.Stream() == old(bw.Stream()) + s.wire
              && (!r.Ok? ==> bw.flushed == old(bw.flushed) && bw.pending == old(bw.pending))
    {
      hide Entry.MarshalResult, Entry.Encode, Raw.Wire;
      var updateID := nextUpdateID;
      nextUpdateID := (nextUpdateID + 1) % TWO_32;
      var msgType := if entry.withExpiry then UPDATE_TIMED else ENTRY_UPDATE;
      ghost var v := Numbered(entry.View(), updateID);
      var offset := MarshalEntry(buf, entry, updateID);
      assert bw.Stream() + [] == bw.Stream();
      if offset.IsFailure() {
        return offset.PropagateFailure();
      }
      if offset.value > buf.Length {
        return Panic;
      }
      var data := buf[..offset.value];
      assert data == v.Encode().value[..offset.value];
      WriteMessageLocked(CLASS_UPDATES, msgType, data);
      return Ok(());
    }

    /** One batch: the same bytes as the loop of SendEntry, flushed once at the end. The unlock is deferred. */
    method SendEntries(entries: seq<EntryUpdate>) returns (r: Outcome<()>)
      requires !locked && buf.Length == ENTRY_ROOM
      requires forall e <- entries :: e.View().Valid()
      modifies this, bw, buf
      ensures var es := old(Views(entries));
              && r == SendAll(es, old(nextUpdateID)).result
              && nextUpdateID == Advance(old(nextUpdateID), IDsUsed(es, old(nextUpdateID)))
              && bw.Stream() == old(bw.Stream()) + SendAll(es, old(nextUpdateID)).wire
              && (r.Ok? ==> bw.pending == [])
      ensures !locked
    {
      hide SendOne, SendAll, IDsUsed, Views, NextID;
      locked := true;
      ghost var es, id0, stream := Views(entries), nextUpdateID, bw.Stream();
      ghost var done: bytes := [];
      assert es[0..] == es && stream + done == stream;
      for i := 0 to |entries|
        invariant locked && Views(entries) == es && nextUpdateID == Advance(id0, i)
        invariant SendAll(es, id0).wire == done + SendAll(es[i..], nextUpdateID).wire
        invariant SendAll(es, id0).result == SendAll(es[i..], nextUpdateID).result
        invariant IDsUsed(es, id0) == i + IDsUsed(es[i..], nextUpdateID)
        invariant bw.Stream() == stream + done
      {
        ViewsAt(entries, i);
        SendAllStep(es, i, nextUpdateID);
        AdvanceStep(id0, i);
        ghost var piece := SendOne(es[i], nextUpdateID).wire;
        r := WriteEntry(entries[i]);
        if !r.Ok? {
          locked := false;
          return;
        }
        Regroup(done, piece, SendAll(es[i + 1..], nextUpdateID).wire);
        done := done + piece;
      }
      assert es[|es|..] == [];
      SendAllEnd(nextUpdateID);
      bw.Flush();
      locked := false;
      return Ok(());
    }
  }

  /** marshalEntry: the bytes of Marshal for the same entry with its ID present and set to updateID. */
  method MarshalEntry(buf: array<byte>, entry: EntryUpdate, updateID: u32) returns (r: Outcome<nat>)
    requires entry.View().Valid()
    modifies buf
    ensures Marshalled(Numbered(entry.View(), updateID), r, buf[..])
    ensures r.Ok? && r.value <= buf.Length ==>
              var k := entry.key.Encode(entry.stickTable.keyLength);
              k.Ok? &&
              var all := BE32(updateID) + (if entry.withExpiry then BE32(entry.expiry) else []) + (k.value + EncodeData(entry.data));
              r.value <= |all| && buf[..r.value] == all[..r.value]
  {
    hide BE32, Key.Encode, EncodeData, Entry.Encode, Entry.MarshalResult, BodyResult;
    ghost var e := Numbered(entry.View(), updateID);
    MarshalSteps(e, buf.Length);
    var offset := 0;
    if offset + 4 > buf.Length {
      return Panic;
    }
    PutUint32(buf, offset, updateID);
    offset := offset + 4;
    if entry.withExpiry {
      if offset + 4 > buf.Length {
        return Panic;
      }
      PutUint32(buf, offset, entry.expiry);
      offset := offset + 4;
    }
    assert buf[..offset] == e.Fixed();
    r := MarshalBody(entry.key, entry.data, entry.stickTable.keyLength, buf, offset);
    MarshalledWhole(e, r, buf[..]);
    NumberedBytes(entry.View(), updateID);
    assert r.Ok? && r.value <= buf.Length ==> buf[..][..r.value] == buf[..r.value];
  }

  function Views(entries: seq<EntryUpdate>): (es: seq<Entry>)
    reads entries, set e <- entries :: e.stickTable
    ensures |es| == |entries|
  {
    if entries == [] then [] else [entries[0].View()] + Views(entries[1..])
  }

  lemma {:induction false} ViewsAt(entries: seq<EntryUpdate>, i: nat)
    requires i < |entries|
    ensures Views(entries)[i] == entries[i].View()
  {
    if i > 0 {
      ViewsAt(entries[1..], i - 1);
    }
  }

  lemma SendAllStep(es: seq<Entry>, i: nat, id: u32)
    requires i < |es|
    ensures var first := SendOne(es[i], id);
            && SendAll(es[i..], id) ==
                 (if !first.result.Ok? then first
                  else Sent(first.wire + SendAll(es[i + 1..], NextID(id)).wire, SendAll(es[i + 1..], NextID(id)).result))
            && IDsUsed(es[i..], id) == 1 + if first.result.Ok? then IDsUsed(es[i + 1..], NextID(id)) else 0
  {
    hide SendOne;
    assert es[i..][1..] == es[i + 1..];
  }

  lemma SendAllEnd(id: u32)
    ensures SendAll([], id) == Sent([], Ok(())) && IDsUsed([], id) == 0
  {
  }

  lemma AdvanceStep(id: u32, i: nat)
    ensures NextID(Advance(id, i)) == Advance(id, i + 1)
  {
  }

  lemma WireParts(before: bytes, m: Raw)
    requires GoLength(m.data)
    ensures before + m.Wire() ==
            if m.msgType < 128 then before + [m.cls, m.msgType] + m.data
            else before + [m.cls, m.msgType] + Enc(|m.data|) + m.data
  {
    hide Enc, EncBytes;
    EncBytesParts(m.data);
  }
}
