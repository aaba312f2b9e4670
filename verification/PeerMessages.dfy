/** Framing of peer protocol messages (peers/constants.go, peers/protocol.go, peers/writer.go). */
module PeerMessages {
  import opened Common
  import opened Streams
  import opened Varints
  import opened Encoding

  const CLASS_CONTROL: byte := 0
  const CLASS_ERROR: byte := 1
  const CLASS_UPDATES: byte := 10

  const SYNC_REQUEST: byte := 0
  const SYNC_PARTIAL: byte := 2
  const HEARTBEAT: byte := 4

  const ENTRY_UPDATE: byte := 128
  const INCREMENTAL_UPDATE: byte := 129
  const TABLE_DEFINITION: byte := 130
  const TABLE_SWITCH: byte := 131
  const UPDATE_ACK: byte := 132
  const UPDATE_TIMED: byte := 133
  const INCREMENTAL_TIMED: byte := 134

  datatype Raw = Raw(cls: byte, msgType: byte, data: bytes) {
    /** What both senders put on the wire: payload and length only for the types from 128 on. */
    predicate Sendable() {
      GoLength(data) && (msgType < 128 ==> data == [])
    }

    function Wire(): (s: bytes)
      ensures |s| >= 2
    {
      [cls, msgType] + if msgType >= 128 then EncBytes(data) else data
    }
  }

  /** What ReadFrom finds at the front of the input. */
  datatype Read = Got(m: Raw, rest: bytes) | EndOfInput | ReadError | ReadPanic

  function ReadRaw(b: bytes): (r: Read)
    ensures r.Got? ==> |r.rest| < |b|
    ensures r.EndOfInput? <==> b == []
  {
    if b == [] then EndOfInput
    else if |b| < 2 then ReadError
    else if b[1] < 128 then Got(Raw(b[0], b[1], []), b[2..])
    else
      match Dec(b[2..])
      case Ok((l, n)) =>
        var payload := b[2..][n..];
        if l > MAX_ALLOC then ReadPanic
        else if l > |payload| then ReadError
        else Got(Raw(b[0], b[1], payload[..l]), payload[l..])
      case _ => ReadError
  }

  /** Reading gives back what was sent and stops at its end. */
  lemma ReadBack(m: Raw, rest: bytes)
    requires m.Sendable()
    ensures ReadRaw(m.Wire() + rest) == Got(m, rest)
  {
    hide Enc, Dec, EncBytes;
    var body := (if m.msgType >= 128 then EncBytes(m.data) else []) + rest;
    var b := [m.cls, m.msgType] + body;
    assert m.Wire() + rest == b;
    assert b[2..] == body;
    if m.msgType < 128 {
      assert body == rest;
    } else {
      var n := |m.data|;
      EncBytesParts(m.data);
      assert body == Enc(n) + (m.data + rest);
      RoundTrip(n, m.data + rest);
      DropPrefix(Enc(n), m.data + rest);
      DropPrefix(m.data, rest);
    }
  }

  /** Input that ends inside a message, behind its first byte, is an error and never a clean end. */
  lemma CutMessage(m: Raw, k: nat)
    requires m.Sendable() && 0 < k < |m.Wire()|
    ensures ReadRaw(m.Wire()[..k]) == ReadError
  {
    hide Enc, Dec, EncBytes;
    var b := m.Wire()[..k];
    if k >= 2 {
      var n := Enc(|m.data|);
      EncBytesParts(m.data);
      assert m.Wire() == [m.cls, m.msgType] + (n + m.data);
      if k - 2 < |n| {
        assert b[2..] == n[..k - 2];
        CutCode(|m.data|, k - 2);
      } else {
        assert b[2..] == n + m.data[..k - 2 - |n|];
        RoundTrip(|m.data|, m.data[..k - 2 - |n|]);
        DropPrefix(n, m.data[..k - 2 - |n|]);
      }
    }
  }

  function WireAll(ms: seq<Raw>): bytes {
    if ms == [] then [] else ms[0].Wire() + WireAll(ms[1..])
  }

  /** All the messages in a byte stream, and the read that ends it. */
  function ReadAll(b: bytes): (r: (seq<Raw>, Read))
    ensures !r.1.Got?
    decreases |b|
  {
    match ReadRaw(b)
    case Got(m, rest) =>
      var (ms, end) := ReadAll(rest);
      ([m] + ms, end)
    case end => ([], end)
  }

  /** A stream of whole messages reads back as exactly those messages. */
  lemma {:induction false} StreamReadsBack(ms: seq<Raw>)
    requires forall m <- ms :: m.Sendable()
    ensures ReadAll(WireAll(ms)) == (ms, EndOfInput)
  {
    hide ReadRaw, Raw.Wire;
    if ms == [] {
      assert ReadRaw([]) == EndOfInput by {
        NothingLeft();
      }
    } else {
      ReadBack(ms[0], WireAll(ms[1..]));
      StreamReadsBack(ms[1..]);
      assert [ms[0]] + ms[1..] == ms;
    }
  }

  lemma NothingLeft()
    ensures ReadRaw([]) == EndOfInput
  {
  }

  lemma {:induction false} WireAllAppend(a: seq<Raw>, b: seq<Raw>)
    ensures WireAll(a + b) == WireAll(a) + WireAll(b)
  {
    hide Raw.Wire;
    if a == [] {
      assert a + b == b;
    } else {
      assert (a + b)[1..] == a[1..] + b;
      WireAllAppend(a[1..], b);
    }
  }

  lemma WireAllSnoc(ms: seq<Raw>, m: Raw)
    ensures WireAll(ms + [m]) == WireAll(ms) + m.Wire()
  {
    hide Raw.Wire;
    WireAllAppend(ms, [m]);
    assert WireAll([m]) == m.Wire() + WireAll([]);
  }

  // ---------- the message struct ----------

  class RawMessage {
    var data: bytes
    var messageClass: byte
    var messageType: byte

    constructor ()
      ensures data == []
    {
      data, messageClass, messageType := [], 0, 0;
    }

    function View(): Raw
      reads this
    {
      Raw(messageClass, messageType, data)
    }

    /** Ok(false) is the clean end of the input, before any byte of a message. */
    method ReadFrom(rd: ByteReader) returns (r: Outcome<bool>)
      requires data == []
      modifies this, rd
      ensures match ReadRaw(old(rd.data))
              case Got(m, rest) => r == Ok(true) && View() == m && rd.data == rest
              case EndOfInput => r == Ok(false)
              case ReadError => r == Error
              case ReadPanic => r == Panic
    {
      hide Dec;
      ghost var b := rd.data;
      if rd.data == [] {
        return Ok(false);
      }
      var header := rd.ReadFull(2);
      if !header.Ok? {
        return Error;
      }
      messageClass, messageType := header.value[0], header.value[1];
      if messageType >= 128 {
        var dataLength := ReadVarint(rd);
        if !dataLength.Ok? {
          return Error;
        }
        if dataLength.value > MAX_ALLOC {
          return Panic;
        }
        var payload := rd.ReadFull(dataLength.value);
        if !payload.Ok? {
          return Error;
        }
        data := payload.value;
      }
      return Ok(true);
    }
  }
}
