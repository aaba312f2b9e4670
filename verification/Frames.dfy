/** SPOP frames on the wire (spop/frame.go, spop/frames.go). */
module Frames {
  import opened Common
  import opened Streams
  import opened Varints
  import opened Encoding
  import opened KeyValue
  import opened KVWriters
  import opened ActionWriters
  import opened SliceBuffers

  const HAPROXY_HELLO: byte := 1
  const HAPROXY_DISCONNECT: byte := 2
  const NOTIFY: byte := 3
  const AGENT_HELLO: byte := 101
  const AGENT_DISCONNECT: byte := 102
  const ACK: byte := 103

  const FLAG_FIN: u32 := 1

  /** Initial buffer size and limit before the handshake. */
  const INITIAL_LIMIT: nat := 65535

  // ---------- specification ----------

  datatype FrameView = FrameView(frameType: byte, flags: u32, streamID: u64, frameID: u64, content: bytes) {
    function Header(): (h: bytes)
      ensures |h| >= 5
    {
      [frameType] + BE32(flags) + Enc(streamID) + Enc(frameID)
    }

    /** Length of the frame as its length field counts it. */
    function Size(): nat {
      |Header()| + |content|
    }

    function Wire(): bytes
      requires Size() < TWO_32
    {
      BE32(Size()) + (Header() + content)
    }
  }

  /** What readFrom finds: CleanEnd is an end of input that the read loop takes for a closed connection. */
  datatype FrameRead = GotFrame(f: FrameView, rest: bytes) | CleanEnd | FrameError | FramePanic

  function ReadFrame(b: bytes, limit: u32): (r: FrameRead)
    ensures r.GotFrame? ==> |r.rest| + 4 <= |b|
  {
    if b == [] then CleanEnd
    else if |b| < 4 then FrameError
    else
      var n := FromBE32(b);
      var body := b[4..];
      if n > limit then FrameError
      else if n > 0 && body == [] then CleanEnd
      else if n > |body| then FrameError
      else
        match DecodeFrame(body[..n])
        case Ok(f) => GotFrame(f, body[n..])
        case Error => FrameError
        case Panic => FramePanic
  }

  /** Header and content of a frame body; a body shorter than the fixed part panics. */
  function DecodeFrame(p: bytes): (r: Outcome<FrameView>) {
    if |p| < 5 then Panic
    else
      var (streamID, p1) :- ParseNumber(p[5..], false);
      var (frameID, content) :- ParseNumber(p1, false);
      Ok(FrameView(p[0], FromBE32(p[1..]), streamID, frameID, content))
  }

  lemma DecodeBack(f: FrameView)
    ensures DecodeFrame(f.Header() + f.content) == Ok(f)
  {
    hide Enc, BE32, FromBE32, ParseNumber;
    var ids := Enc(f.streamID) + (Enc(f.frameID) + f.content);
    var p := [f.frameType] + (BE32(f.flags) + ids);
    assert f.Header() + f.content == p;
    assert p[1..] == BE32(f.flags) + ids;
    BE32RoundTrip(f.flags, ids);
    assert p[5..] == p[1..][4..];
    NumberRoundTrip(f.streamID, Enc(f.frameID) + f.content, false);
    NumberRoundTrip(f.frameID, f.content, false);
  }

  /** A frame within the limit is read back field by field, with exactly its content. */
  lemma FrameRoundTrip(f: FrameView, limit: u32, rest: bytes)
    requires f.Size() <= limit
    ensures ReadFrame(f.Wire() + rest, limit) == GotFrame(f, rest)
  {
    hide BE32, FromBE32, DecodeFrame, FrameView.Header;
    var p := f.Header() + f.content;
    assert f.Wire() + rest == BE32(f.Size()) + (p + rest);
    BE32RoundTrip(f.Size(), p + rest);
    DropPrefix(p, rest);
    DecodeBack(f);
  }

  /** A frame beyond the limit is refused whatever follows. */
  lemma FrameTooLong(f: FrameView, limit: u32, rest: bytes)
    requires limit < f.Size() < TWO_32
    ensures ReadFrame(f.Wire() + rest, limit) == FrameError
  {
    hide BE32, FromBE32, FrameView.Header;
    assert f.Wire() + rest == BE32(f.Size()) + (f.Header() + f.content + rest);
    BE32RoundTrip(f.Size(), f.Header() + f.content + rest);
  }

  /** Whatever is accepted is within the limit. */
  lemma AcceptedWithinLimit(b: bytes, limit: u32)
    requires ReadFrame(b, limit).GotFrame?
    ensures var n := |b| - |ReadFrame(b, limit).rest| - 4;
            5 <= n <= limit && |ReadFrame(b, limit).f.content| <= n
  {
    hide FromBE32, ParseNumber;
  }

  /** The frames that make readFrom panic: complete ones whose length is below that of the fixed part. */
  predicate TooShort(b: bytes, limit: u32) {
    |b| >= 4 && FromBE32(b) <= limit && FromBE32(b) < 5 && FromBE32(b) <= |b| - 4
  }

  lemma PanicIffTooShort(b: bytes, limit: u32)
    ensures ReadFrame(b, limit).FramePanic? <==> TooShort(b, limit)
  {
    hide FromBE32, ParseNumber;
  }

  lemma HeaderBound(f: FrameView)
    ensures 7 <= |f.Header()| <= 25
  {
    hide Enc;
    LengthBound(f.streamID);
    LengthBound(f.frameID);
  }

  // ---------- frames in memory ----------

  /** The writing end of a connection. */
  class Conn {
    var out: bytes

    constructor ()
      ensures out == []
    {
      out := [];
    }

    method Write(p: bytes)
      modifies this
      ensures out == old(out) + p
    {
      out := out + p;
    }
  }

  class Frame {
    const buf: SliceBuffer
    const length: array<byte>
    var frameType: byte
    var flags: u32
    var streamID: u64
    var frameID: u64

    constructor ()
      ensures Reset() && fresh(buf) && fresh(buf.buf) && fresh(length)
    {
      buf := new SliceBuffer(INITIAL_LIMIT);
      length := new byte[4](_ => 0);
      frameType, flags, streamID, frameID := 0, 0, 0, 0;
    }

    ghost predicate Valid()
      reads this, buf
    {
      buf.Valid() && length.Length == 4 && buf.buf != length && buf.buf.Length >= INITIAL_LIMIT
    }

    /** As acquireFrame hands it out: nothing written and nothing read. */
    ghost predicate Reset()
      reads this, buf
    {
      Valid() && buf.readOffset == buf.writeOffset == 0
    }

    ghost function View(): FrameView
      requires Valid() && buf.readOffset <= buf.writeOffset
      reads this, buf, buf.buf
    {
      FrameView(frameType, flags, streamID, frameID, buf.Unread())
    }

    /** readFrom: Ok(false) stands for an end of input that counts as a closed connection. */
    method ReadFrom(rd: ByteReader, limit: u32) returns (r: Outcome<bool>)
      requires Valid()
      modifies this, buf, buf.buf, length, rd
      ensures buf.buf == old(buf.buf) || fresh(buf.buf)
      ensures Valid()
      ensures match ReadFrame(old(rd.data), limit)
              case GotFrame(f, rest) => r == Ok(true) && buf.readOffset <= buf.writeOffset && View() == f && rd.data == rest
              case CleanEnd => r == Ok(false)
              case FrameError => r == Error
              case FramePanic => r == Panic
    {
      hide FromBE32, DecodeFrame;
      if rd.data == [] {
        return Ok(false);
      }
      var header := rd.ReadFull(4);
      if !header.Ok? {
        return Error;
      }
      var copied := Copy(length, 0, header.value);
      ReadLength(old(rd.data), header.value);
      var frameLen := FromBE32(header.value);
      if frameLen > limit {
        return Error;
      }
      buf.Reset();
      buf.Grow(frameLen);
      var start := buf.WriteNBytes(frameLen);
      if frameLen > 0 && rd.data == [] {
        return Ok(false);
      }
      var payload := rd.ReadFull(frameLen);
      if !payload.Ok? {
        return Error;
      }
      copied := Copy(buf.buf, start, payload.value);
      assert payload.value[..frameLen] == payload.value;
      assert buf.buf[..frameLen] == payload.value;
      var decoded := DecodeHeader();
      return if decoded.Ok? then Ok(true) else if decoded.Error? then Error else Panic;
    }

    /**
     * Reads the fixed part even when the frame is shorter than it; the slice taken next then
     * panics.
     */
    method DecodeHeader() returns (r: Outcome<()>)
      requires Valid() && buf.readOffset == 0
      modifies this, buf`readOffset
      ensures Valid() && buf.buf == old(buf.buf) && buf.writeOffset == old(buf.writeOffset)
      ensures match DecodeFrame(old(buf.buf[..buf.writeOffset]))
              case Ok(f) => r == Ok(()) && buf.readOffset <= buf.writeOffset && View() == f
              case Error => r == Error
              case Panic => r == Panic
    {
      hide FromBE32, ParseNumber;
      ghost var p := buf.buf[..buf.writeOffset];
      var t := buf.ReadNBytes(1);
      frameType := t[0];
      var word := buf.ReadNBytes(4);
      flags := FromBE32(word);
      var b := buf.ReadBytes();
      if !b.Ok? {
        return Panic;
      }
      FlagsWord(p, word);
      assert b.value == p[5..];
      r := DecodeIDs(b.value);
    }

    /** Stream ID and frame ID, from the unread bytes. */
    method DecodeIDs(unread: bytes) returns (r: Outcome<()>)
      requires Valid() && buf.readOffset <= buf.writeOffset && unread == buf.Unread()
      modifies this`streamID, this`frameID, buf`readOffset
      ensures Valid() && buf.readOffset <= buf.writeOffset
      ensures match ParseNumber(unread, false)
              case Ok((s, b1)) =>
                (match ParseNumber(b1, false)
                 case Ok((i, rest)) => r == Ok(()) && streamID == s && frameID == i && buf.Unread() == rest
                 case _ => r == Error)
              case _ => r == Error
    {
      hide ParseNumber;
      assert unread[0..] == unread;
      var id := VarintAt(unread, 0);
      if !id.Ok? {
        return Error;
      }
      streamID := id.value.0;
      buf.AdvanceR(id.value.1);
      var b := buf.ReadBytes();
      assert b.value == unread[id.value.1..];
      assert b.value[0..] == b.value;
      id := VarintAt(b.value, 0);
      if !id.Ok? {
        return Error;
      }
      frameID := id.value.0;
      buf.AdvanceR(id.value.1);
      assert buf.Unread() == b.value[id.value.1..];
      return Ok(());
    }

    /** encodeHeader into a fresh frame: it always fits the buffer. */
    method EncodeHeader() returns (r: Outcome<()>)
      requires Reset()
      modifies buf, buf.buf
      ensures Valid() && buf.buf == old(buf.buf) && buf.readOffset == 0
      ensures r == Ok(()) && buf.Unread() == FrameView(frameType, flags, streamID, frameID, []).Header()
    {
      hide Enc, BE32;
      LengthBound(streamID);
      LengthBound(frameID);
      var at := buf.WriteNBytes(1);
      buf.buf[at] := frameType;
      at := buf.WriteNBytes(4);
      PutUint32(buf.buf, at, flags);
      assert buf.buf[..5] == [frameType] + BE32(flags);
      var n := PutVarint(buf.buf, buf.writeOffset, streamID);
      buf.AdvanceW(n.value);
      n := PutVarint(buf.buf, buf.writeOffset, frameID);
      buf.AdvanceW(n.value);
      return Ok(());
    }

    /** writeTo: length, the buffered bytes and, if there is one, a separate payload. */
    method WriteTo(w: Conn, payload: bytes) returns (r: Outcome<()>)
      requires Valid() && buf.readOffset <= buf.writeOffset
      modifies w, length
      ensures var n := |buf.Unread()| + |payload|;
              if n < TWO_32
              then r == Ok(()) && w.out == old(w.out) + (BE32(n) + (old(buf.Unread()) + payload))
              else r == Error && w.out == old(w.out)
    {
      hide BE32;
      var frameLen := buf.Len() + |payload|;
      if frameLen >= TWO_32 {
        return Error;
      }
      ghost var before, unread := w.out, buf.Unread();
      PutUint32(length, 0, frameLen);
      assert length[..] == length[..4];
      w.Write(length[..]);
      var b := buf.ReadBytes();
      w.Write(b.value);
      if |payload| > 0 {
        w.Write(payload);
      }
      WriteParts(before, BE32(frameLen), unread, payload);
      return Ok(());
    }
  }

  lemma WriteParts(before: bytes, a: bytes, b: bytes, c: bytes)
    ensures before + a + b + c == before + (a + (b + c))
    ensures c == [] ==> before + a + b == before + (a + (b + c))
  {
  }

  lemma ReadLength(b: bytes, header: bytes)
    requires |b| >= 4 && header == b[..4]
    ensures FromBE32(header) == FromBE32(b)
  {
  }

  lemma FlagsWord(p: bytes, word: bytes)
    requires |p| >= 5 && word == p[1..5]
    ensures FromBE32(word) == FromBE32(p[1..])
  {
  }

  // ---------- frames an agent sends ----------

  function AckView(streamID: u64, frameID: u64, acts: seq<Action>): FrameView {
    FrameView(ACK, FLAG_FIN, streamID, frameID, EncodeActions(acts))
  }

  /**
   * AckFrame.writeTo with an acquired frame. The callback is given by the actions it performs and
   * whether it returns nil. The acknowledgement is written exactly when it does and the frame is
   * within the limit, whether or not the action writer had to leave the frame's own buffer.
   */
  method WriteAck(f: Frame, w: Conn, limit: u32, streamID: u64, frameID: u64, acts: seq<Action>, succeeds: bool)
    returns (r: Outcome<()>)
    requires f.Reset() && forall a <- acts :: a.Valid()
    modifies f, f.buf, f.buf.buf, f.length, w
    ensures var v := AckView(streamID, frameID, acts);
            if succeeds && v.Size() <= limit
            then r == Ok(()) && w.out == old(w.out) + v.Wire()
            else r == Error && w.out == old(w.out)
    ensures f.Valid() && f.buf.buf == old(f.buf.buf)
  {
    hide FrameView.Header, EncodeActions, BE32, ActionWriter.Bytes, Action.Valid;
    f.frameType, f.frameID, f.streamID, f.flags := ACK, frameID, streamID, FLAG_FIN;
    var encoded := f.EncodeHeader();
    ghost var header := f.buf.Unread();
    HeaderOnly(AckView(streamID, frameID, acts));
    var aw := new ActionWriter(f.buf.buf, f.buf.writeOffset, 0);
    NoBytesYet(aw);
    aw.PerformAll(acts);
    Untouched(aw, f.buf, header);
    var payload := Payload(aw);
    assert [] + EncodeActions(acts) == EncodeActions(acts);
    if !succeeds {
      return Error;
    }
    var frameLen := f.buf.Len() + aw.off;
    if frameLen > limit {
      return Error;
    }
    r := f.WriteTo(w, payload);
  }

  method Payload(aw: ActionWriter) returns (b: bytes)
    requires aw.Valid()
    ensures b == aw.Bytes() && |b| == aw.off
  {
    b := aw.Bytes();
  }

  lemma NoBytesYet(aw: ActionWriter)
    requires aw.Valid() && aw.off == 0
    ensures aw.Bytes() == []
  {
  }

  /** The header in front of the writer's slice is as it was. */
  lemma Untouched(aw: ActionWriter, b: SliceBuffer, header: bytes)
    requires aw.Valid() && b.Valid() && b.readOffset == 0
    requires aw.home == b.buf && aw.homeBase == b.writeOffset && aw.homePrefix == header
    ensures b.Unread() == header
  {
  }

  lemma HeaderOnly(v: FrameView)
    ensures v.(content := []).Header() == v.Header()
  {
  }

  /** The receiver of an acknowledgement recovers its IDs, flags and exactly the actions performed. */
  lemma AckReadBack(streamID: u64, frameID: u64, acts: seq<Action>, limit: u32, rest: bytes)
    requires AckView(streamID, frameID, acts).Size() <= limit && forall a <- acts :: a.Valid()
    ensures var v := AckView(streamID, frameID, acts);
            && ReadFrame(v.Wire() + rest, limit) == GotFrame(v, rest)
            && (match ParseActions(v.content)
                case Some(got) => AllUnderstood(acts, got)
                case None => false)
  {
    hide ReadFrame, FrameView.Size, FrameView.Wire, ParseActions, EncodeActions, Action.Valid, AllUnderstood;
    FrameRoundTrip(AckView(streamID, frameID, acts), limit, rest);
    ActionsRoundTrip(acts);
  }

  // ASCII names and texts
  /** "version" */
  const NAME_VERSION: bytes := [118, 101, 114, 115, 105, 111, 110]
  /** "max-frame-size" */
  const NAME_MAX_FRAME_SIZE: bytes := [109, 97, 120, 45, 102, 114, 97, 109, 101, 45, 115, 105, 122, 101]
  /** "capabilities" */
  const NAME_CAPABILITIES: bytes := [99, 97, 112, 97, 98, 105, 108, 105, 116, 105, 101, 115]
  /** "engine-id" */
  const NAME_ENGINE_ID: bytes := [101, 110, 103, 105, 110, 101, 45, 105, 100]
  /** "healthcheck" */
  const NAME_HEALTHCHECK: bytes := [104, 101, 97, 108, 116, 104, 99, 104, 101, 99, 107]
  /** "status-code" */
  const NAME_STATUS_CODE: bytes := [115, 116, 97, 116, 117, 115, 45, 99, 111, 100, 101]
  /** "message" */
  const NAME_MESSAGE: bytes := [109, 101, 115, 115, 97, 103, 101]
  /** "2.0" */
  const VERSION_2_0: bytes := [50, 46, 48]

  /** The list in an AGENT-HELLO: version 2.0, the frame size and no capabilities. */
  function HelloPairs(maxFrameSize: u32): (ps: seq<Pair>) {
    [Pair(NAME_VERSION, String(VERSION_2_0)), Pair(NAME_MAX_FRAME_SIZE, UInt32(maxFrameSize)), Pair(NAME_CAPABILITIES, String([]))]
  }

  function HelloView(maxFrameSize: u32): FrameView {
    FrameView(AGENT_HELLO, FLAG_FIN, 0, 0, EncodePairs(HelloPairs(maxFrameSize)))
  }

  /** The list in an AGENT-DISCONNECT; message is the text of the error code. */
  function DisconnectPairs(code: u32, message: bytes): seq<Pair> {
    [Pair(NAME_STATUS_CODE, UInt32(code)), Pair(NAME_MESSAGE, String(message))]
  }

  function DisconnectView(code: u32, message: bytes): FrameView {
    FrameView(AGENT_DISCONNECT, FLAG_FIN, 0, 0, EncodePairs(DisconnectPairs(code, message)))
  }

  lemma {:induction false} PairsSize(ps: seq<Pair>)
    requires AllValid(ps)
    requires forall p <- ps :: p.value.String? || p.value.UInt32?
    ensures |EncodePairs(ps)| <= 31 * |ps| + TextSize(ps)
  {
    hide Enc, EncBytes;
    if ps != [] {
      var p := ps[0];
      assert p in ps && p.Valid();
      PairsSize(ps[1..]);
      EncBytesParts(p.name);
      LengthBound(|p.name|);
      if p.value.String? {
        EncBytesParts(p.value.text);
        LengthBound(|p.value.text|);
      } else {
        LengthBound(p.value.u32);
      }
    }
  }

  /** Bytes of names and texts. */
  function TextSize(ps: seq<Pair>): nat {
    if ps == [] then 0 else |ps[0].name| + (if ps[0].value.String? then |ps[0].value.text| else 0) + TextSize(ps[1..])
  }

  lemma ThreePairsSize(p: Pair, q: Pair, r: Pair)
    requires AllValid([p, q, r])
    requires forall x <- [p, q, r] :: x.value.String? || x.value.UInt32?
    ensures |EncodePairs([p, q, r])| <= 93 + TextSize([p]) + TextSize([q]) + TextSize([r])
  {
    hide EncodePairs, AllValid;
    PairsSize([p, q, r]);
    assert [p, q, r][1..] == [q, r] && [q, r][1..] == [r] && [r][1..] == [] && [q][1..] == [] && [p][1..] == [];
  }

  lemma HelloSize(maxFrameSize: u32)
    ensures AllValid(HelloPairs(maxFrameSize)) && |EncodePairs(HelloPairs(maxFrameSize))| <= 200
  {
    hide EncodePairs;
    var ps := HelloPairs(maxFrameSize);
    assert ps == [ps[0], ps[1], ps[2]];
    ThreePairsSize(ps[0], ps[1], ps[2]);
  }

  lemma DisconnectSize(code: u32, message: bytes)
    requires |message| <= 1000
    ensures AllValid(DisconnectPairs(code, message)) && |EncodePairs(DisconnectPairs(code, message))| <= 1200
  {
    hide EncodePairs;
    var ps := DisconnectPairs(code, message);
    PairsSize(ps);
    assert ps[1..][1..] == [];
    assert TextSize(ps[1..]) == 7 + |message|;
  }

  /** Header and list into the frame's own buffer, where they always fit. */
  method FillList(f: Frame, frameType: byte, ps: seq<Pair>)
    requires f.Reset() && AllValid(ps) && |EncodePairs(ps)| <= 1200
    modifies f, f.buf, f.buf.buf
    ensures f.Valid() && f.buf.buf == old(f.buf.buf) && f.buf.readOffset <= f.buf.writeOffset
    ensures var v := FrameView(frameType, FLAG_FIN, 0, 0, EncodePairs(ps));
            f.buf.Unread() == v.Header() + v.content
  {
    hide FrameView.Header, EncodePairs, BE32, AllValid;
    f.frameType, f.frameID, f.streamID, f.flags := frameType, 0, 0, FLAG_FIN;
    ghost var v := FrameView(frameType, FLAG_FIN, 0, 0, EncodePairs(ps));
    HeaderOnly(v);
    HeaderBound(v);
    var encoded := f.EncodeHeader();
    var kvw := new KVWriter(f.buf.buf, f.buf.writeOffset, 0);
    assert kvw.Written() == v.Header();
    var stored := kvw.SetAll(ps);
    assert kvw.Written() == v.Header() + v.content;
    f.buf.AdvanceW(kvw.off);
  }

  /** What the two frames share: header, then the list in the frame's own buffer. */
  method WriteList(f: Frame, w: Conn, frameType: byte, ps: seq<Pair>) returns (r: Outcome<()>)
    requires f.Reset() && AllValid(ps) && |EncodePairs(ps)| <= 1200
    modifies f, f.buf, f.buf.buf, f.length, w
    ensures var v := FrameView(frameType, FLAG_FIN, 0, 0, EncodePairs(ps));
            r == Ok(()) && v.Size() <= 1300 && w.out == old(w.out) + v.Wire()
    ensures f.Valid() && f.buf.buf == old(f.buf.buf)
  {
    hide FrameView.Header, EncodePairs, BE32, AllValid;
    ghost var v := FrameView(frameType, FLAG_FIN, 0, 0, EncodePairs(ps));
    HeaderBound(v);
    FillList(f, frameType, ps);
    assert v.Header() + v.content + [] == v.Header() + v.content;
    r := f.WriteTo(w, []);
  }

  /** AgentHelloFrame.WriteTo */
  method WriteHello(f: Frame, w: Conn, maxFrameSize: u32) returns (r: Outcome<()>)
    requires f.Reset()
    modifies f, f.buf, f.buf.buf, f.length, w
    ensures var v := HelloView(maxFrameSize);
            r == Ok(()) && v.Size() <= 1300 && w.out == old(w.out) + v.Wire()
    ensures f.Valid() && f.buf.buf == old(f.buf.buf)
  {
    hide HelloPairs, EncodePairs, FrameView.Header, BE32;
    HelloSize(maxFrameSize);
    r := WriteList(f, w, AGENT_HELLO, HelloPairs(maxFrameSize));
  }

  /** AgentDisconnectFrame.WriteTo */
  method WriteDisconnect(f: Frame, w: Conn, code: u32, message: bytes) returns (r: Outcome<()>)
    requires f.Reset() && |message| <= 1000
    modifies f, f.buf, f.buf.buf, f.length, w
    ensures var v := DisconnectView(code, message);
            r == Ok(()) && v.Size() <= 1300 && w.out == old(w.out) + v.Wire()
    ensures f.Valid() && f.buf.buf == old(f.buf.buf)
  {
    hide DisconnectPairs, EncodePairs, FrameView.Header, BE32;
    DisconnectSize(code, message);
    r := WriteList(f, w, AGENT_DISCONNECT, DisconnectPairs(code, message));
  }

  /** HAProxy reads the negotiated size back out of an AGENT-HELLO. */
  lemma HelloReadBack(maxFrameSize: u32, limit: u32, rest: bytes)
    requires HelloView(maxFrameSize).Size() <= limit
    ensures ReadFrame(HelloView(maxFrameSize).Wire() + rest, limit) == GotFrame(HelloView(maxFrameSize), rest)
    ensures var (es, end) := ScanAll(HelloView(maxFrameSize).content);
            && end == Exhausted && |es| == 3
            && es[0].name == NAME_VERSION && es[0].Value() == Ok(String(VERSION_2_0))
            && es[1].name == NAME_MAX_FRAME_SIZE && es[1].Value() == Ok(UInt32(maxFrameSize))
            && es[2].name == NAME_CAPABILITIES && es[2].Value() == Ok(String([]))
  {
    hide ReadFrame, FrameView.Size, FrameView.Wire, ScanAll, EncodePairs, Entry.Value, EntriesOf, AllValid;
    FrameRoundTrip(HelloView(maxFrameSize), limit, rest);
    HelloSize(maxFrameSize);
    PairsRoundTrip(HelloPairs(maxFrameSize));
    EntriesCarryPairs(HelloPairs(maxFrameSize), 0);
    EntriesCarryPairs(HelloPairs(maxFrameSize), 1);
    EntriesCarryPairs(HelloPairs(maxFrameSize), 2);
  }

  /** And the code and its text out of an AGENT-DISCONNECT. */
  lemma DisconnectReadBack(code: u32, message: bytes, limit: u32, rest: bytes)
    requires |message| <= 1000 && DisconnectView(code, message).Size() <= limit
    ensures match ReadFrame(DisconnectView(code, message).Wire() + rest, limit)
            case GotFrame(f, left) =>
              var (es, end) := ScanAll(f.content);
              && left == rest && f.frameType == AGENT_DISCONNECT && f.flags == FLAG_FIN && f.streamID == 0 == f.frameID
              && end == Exhausted && |es| == 2
              && es[0].name == NAME_STATUS_CODE && es[0].Value() == Ok(UInt32(code))
              && es[1].name == NAME_MESSAGE && es[1].Value() == Ok(String(message))
            case _ => false
  {
    hide ReadFrame, FrameView.Size, FrameView.Wire, ScanAll, EncodePairs, Entry.Value, EntriesOf, AllValid;
    FrameRoundTrip(DisconnectView(code, message), limit, rest);
    DisconnectSize(code, message);
    PairsRoundTrip(DisconnectPairs(code, message));
    EntriesCarryPairs(DisconnectPairs(code, message), 0);
    EntriesCarryPairs(DisconnectPairs(code, message), 1);
  }

  /** Input that ends inside a frame: clean before its first byte and right behind its length, an error anywhere else. */
  lemma CutFrame(f: FrameView, limit: u32, k: nat)
    requires f.Size() <= limit && k < |f.Wire()|
    ensures ReadFrame(f.Wire()[..k], limit) == if k == 0 || k == 4 then CleanEnd else FrameError
  {
    hide BE32, FromBE32, DecodeFrame, FrameView.Header;
    var p := f.Header() + f.content;
    var b := f.Wire()[..k];
    if k >= 4 {
      assert b == BE32(f.Size()) + p[..k - 4];
      BE32RoundTrip(f.Size(), p[..k - 4]);
    }
  }
}
