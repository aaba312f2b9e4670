/** SPOE messages: a name, a declared entry count, and entries (pkg/encoding/messagescanner.go). */
module MessageScanners {
  import opened Common
  import opened Varints
  import opened Encoding
  import opened KeyValue
  import opened KVScanners

  // ---------- specification ----------

  datatype Msg = Msg(name: bytes, entries: seq<Pair>) {
    predicate Valid() {
      GoLength(name) && |entries| < 256 && AllValid(entries)
    }

    function Encode(): bytes
      requires |entries| < 256
    {
      EncBytes(name) + [|entries|] + EncodePairs(entries)
    }
  }

  predicate AllMsgsValid(ms: seq<Msg>) {
    forall m <- ms :: m.Valid()
  }

  function EncodeMsgs(ms: seq<Msg>): bytes
    requires AllMsgsValid(ms)
  {
    if ms == [] then [] else
      assert ms[0].Valid();
      ms[0].Encode() + EncodeMsgs(ms[1..])
  }

  /** A message header and the bytes after it. */
  datatype Head = Head(name: bytes, count: byte, rest: bytes) | NoMore | BadHead | HeadCrash

  function HeadStep(buf: bytes): (h: Head)
    ensures h.Head? ==> |h.rest| < |buf| && h.rest == buf[|buf| - |h.rest|..]
    ensures h.NoMore? <==> buf == []
  {
    if buf == [] then NoMore
    else
      match DecBytes(buf)
      case Error => BadHead
      case Panic => HeadCrash
      case Ok((name, n)) =>
        var b := buf[n..];
        if b == [] then HeadCrash else Head(name, b[0], b[1..])
  }

  /** n entries from the front of buf, and what is left unread; None when one of them does not scan. */
  function ScanN(buf: bytes, n: nat): (r: Option<(seq<Entry>, bytes)>)
    ensures r.Some? ==> |r.value.1| <= |buf|
  {
    if n == 0 then Some(([], buf))
    else
      var s := ScanStep(buf);
      if !s.Scanned? then None
      else
        match ScanN(s.rest, n - 1)
        case None => None
        case Some((es, rest)) => Some(([s.entry] + es, rest))
  }

  /** A caller that reads, from every message, as many entries as it declares. */
  function ReadDeclared(buf: bytes): (r: Option<seq<(bytes, seq<Entry>)>>)
    decreases |buf|
  {
    match HeadStep(buf)
    case NoMore => Some([])
    case Head(name, count, rest) =>
      (match ScanN(rest, count)
       case None => None
       case Some((es, unread)) =>
         match ReadDeclared(unread)
         case None => None
         case Some(more) => Some([(name, es)] + more))
    case _ => None
  }

  /** Every header a peer may send: cut inside the length it is an error, cut anywhere behind it a panic. */
  lemma HeadOutcome(buf: bytes)
    requires buf != []
    ensures match Dec(buf)
            case Ok((l, n)) =>
              if l > |buf| - n - 1 then HeadStep(buf) == HeadCrash
              else HeadStep(buf) == Head(buf[n..n + l], buf[n + l], buf[n + l + 1..])
            case _ => HeadStep(buf) == BadHead
  {
    hide Dec;
    match Dec(buf)
    case Ok((l, n)) =>
      if l <= |buf| - n {
        assert buf[n..][..l] == buf[n..n + l] && buf[n + l..] == buf[n..][l..];
        if buf[n + l..] != [] {
          assert buf[n + l..][0] == buf[n + l] && buf[n + l..][1..] == buf[n + l + 1..];
        }
      }
    case _ =>
  }

  lemma HeadRoundTrip(m: Msg, rest: bytes)
    requires m.Valid()
    ensures HeadStep(m.Encode() + rest) == Head(m.name, |m.entries|, EncodePairs(m.entries) + rest)
  {
    hide Enc, EncBytes, DecBytes;
    var tail := [|m.entries|] + (EncodePairs(m.entries) + rest);
    assert m.Encode() + rest == EncBytes(m.name) + tail;
    BytesRoundTrip(m.name, tail);
    assert tail[1..] == EncodePairs(m.entries) + rest;
  }

  lemma {:induction false} ScanNRoundTrip(ps: seq<Pair>, rest: bytes)
    requires AllValid(ps)
    ensures ScanN(EncodePairs(ps) + rest, |ps|) == Some((EntriesOf(ps), rest))
  {
    hide ScanStep, Pair.Encode, EntryOf;
    if ps == [] {
      assert [] + rest == rest;
    } else {
      var tail := EncodePairs(ps[1..]) + rest;
      assert EncodePairs(ps) + rest == ps[0].Encode() + tail;
      PairRoundTrip(ps[0], tail);
      ScanNRoundTrip(ps[1..], rest);
    }
  }

  /** What a caller should see of each message: its name and its entries. */
  function Contents(ms: seq<Msg>): seq<(bytes, seq<Entry>)> {
    if ms == [] then [] else [(ms[0].name, EntriesOf(ms[0].entries))] + Contents(ms[1..])
  }

  /** Reading the declared number of entries from each message returns them all and ends cleanly. */
  lemma {:induction false} MessagesRoundTrip(ms: seq<Msg>)
    requires AllMsgsValid(ms)
    ensures ReadDeclared(EncodeMsgs(ms)) == Some(Contents(ms))
  {
    hide HeadStep, ScanN, Msg.Encode, EntriesOf, EncodePairs;
    if ms == [] {
      assert HeadStep([]) == NoMore;
    } else {
      var rest := EncodeMsgs(ms[1..]);
      HeadRoundTrip(ms[0], rest);
      ScanNRoundTrip(ms[0].entries, rest);
      MessagesRoundTrip(ms[1..]);
    }
  }

  // ---------- the scanner ----------

  class Message {
    var KV: KVScanner?
    var name: bytes
    var kvEntryCount: byte

    constructor ()
      ensures KV == null
    {
      KV, name, kvEntryCount := null, [], 0;
    }
  }

  class MessageScanner {
    var lastErr: bool
    var buf: bytes

    constructor (b: bytes)
      ensures buf == b && !lastErr
    {
      buf, lastErr := b, false;
    }

    /**
     * Resumes where the message's nested scanner stopped, by remaining length, and reads
     * the next header. The new nested scanner covers everything after that header.
     */
    method Next(m: Message) returns (r: Outcome<bool>)
      modifies this, m
      ensures old(m.KV) != null && |old(m.KV.buf)| > |old(buf)| ==> r == Panic
      ensures old(m.KV) == null || |old(m.KV.buf)| <= |old(buf)| ==>
                var unread := if old(m.KV) == null then 0 else |old(buf)| - |old(m.KV.buf)|;
                match HeadStep(old(buf)[unread..])
                case Head(name, count, rest) =>
                  && r == Ok(true) && buf == rest && lastErr == old(lastErr)
                  && m.name == name && m.kvEntryCount == count
                  && m.KV != null && fresh(m.KV) && m.KV.buf == rest && m.KV.left == count && !m.KV.lastErr
                case NoMore => r == Ok(false) && buf == [] && m.KV == null && lastErr == old(lastErr)
                case BadHead => r == Ok(false) && m.KV == null && lastErr
                case HeadCrash => r == Panic
    {
      hide DecBytes;
      if m.KV != null {
        if m.KV.RemainingBuf() > |buf| {
          return Panic;
        }
        buf := buf[|buf| - m.KV.RemainingBuf()..];
        m.KV := null;
      } else {
        assert buf[0..] == buf;
      }
      if |buf| == 0 {
        return Ok(false);
      }
      var name := TakeBytes(buf);
      if !name.Ok? {
        lastErr := name.Error? || lastErr;
        return if name.Error? then Ok(false) else Panic;
      }
      m.name, buf := name.value.0, name.value.1;
      if |buf| == 0 {
        return Panic;
      }
      m.kvEntryCount := buf[0];
      buf := buf[1..];
      m.KV := new KVScanner(buf, m.kvEntryCount);
      return Ok(true);
    }
  }

  // ---------- the caller's loop ----------

  /**
   * A caller that reads from each message as many entries as it declares, through the nested
   * scanner, sees exactly what ReadDeclared says; None when a read fails, errs or panics.
   */
  method ReadMessages(content: bytes) returns (r: Option<seq<(bytes, seq<Entry>)>>)
    ensures r == ReadDeclared(content)
  {
    hide ScanStep, HeadStep, ReadDeclared, ScanN;
    var s := new MessageScanner(content);
    var m := new Message();
    var seen: seq<(bytes, seq<Entry>)> := [];
    ghost var unread := content;
    Before([], ReadDeclared(content));
    assert content[0..] == content;
    while true
      invariant fresh(s) && fresh(m) && !s.lastErr && (m.KV == null || fresh(m.KV))
      invariant m.KV == null || |m.KV.buf| <= |s.buf|
      invariant unread == s.buf[if m.KV == null then 0 else |s.buf| - |m.KV.buf|..]
      invariant ReadDeclared(content) == Prepend(seen, ReadDeclared(unread))
      decreases |unread|
    {
      var more := s.Next(m);
      ReadDeclaredStep(unread);
      if more != Ok(true) {
        Before(seen, Some([]));
        return if more == Ok(false) && !s.lastErr then Some(seen) else None;
      }
      var es, whole := ReadEntries(m.KV, m.kvEntryCount);
      if !whole {
        return None;
      }
      Ahead(seen, (m.name, es), ReadDeclared(m.KV.buf));
      seen := seen + [(m.name, es)];
      unread := m.KV.buf;
    }
  }

  /** n entries, if all n reads give one; the scanner is left with a suffix of what it had. */
  method ReadEntries(kv: KVScanner, n: nat) returns (es: seq<Entry>, whole: bool)
    modifies kv
    ensures match ScanN(old(kv.buf), n)
            case Some((read, rest)) => whole && es == read && kv.buf == rest
            case None => !whole
    ensures whole ==> |kv.buf| <= |old(kv.buf)| && kv.buf == old(kv.buf)[|old(kv.buf)| - |kv.buf|..]
  {
    hide ScanStep, ScanN;
    es, whole := [], true;
    var e := new KVEntry();
    ghost var start, err := kv.buf, kv.lastErr;
    BeforeN([], ScanN(start, n));
    for i := 0 to n
      invariant ReadTurns(start, err, i) == Some((kv.buf, kv.lastErr))
      invariant ScanN(start, n) == PrependN(es, ScanN(kv.buf, n - i))
    {
      ScanNStep(kv.buf, n - i);
      ghost var here := kv.buf;
      var more := kv.Next(e);
      if more != Ok(true) {
        return es, false;
      }
      AheadN(es, e.View(), ScanN(kv.buf, n - i - 1));
      es := es + [e.View()];
    }
    ScanNNone(kv.buf);
    BeforeN(es, Some(([], kv.buf)));
    ReadTurnsLeaveSuffix(start, err, n);
  }

  function Prepend(seen: seq<(bytes, seq<Entry>)>, r: Option<seq<(bytes, seq<Entry>)>>): Option<seq<(bytes, seq<Entry>)>> {
    if r.Some? then Some(seen + r.value) else None
  }

  lemma Before(seen: seq<(bytes, seq<Entry>)>, r: Option<seq<(bytes, seq<Entry>)>>)
    ensures Prepend([], r) == r && Prepend(seen, Some([])) == Some(seen)
  {
    if r.Some? {
      assert [] + r.value == r.value;
    }
    assert seen + [] == seen;
  }

  lemma Ahead(seen: seq<(bytes, seq<Entry>)>, m: (bytes, seq<Entry>), r: Option<seq<(bytes, seq<Entry>)>>)
    ensures Prepend(seen, Prepend([m], r)) == Prepend(seen + [m], r)
  {
    if r.Some? {
      assert seen + ([m] + r.value) == seen + [m] + r.value;
    }
  }

  lemma ReadDeclaredStep(buf: bytes)
    ensures ReadDeclared(buf) ==
            match HeadStep(buf)
            case NoMore => Some([])
            case Head(name, count, rest) =>
              (match ScanN(rest, count)
               case None => None
               case Some((es, unread)) => Prepend([(name, es)], ReadDeclared(unread)))
            case _ => None
  {
    hide HeadStep, ScanN;
  }

  function PrependN(es: seq<Entry>, r: Option<(seq<Entry>, bytes)>): Option<(seq<Entry>, bytes)> {
    if r.Some? then Some((es + r.value.0, r.value.1)) else None
  }

  lemma BeforeN(es: seq<Entry>, r: Option<(seq<Entry>, bytes)>)
    ensures PrependN([], r) == r
    ensures r.Some? && r.value.0 == [] ==> PrependN(es, r) == Some((es, r.value.1))
  {
    if r.Some? {
      assert [] + r.value.0 == r.value.0 && es + [] == es;
    }
  }

  lemma AheadN(es: seq<Entry>, e: Entry, r: Option<(seq<Entry>, bytes)>)
    ensures PrependN(es, PrependN([e], r)) == PrependN(es + [e], r)
  {
    if r.Some? {
      assert es + ([e] + r.value.0) == es + [e] + r.value.0;
    }
  }

  lemma ScanNStep(buf: bytes, n: nat)
    requires n > 0
    ensures ScanN(buf, n) ==
            match ScanStep(buf)
            case Scanned(e, rest) => PrependN([e], ScanN(rest, n - 1))
            case _ => None
  {
    hide ScanStep;
  }

  lemma ScanNNone(buf: bytes)
    ensures ScanN(buf, 0) == Some(([], buf))
  {
  }
}
