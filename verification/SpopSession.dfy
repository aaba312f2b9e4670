/** One SPOP connection: handshake, notifications, disconnect (spop/protocol.go). */
module SpopSession {
  import opened Common
  import opened Streams
  import opened Varints
  import opened Encoding
  import opened KeyValue
  import opened KVScanners
  import opened MessageScanners
  import opened ActionWriters
  import opened SliceBuffers
  import opened Frames

  const MIN_FRAME_SIZE: nat := 256
  const MAX_FRAME_SIZE: nat := 0x7fff_ffff

  // ---------- the handshake ----------

  datatype Settings = Settings(maxFrameSize: u32, engineID: bytes, healthcheck: bool)

  /** The loop over a HAPROXY-HELLO: the settings it leaves and whether every frame size was in range. */
  function ReadSettings(es: seq<Entry>, s: Settings): (Settings, bool) {
    if es == [] then (s, true)
    else if es[0].name == NAME_MAX_FRAME_SIZE then
      var size := ToU32(es[0].intVal);
      var next := s.(maxFrameSize := size);
      if size < MIN_FRAME_SIZE || size > MAX_FRAME_SIZE then (next, false) else ReadSettings(es[1..], next)
    else if es[0].name == NAME_ENGINE_ID then ReadSettings(es[1..], s.(engineID := es[0].byteVal))
    else if es[0].name == NAME_HEALTHCHECK then ReadSettings(es[1..], s.(healthcheck := true))
    else ReadSettings(es[1..], s)
  }

  const NO_SETTINGS := Settings(0, [], false)

  function HelloSettings(content: bytes): Settings {
    ReadSettings(ScanAll(content).0, NO_SETTINGS).0
  }

  /** The handshake succeeds and an AGENT-HELLO is sent. */
  predicate HelloAccepted(content: bytes) {
    ReadSettings(ScanAll(content).0, NO_SETTINGS).1 && ScanAll(content).1.Exhausted? && HelloSettings(content).maxFrameSize != 0
  }

  /** A value that survives the truncation to 32 bits within the allowed range. */
  predicate SizeInRange(e: Entry) {
    MIN_FRAME_SIZE <= ToU32(e.intVal) <= MAX_FRAME_SIZE
  }

  lemma {:induction false} SettingsRange(es: seq<Entry>, s: Settings)
    requires s.maxFrameSize == 0 || MIN_FRAME_SIZE <= s.maxFrameSize <= MAX_FRAME_SIZE
    ensures var (r, ok) := ReadSettings(es, s);
            && (ok <==> forall e <- es :: e.name == NAME_MAX_FRAME_SIZE ==> SizeInRange(e))
            && (ok ==> r.maxFrameSize == 0 || MIN_FRAME_SIZE <= r.maxFrameSize <= MAX_FRAME_SIZE)
            && (ok ==> (r.maxFrameSize == 0 <==> s.maxFrameSize == 0 && forall e <- es :: e.name != NAME_MAX_FRAME_SIZE))
    decreases es
  {
    hide ToU32;
    if es != [] {
      var e, rest := es[0], es[1..];
      assert forall x <- es :: x == e || x in rest;
      assert e in es && forall x <- rest :: x in es;
      if e.name == NAME_MAX_FRAME_SIZE {
        if SizeInRange(e) {
          SettingsRange(rest, s.(maxFrameSize := ToU32(e.intVal)));
        }
      } else if e.name == NAME_ENGINE_ID {
        SettingsRange(rest, s.(engineID := e.byteVal));
      } else if e.name == NAME_HEALTHCHECK {
        SettingsRange(rest, s.(healthcheck := true));
      } else {
        SettingsRange(rest, s);
      }
    }
  }

  /** Exactly the hellos that scan cleanly, name a frame size, and name only sizes in range. */
  lemma HelloAcceptedIff(content: bytes)
    ensures HelloAccepted(content) <==>
              var (es, end) := ScanAll(content);
              && end.Exhausted?
              && (exists e <- es :: e.name == NAME_MAX_FRAME_SIZE)
              && (forall e <- es :: e.name == NAME_MAX_FRAME_SIZE ==> SizeInRange(e))
    ensures HelloAccepted(content) ==> MIN_FRAME_SIZE <= HelloSettings(content).maxFrameSize <= MAX_FRAME_SIZE
  {
    hide ScanAll, ReadSettings, SizeInRange;
    SettingsRange(ScanAll(content).0, NO_SETTINGS);
  }

  /** Entry i is the last one with this name. */
  predicate LastNamed(es: seq<Entry>, i: nat, name: bytes) {
    i < |es| && es[i].name == name && forall j :: i < j < |es| ==> es[j].name != name
  }

  predicate NoneNamed(es: seq<Entry>, name: bytes) {
    forall e <- es :: e.name != name
  }

  lemma NamedTail(es: seq<Entry>, name: bytes)
    requires es != []
    ensures forall i: nat :: LastNamed(es, i, name) ==>
              i < |es| && if i == 0 then es[0].name == name && NoneNamed(es[1..], name) else LastNamed(es[1..], i - 1, name) && es[i] == es[1..][i - 1]
    ensures NoneNamed(es, name) <==> es[0].name != name && NoneNamed(es[1..], name)
    ensures es[0].name == name ==> LastNamed(es, 0, name) || !NoneNamed(es[1..], name)
  {
    var rest := es[1..];
    assert forall x <- es :: x == es[0] || x in rest;
    assert es[0] in es && forall x <- rest :: x in es;
    forall j | 0 <= j < |rest|
      ensures rest[j] == es[j + 1] && rest[j] in rest
    {
    }
  }

  /** The settings that entries leave behind, each by the last entry of its name. */
  ghost predicate LeftBy(es: seq<Entry>, s: Settings, r: Settings) {
    && (forall i: nat :: LastNamed(es, i, NAME_MAX_FRAME_SIZE) ==> r.maxFrameSize == ToU32(es[i].intVal))
    && (NoneNamed(es, NAME_MAX_FRAME_SIZE) ==> r.maxFrameSize == s.maxFrameSize)
    && (forall i: nat :: LastNamed(es, i, NAME_ENGINE_ID) ==> r.engineID == es[i].byteVal)
    && (NoneNamed(es, NAME_ENGINE_ID) ==> r.engineID == s.engineID)
    && (r.healthcheck <==> s.healthcheck || !NoneNamed(es, NAME_HEALTHCHECK))
  }

  lemma LeftByFirst(es: seq<Entry>, s: Settings, next: Settings, r: Settings)
    requires es != [] && LeftBy(es[1..], next, r)
    requires var e := es[0];
             next == if e.name == NAME_MAX_FRAME_SIZE then s.(maxFrameSize := ToU32(e.intVal))
                     else if e.name == NAME_ENGINE_ID then s.(engineID := e.byteVal)
                     else if e.name == NAME_HEALTHCHECK then s.(healthcheck := true)
                     else s
    ensures LeftBy(es, s, r)
  {
    hide ToU32, LastNamed, NoneNamed;
    assert NAME_MAX_FRAME_SIZE != NAME_ENGINE_ID && NAME_MAX_FRAME_SIZE != NAME_HEALTHCHECK && NAME_ENGINE_ID != NAME_HEALTHCHECK by {
      assert |NAME_MAX_FRAME_SIZE| == 14 && |NAME_ENGINE_ID| == 9 && |NAME_HEALTHCHECK| == 11;
    }
    NamedTail(es, NAME_MAX_FRAME_SIZE);
    NamedTail(es, NAME_ENGINE_ID);
    NamedTail(es, NAME_HEALTHCHECK);
  }

  lemma NothingLeftBy(s: Settings)
    ensures LeftBy([], s, s)
  {
  }

  /** No size out of range comes before the last entry, so that the loop gets to it. */
  predicate ReadThrough(es: seq<Entry>) {
    forall i :: 0 <= i < |es| - 1 && es[i].name == NAME_MAX_FRAME_SIZE ==> SizeInRange(es[i])
  }

  lemma {:induction false} SettingsLeft(es: seq<Entry>, s: Settings)
    requires ReadThrough(es)
    ensures LeftBy(es, s, ReadSettings(es, s).0)
    decreases es
  {
    hide ToU32, LeftBy, SizeInRange;
    if es == [] {
      NothingLeftBy(s);
    } else {
      var e, rest := es[0], es[1..];
      forall i | 0 <= i < |rest| - 1 && rest[i].name == NAME_MAX_FRAME_SIZE
        ensures SizeInRange(rest[i])
      {
        assert rest[i] == es[i + 1];
      }
      var next := if e.name == NAME_MAX_FRAME_SIZE then s.(maxFrameSize := ToU32(e.intVal))
                  else if e.name == NAME_ENGINE_ID then s.(engineID := e.byteVal)
                  else if e.name == NAME_HEALTHCHECK then s.(healthcheck := true)
                  else s;
      InRangeIs(e);
      if rest == [] {
        NothingLeftBy(next);
        assert ReadSettings(rest, next).0 == next;
      } else {
        SettingsLeft(rest, next);
      }
      assert ReadSettings(es, s).0 == ReadSettings(rest, next).0;
      LeftByFirst(es, s, next, ReadSettings(es, s).0);
    }
  }

  lemma InRangeIs(e: Entry)
    ensures SizeInRange(e) <==> MIN_FRAME_SIZE <= ToU32(e.intVal) <= MAX_FRAME_SIZE
  {
    hide ToU32;
  }

  /**
   * What an acceptable hello negotiates, from its entries alone: the size in the last
   * max-frame-size entry, truncated to 32 bits, the bytes of the last engine-id entry, and a
   * healthcheck if and only if an entry of that name occurs.
   */
  lemma HelloNegotiates(content: bytes)
    requires HelloAccepted(content)
    ensures var es := ScanAll(content).0;
            var s := HelloSettings(content);
            && (exists i: nat :: LastNamed(es, i, NAME_MAX_FRAME_SIZE))
            && (forall i: nat :: LastNamed(es, i, NAME_MAX_FRAME_SIZE) ==> s.maxFrameSize == ToU32(es[i].intVal))
            && (forall i: nat :: LastNamed(es, i, NAME_ENGINE_ID) ==> s.engineID == es[i].byteVal)
            && ((forall e <- es :: e.name != NAME_ENGINE_ID) ==> s.engineID == [])
            && (s.healthcheck <==> exists e <- es :: e.name == NAME_HEALTHCHECK)
  {
    hide ScanAll, ReadSettings, SizeInRange, ToU32, LastNamed;
    var es := ScanAll(content).0;
    HelloAcceptedIff(content);
    assert forall i :: 0 <= i < |es| ==> es[i] in es;
    SettingsLeft(es, NO_SETTINGS);
    var i := LastPosition(es, NAME_MAX_FRAME_SIZE);
  }

  lemma {:induction false} LastPosition(es: seq<Entry>, name: bytes) returns (i: nat)
    requires exists e <- es :: e.name == name
    ensures LastNamed(es, i, name)
  {
    i := |es| - 1;
    if es[i].name != name {
      var e :| e in es && e.name == name;
      var k :| 0 <= k < |es| && es[k] == e;
      assert e == es[..i][k];
      i := LastPosition(es[..i], name);
    }
  }

  // ---------- one connection, step by step ----------

  datatype Client = Client(gotHello: bool, maxFrameSize: u32, engineID: bytes, cancelled: bool)

  const NEW_CLIENT := Client(false, 0, [], false)

  function Limit(c: Client): u32 {
    if c.gotHello then c.maxFrameSize else INITIAL_LIMIT
  }

  function AfterHello(c: Client, content: bytes): Client {
    var s := HelloSettings(content);
    Client(true, s.maxFrameSize, s.engineID, c.cancelled || s.healthcheck)
  }

  /** What one turn of the read loop does with the frame it reads. */
  datatype Served = Continue | Schedule(f: FrameView) | Ended

  /** One turn: the client, what happens, what is written, and the input left. */
  function ServeStep(c: Client, b: bytes): (r: (Client, Served, bytes, bytes))
    ensures !r.1.Ended? ==> |r.3| + 4 <= |b|
  {
    match ReadFrame(b, Limit(c))
    case GotFrame(f, rest) =>
      if c.gotHello then (c, Schedule(f), [], rest)
      else if f.frameType != HAPROXY_HELLO then (c, Ended, [], rest)
      else
        var next := AfterHello(c, f.content);
        if !HelloAccepted(f.content) then (next, Ended, [], rest)
        else (next, if next.cancelled then Ended else Continue, HelloWire(next.maxFrameSize), rest)
    case _ => (c, Ended, [], [])
  }

  function HelloWire(maxFrameSize: u32): bytes {
    if HelloView(maxFrameSize).Size() < TWO_32 then HelloView(maxFrameSize).Wire() else []
  }

  /** The whole read loop: final client, frames handed to the scheduler, bytes written. */
  function ServeAll(c: Client, b: bytes): (Client, seq<FrameView>, bytes)
    decreases |b|
  {
    var (next, served, out, rest) := ServeStep(c, b);
    match served
    case Ended => (next, [], out)
    case Continue => var (last, fs, more) := ServeAll(next, rest); (last, fs, out + more)
    case Schedule(f) => var (last, fs, more) := ServeAll(next, rest); (last, [f] + fs, out + more)
  }

  // ---------- notifications ----------

  /** What the handler does with a message: how many entries it asks for, which actions it performs, whether it panics. */
  datatype Script = Script(asks: nat, acts: seq<Action>, panics: bool)

  /** How the callback of onNotify ends for a handler that does what script says. */
  function NotifyResult(content: bytes, script: Script): Outcome<()> {
    match HeadStep(content)
    case NoMore => Ok(())
    case BadHead => Error
    case HeadCrash => Panic
    case Head(_, _, rest) =>
      match ReadTurns(rest, false, script.asks)
      case None => Error
      case Some((b, err)) =>
        if script.panics then Error
        else if b == [] then Ok(())
        else
          match DrainFlag(b, err)
          case Ok(false) => Ok(())
          case Panic => Panic
          case _ => Error
  }

  /** The entries of the first message and everything after it scan to a clean end. */
  predicate DrainsCleanly(content: bytes) {
    match HeadStep(content)
    case Head(_, _, rest) => ScanAll(rest).1.Exhausted?
    case _ => false
  }

  /**
   * The callback of onNotify. After the handler has returned, Discard reads to the end of the
   * whole frame, so the loop never comes to a second message.
   */
  method NotifyCallback(content: bytes, script: Script) returns (r: Outcome<()>, handled: nat)
    ensures r == NotifyResult(content, script)
    ensures handled == HandledCount(content)
  {
    hide ScanStep, HeadStep, DrainFlag, NextTurn, ReadTurns;
    var s := new MessageScanner(content);
    var m := new Message();
    handled := 0;
    assert content[0..] == content;
    var more := s.Next(m);
    if more.Panic? {
      return Panic, handled;
    }
    if more == Ok(false) {
      return if s.lastErr then Error else Ok(()), handled;
    }
    handled := 1;
    var survived := RunHandler(m.KV, script);
    if !survived {
      return Error, handled;
    }
    var drained := m.KV.Discard();
    if !drained.Ok? {
      return drained, handled;
    }
    // what the source's next turn of the loop finds
    assert s.buf[|s.buf|..] == [];
    HeadCases([]);
    more := s.Next(m);
    return if s.lastErr then Error else Ok(()), handled;
  }

  lemma HeadCases(content: bytes)
    ensures HeadStep(content).NoMore? <==> content == []
  {
  }

  /** The handler's reads; a panic in the scanner is a panic of the handler, which wrapPanic turns into an error. */
  method RunHandler(kv: KVScanner, script: Script) returns (survived: bool)
    modifies kv
    ensures match ReadTurns(old(kv.buf), old(kv.lastErr), script.asks)
            case Some((b, err)) => survived == !script.panics && kv.buf == b && kv.lastErr == err
            case None => !survived
  {
    hide ScanStep, NextTurn;
    var e := new KVEntry();
    for i := 0 to script.asks
      invariant ReadTurns(old(kv.buf), old(kv.lastErr), i) == Some((kv.buf, kv.lastErr))
    {
      var more := kv.Next(e);
      if more.Panic? {
        Crashed(old(kv.buf), old(kv.lastErr), i + 1, script.asks);
        return false;
      }
    }
    return !script.panics;
  }

  lemma {:induction false} Crashed(buf: bytes, err: bool, i: nat, asks: nat)
    requires i <= asks
    ensures ReadTurns(buf, err, i).None? ==> ReadTurns(buf, err, asks).None?
    decreases asks
  {
    hide NextTurn;
    if i < asks {
      Crashed(buf, err, i, asks - 1);
    }
  }

  // ---------- which notifications are acknowledged ----------

  /** Discard succeeds on a scanner in this state. */
  predicate Drains(buf: bytes, err: bool) {
    buf == [] || DrainFlag(buf, err) == Ok(false)
  }

  /**
   * Read off the scan alone: asks reads and then Discard end well. Reads up to the end of a scan
   * that fails go on behind the failure, with the error flag set.
   */
  predicate Forgiven(buf: bytes, err: bool, asks: nat)
    decreases asks
  {
    var (es, end) := ScanAll(buf);
    if asks <= |es| then end.Exhausted? && (asks == |es| || !err || HasInteger(es))
    else
      match end
      case Exhausted => true
      case Failed(left) => Forgiven(left, true, asks - |es| - 1)
      case _ => false
  }

  lemma {:induction false} ForgivenIff(buf: bytes, err: bool, asks: nat)
    ensures Forgiven(buf, err, asks) <==>
              match ReadTurns(buf, err, asks)
              case Some((b, e)) => Drains(b, e)
              case None => false
    decreases asks
  {
    hide ScanStep, ScanAll, ReadTurns, DrainFlag, Drains, HasInteger;
    ScanAllCases(buf);
    if asks == 0 {
      NoTurns(buf, err);
      DrainsIff(buf, err);
    } else {
      ReadTurnsFirst(buf, err, asks);
      match ScanStep(buf)
      case Scanned(x, rest) =>
        ForgivenIff(rest, err && !x.IsInteger(), asks - 1);
        IntegerCons(x, ScanAll(rest).0);
      case Exhausted =>
        ForgivenIff([], err, asks - 1);
        ScanAllEmpty();
      case Failed(left) => ForgivenIff(left, true, asks - 1);
      case Crash =>
    }
  }

  lemma NoTurns(buf: bytes, err: bool)
    ensures ReadTurns(buf, err, 0) == Some((buf, err))
  {
  }

  lemma DrainsIff(buf: bytes, err: bool)
    ensures Drains(buf, err) <==> ScanAll(buf).1.Exhausted? && (ScanAll(buf).0 == [] || !err || HasInteger(ScanAll(buf).0))
  {
    hide ScanStep, HasInteger;
    ScanAllCases(buf);
    ScanAllEmpty();
    DrainFlagClean(buf);
    DrainFlagAfterError(buf);
  }

  /**
   * A notification with content is acknowledged if and only if it has a message header, the
   * handler does not panic, and what follows the header is forgiven for the handler's reads.
   */
  lemma AcknowledgedIff(content: bytes, script: Script)
    requires content != []
    ensures NotifyResult(content, script).Ok? <==>
              match HeadStep(content)
              case Head(_, _, rest) => !script.panics && Forgiven(rest, false, script.asks)
              case _ => false
  {
    hide HeadStep, DrainFlag, ReadTurns, Forgiven;
    HeadCases(content);
    match HeadStep(content)
    case Head(_, _, rest) => ForgivenIff(rest, false, script.asks);
    case _ =>
  }

  /**
   * The same for a handler that stops reading at the first failed read, spelt out: either all of
   * the content scans, or the handler has read up to the failure and what is left behind it is
   * empty, or scans to the end with an integer entry that clears the error.
   */
  lemma AcknowledgedWhen(content: bytes, script: Script)
    requires !script.panics
    ensures match HeadStep(content)
            case Head(_, _, rest) =>
              var (es, end) := ScanAll(rest);
              script.asks <= |es| + 1 ==>
                (NotifyResult(content, script).Ok? <==>
                   || end.Exhausted?
                   || (script.asks == |es| + 1 && end.Failed?
                       && (end.left == []
                           || (ScanAll(end.left).1.Exhausted? && exists e <- ScanAll(end.left).0 :: e.IsInteger()))))
            case _ => true
  {
    hide HeadStep, ScanAll, ScanStep, NotifyResult;
    HeadCases(content);
    match HeadStep(content)
    case Head(_, _, rest) =>
      AcknowledgedIff(content, script);
      var (es, end) := ScanAll(rest);
      if end.Failed? {
        NothingScanned(end.left);
      }
    case _ =>
  }

  lemma NothingScanned(buf: bytes)
    ensures ScanAll(buf).1.Exhausted? && ScanAll(buf).0 == [] <==> buf == []
  {
    hide ScanStep;
    ScanAllEmpty();
    ScanAllCases(buf);
  }

  /** Reads within the scan leave the rest of it. */
  lemma {:induction false} TurnsWithin(buf: bytes, asks: nat)
    requires asks <= |ScanAll(buf).0|
    ensures match ReadTurns(buf, false, asks)
            case Some((b, err)) => !err && ScanAll(b).1 == ScanAll(buf).1 && |ScanAll(b).0| == |ScanAll(buf).0| - asks
            case None => false
    decreases asks
  {
    hide ScanStep, ScanAll, ReadTurns;
    if asks == 0 {
      NoTurns(buf, false);
    } else {
      ScanAllCases(buf);
      ReadTurnsFirst(buf, false, asks);
      match ScanStep(buf)
      case Scanned(_, rest) => TurnsWithin(rest, asks - 1);
      case _ =>
    }
  }

  /** The read behind the last entry. */
  lemma TurnPast(buf: bytes)
    ensures var (es, end) := ScanAll(buf);
            ReadTurns(buf, false, |es| + 1) ==
            match end
            case Exhausted => Some(([], false))
            case Failed(left) => Some((left, true))
            case _ => None
  {
    hide ScanStep, ScanAll;
    var n := |ScanAll(buf).0|;
    TurnsWithin(buf, n);
    ScanAllCases(ReadTurns(buf, false, n).value.0);
  }

  lemma {:induction false} DrainPanics(buf: bytes, err: bool)
    ensures DrainFlag(buf, err).Panic? <==> ScanAll(buf).1.Crash?
    decreases |buf|
  {
    hide ScanStep, ScanAll, DrainFlag;
    ScanAllCases(buf);
    DrainFlagCases(buf, err);
    match ScanStep(buf)
    case Scanned(x, rest) => DrainPanics(rest, err && !x.IsInteger());
    case _ =>
  }

  /**
   * When the callback panics, for a handler that stops at its first failed read: the header
   * crashes, or the handler returns before the crash and Discard runs into it. A crash that the
   * handler itself runs into is an error.
   */
  lemma NotifyPanicsIff(content: bytes, script: Script)
    ensures match HeadStep(content)
            case HeadCrash => NotifyResult(content, script).Panic?
            case Head(_, _, rest) =>
              var (es, end) := ScanAll(rest);
              script.asks <= |es| + 1 ==>
                (NotifyResult(content, script).Panic? <==>
                   && !script.panics
                   && (|| (script.asks <= |es| && end.Crash?)
                       || (script.asks == |es| + 1 && end.Failed? && ScanAll(end.left).1.Crash?)))
            case _ => !NotifyResult(content, script).Panic?
  {
    hide HeadStep, ScanAll, ScanStep, DrainFlag, ReadTurns;
    match HeadStep(content)
    case Head(_, _, rest) =>
      var n := |ScanAll(rest).0|;
      ScanAllEmpty();
      if script.asks <= n {
        TurnsWithin(rest, script.asks);
      } else if script.asks == n + 1 {
        TurnPast(rest);
      }
      if script.asks <= n + 1 && ReadTurns(rest, false, script.asks).Some? {
        var (b, err) := ReadTurns(rest, false, script.asks).value;
        DrainPanics(b, err);
      }
    case _ =>
  }

  /** Content that scans is acknowledged whatever the handler reads; for one that reads nothing, no other is. */
  lemma NotifyAccepted(content: bytes, script: Script)
    requires content != [] && !script.panics
    ensures DrainsCleanly(content) ==> NotifyResult(content, script).Ok?
    ensures script.asks == 0 ==> (NotifyResult(content, script).Ok? <==> DrainsCleanly(content))
  {
    hide HeadStep, ScanAll, HasInteger, NotifyResult;
    AcknowledgedIff(content, script);
  }

  /** Cut inside an integer: refused if the handler reads nothing, acknowledged if it has read up to the error. */
  lemma CutEntryAcknowledged()
    ensures var content := [1, 97, 1, 1, 98, TYPE_INT32];
            && NotifyResult(content, Script(0, [], false)) == Error
            && NotifyResult(content, Script(1, [], false)) == Ok(())
  {
    hide HeadStep, DrainFlag, NextTurn;
    var rest: bytes := [1, 98, TYPE_INT32];
    HeadAt(97, 1, rest);
    assert [1, 97, 1] + rest == [1, 97, 1, 1, 98, TYPE_INT32];
    CutStep();
    assert ReadTurns(rest, false, 0) == Some((rest, false));
    assert ReadTurns(rest, false, 1) == NextTurn(rest, false);
  }

  /** An entry of an unknown type and then an integer: acknowledged to a handler that reads one entry, with bytes left. */
  lemma UnknownTypeAcknowledged()
    ensures var content := [1, 97, 2, 1, 98, 15, 1, 99, TYPE_INT32, 0];
            && NotifyResult(content, Script(0, [], false)) == Error
            && NotifyResult(content, Script(1, [], false)) == Ok(())
  {
    hide HeadStep, DrainFlag, NextTurn, ScanStep;
    var left: bytes := [1, 99, TYPE_INT32, 0];
    var rest: bytes := [1, 98, 15] + left;
    HeadAt(97, 2, rest);
    assert [1, 97, 2] + rest == [1, 97, 2, 1, 98, 15, 1, 99, TYPE_INT32, 0];
    UnknownStep(left);
    ZeroEntry();
    DrainFlagAfterError(left);
    assert ReadTurns(rest, false, 0) == Some((rest, false));
    assert ReadTurns(rest, false, 1) == NextTurn(rest, false);
  }

  lemma HeadAt(c: byte, count: byte, rest: bytes)
    ensures HeadStep([1, c, count] + rest) == Head([c], count, rest)
  {
    hide Dec;
    var b := [1, c, count] + rest;
    assert b == Enc(1) + b[1..];
    RoundTrip(1, b[1..]);
    assert b[1..][..1] == [c] && b[2..] == [count] + rest && ([count] + rest)[1..] == rest;
  }

  lemma CutStep()
    ensures ScanStep([1, 98, TYPE_INT32]) == Failed([])
    ensures NextTurn([1, 98, TYPE_INT32], false) == Some(([], true)) && DrainFlag([1, 98, TYPE_INT32], false) == Ok(true)
  {
    hide Dec;
    var b: bytes := [1, 98, TYPE_INT32];
    assert b == Enc(1) + b[1..];
    RoundTrip(1, b[1..]);
    assert b[1..][..1] == [98] && b[2..] == [TYPE_INT32] && b[2..][1..] == [];
    assert Dec([]) == Error by {
      NothingDecodes();
    }
  }

  lemma UnknownStep(left: bytes)
    ensures var b := [1, 98, 15] + left;
            ScanStep(b) == Failed(left) && NextTurn(b, false) == Some((left, true)) && DrainFlag(b, false) == Ok(true)
  {
    hide Dec;
    var b := [1, 98, 15] + left;
    assert b == Enc(1) + b[1..];
    RoundTrip(1, b[1..]);
    assert b[1..][..1] == [98] && b[2..] == [15] + left && b[2..][1..] == left;
  }

  lemma ZeroEntry()
    ensures var p := Pair([99], Int32(0));
            ScanAll([1, 99, TYPE_INT32, 0]) == ([EntryOf(p)], Exhausted) && HasInteger([EntryOf(p)])
  {
    hide ScanStep, ScanAll;
    var p := Pair([99], Int32(0));
    assert p.Encode() == [1, 99, TYPE_INT32, 0] && p.Encode() + [] == p.Encode();
    PairRoundTrip(p, []);
    ScanAllUnfold([1, 99, TYPE_INT32, 0], EntryOf(p), []);
    ScanAllEmpty();
    assert [EntryOf(p)] + [] == [EntryOf(p)];
    assert EntryOf(p) in [EntryOf(p)] && EntryOf(p).IsInteger();
  }

  lemma NothingDecodes()
    ensures Dec([]) == Error
  {
  }

  // ---------- how many messages of a frame are handled ----------

  /** Messages the handler is called with, as NotifyCallback counts them. */
  function HandledCount(content: bytes): nat {
    if HeadStep(content).Head? then 1 else 0
  }

  /** All messages of a well-formed frame are handled if and only if there is at most one. */
  lemma AllHandledIff(ms: seq<Msg>)
    requires AllMsgsValid(ms)
    ensures HandledCount(EncodeMsgs(ms)) == |ms| <==> |ms| <= 1
  {
    hide HeadStep, Msg.Encode, EncodePairs;
    if ms == [] {
      HeadCases([]);
    } else {
      HeadRoundTrip(ms[0], EncodeMsgs(ms[1..]));
    }
  }

  /** A frame of at most one message is handled in full whatever the handler reads. */
  lemma OneMessageDrains(m: Msg)
    requires m.Valid()
    ensures DrainsCleanly(m.Encode())
  {
    hide HeadStep, ScanAll, Msg.Encode, EncodePairs;
    assert m.Encode() + [] == m.Encode() && EncodePairs(m.entries) + [] == EncodePairs(m.entries);
    HeadRoundTrip(m, []);
    PairsRoundTrip(m.entries);
  }

  /** Two messages in one frame: the handler sees one, whatever it reads, and the frame is acknowledged. */
  lemma SecondMessageSwallowed(script: Script)
    requires !script.panics
    ensures var ms := [Msg([97], []), Msg([98], [])];
            AllMsgsValid(ms) && HandledCount(EncodeMsgs(ms)) == 1 && NotifyResult(EncodeMsgs(ms), script).Ok?
  {
    hide HeadStep, ScanAll, ScanStep, EncodeMsgs, Msg.Encode, NotifyResult;
    var m := Msg([97], []);
    TwoMessages();
    assert EncodePairs([]) + [1, 98, 0] == [1, 98, 0];
    HeadRoundTrip(m, [1, 98, 0]);
    ShortMessage(97);
    NullEntry();
    NotifyAccepted([1, 97, 0] + [1, 98, 0], script);
  }

  lemma TwoMessages()
    ensures var ms := [Msg([97], []), Msg([98], [])];
            AllMsgsValid(ms) && EncodeMsgs(ms) == [1, 97, 0] + [1, 98, 0]
  {
    hide Msg.Encode;
    var ms := [Msg([97], []), Msg([98], [])];
    assert ms[1..] == [ms[1]] && [ms[1]][1..] == [];
    ShortMessage(97);
    ShortMessage(98);
    assert EncodeMsgs([ms[1]]) == ms[1].Encode() + EncodeMsgs([]);
  }

  lemma NullEntry()
    ensures ScanAll([1, 98, 0]) == ([Entry([98], TYPE_NULL, [], 0, false)], Exhausted)
  {
    hide ScanStep, ScanAll;
    var p := Pair([98], Null);
    assert p.Encode() == [1, 98, 0] && p.Encode() + [] == p.Encode();
    PairRoundTrip(p, []);
    ScanAllUnfold([1, 98, 0], EntryOf(p), []);
    ScanAllEmpty();
    assert [EntryOf(p)] + [] == [EntryOf(p)];
  }

  lemma ShortMessage(c: byte)
    ensures Msg([c], []).Encode() == [1, c, 0]
  {
  }

  // ---------- disconnects ----------

  /** The loop over a HAPROXY-DISCONNECT: the last status code, unless an unexpected entry comes up. */
  function StatusCode(es: seq<Entry>, code: i64): Option<i64> {
    if es == [] then Some(code)
    else if es[0].name == NAME_STATUS_CODE then StatusCode(es[1..], es[0].intVal)
    else if es[0].name == NAME_MESSAGE then StatusCode(es[1..], code)
    else None
  }

  lemma {:induction false} CodeLeft(es: seq<Entry>, code: i64)
    ensures StatusCode(es, code).Some? <==> forall e <- es :: e.name == NAME_STATUS_CODE || e.name == NAME_MESSAGE
    ensures StatusCode(es, code).Some? ==>
              && (forall i: nat :: LastNamed(es, i, NAME_STATUS_CODE) ==> StatusCode(es, code).value == es[i].intVal)
              && (NoneNamed(es, NAME_STATUS_CODE) ==> StatusCode(es, code).value == code)
    decreases es
  {
    hide LastNamed, NoneNamed;
    if es == [] {
      NothingNamed(NAME_STATUS_CODE);
    } else {
      var e, rest := es[0], es[1..];
      assert forall x <- es :: x == e || x in rest;
      assert e in es && forall x <- rest :: x in es;
      assert NAME_STATUS_CODE != NAME_MESSAGE by {
        assert |NAME_STATUS_CODE| == 11 && |NAME_MESSAGE| == 7;
      }
      NamedTail(es, NAME_STATUS_CODE);
      CodeLeft(rest, if e.name == NAME_STATUS_CODE then e.intVal else code);
    }
  }

  lemma NothingNamed(name: bytes)
    ensures NoneNamed([], name) && forall i: nat :: !LastNamed([], i, name)
  {
  }

  // ---------- one frame behind the handshake ----------

  /** A record of what is written: the hello with its size, or an acknowledgement beside its notification and what the handler did. */
  datatype Output = HelloSent(maxFrameSize: u32) | AckSent(notify: FrameView, ack: FrameView, script: Script)

  /** The disconnect gives the connection up. */
  predicate Leaves(content: bytes) {
    var (es, end) := ScanAll(content);
    content != [] && StatusCode(es, 0).Some? && !end.Crash?
  }

  /**
   * A disconnect gives the connection up if and only if it has content, scans without a panic and
   * names nothing but status codes and messages. The code that then counts is the last one, or
   * zero if there is none.
   */
  lemma DisconnectMeans(content: bytes)
    ensures var (es, end) := ScanAll(content);
            && (Leaves(content) <==>
                  content != [] && !end.Crash? && forall e <- es :: e.name == NAME_STATUS_CODE || e.name == NAME_MESSAGE)
            && (Leaves(content) ==>
                  && (forall i: nat :: LastNamed(es, i, NAME_STATUS_CODE) ==> StatusCode(es, 0) == Some(es[i].intVal))
                  && ((forall e <- es :: e.name != NAME_STATUS_CODE) ==> StatusCode(es, 0) == Some(0)))
  {
    hide ScanAll, StatusCode, LastNamed;
    CodeLeft(ScanAll(content).0, 0);
  }

  /** The acknowledgement of a notification for a handler that does what script says. */
  function AckFor(f: FrameView, script: Script): FrameView {
    AckView(f.streamID, f.frameID, if HandledCount(f.content) == 1 then script.acts else [])
  }

  /** With content it carries exactly the handler's actions, without none. */
  lemma AckCarries(f: FrameView, script: Script)
    requires NotifyResult(f.content, script).Ok?
    ensures AckFor(f, script).content == if f.content == [] then [] else EncodeActions(script.acts)
  {
    hide HeadStep, EncodeActions;
    HeadCases(f.content);
    EncodeNone();
  }

  /** The actions of a handler can be written. */
  predicate Performable(script: Script) {
    forall a <- script.acts :: a.Valid()
  }

  predicate Acknowledges(c: Client, f: FrameView, script: Script) {
    f.frameType == NOTIFY && NotifyResult(f.content, script).Ok? && AckFor(f, script).Size() <= c.maxFrameSize
  }

  /** What frameHandler does with a frame of an open connection: the client and the bytes it writes. */
  function HandleFrame(c: Client, f: FrameView, script: Script): (Client, bytes) {
    (c.(cancelled := c.cancelled || (f.frameType == HAPROXY_DISCONNECT && Leaves(f.content))),
     if Acknowledges(c, f, script) then AckFor(f, script).Wire() else [])
  }

  // ---------- sessions with workers ----------

  /** A frame accepted after the handshake and its length on the wire. */
  datatype Accepted = Accepted(f: FrameView, size: nat)

  /** wire is everything written to the connection, output the record of it. */
  datatype Session = Session(
    c: Client, input: bytes, ended: bool, waiting: seq<FrameView>, accepted: seq<Accepted>, output: seq<Output>, wire: bytes)

  function NewSession(input: bytes): Session {
    Session(NEW_CLIENT, input, false, [], [], [], [])
  }

  /** A turn of the read loop, as ServeTurn makes it. */
  ghost predicate ReadTurn(s: Session, n: Session) {
    !s.ended &&
    var (next, served, out, rest) := ServeStep(s.c, s.input);
    && n.c == next && n.input == rest && n.ended == served.Ended? && n.wire == s.wire + out
    && match served
       case Schedule(f) =>
         && n.waiting == s.waiting + [f] && n.output == s.output
         && n.accepted == s.accepted + [Accepted(f, |s.input| - |rest| - 4)]
       case _ =>
         && n.waiting == s.waiting && n.accepted == s.accepted
         && n.output == if SendsHello(s.c, s.input) then s.output + [HelloSent(next.maxFrameSize)] else s.output
  }

  /** The turn that reads an acceptable hello. */
  predicate SendsHello(c: Client, b: bytes) {
    !c.gotHello && match ReadFrame(b, Limit(c))
                   case GotFrame(f, _) => f.frameType == HAPROXY_HELLO && HelloAccepted(f.content)
                   case _ => false
  }

  /** A worker handles any waiting frame, as FrameHandler does, for a handler with any behaviour. */
  ghost predicate WorkTurn(s: Session, n: Session, i: nat, script: Script) {
    && i < |s.waiting| && Performable(script)
    && var f := s.waiting[i];
    var (next, out) := HandleFrame(s.c, f, script);
    && n.c == next && n.wire == s.wire + out
    && n.input == s.input && n.ended == s.ended && n.accepted == s.accepted
    && n.waiting == s.waiting[..i] + s.waiting[i + 1..]
    && n.output == if Acknowledges(s.c, f, script) then s.output + [AckSent(f, AckFor(f, script), script)] else s.output
  }

  ghost predicate Next(s: Session, n: Session) {
    || ReadTurn(s, n)
    || exists i: nat, script :: WorkTurn(s, n, i, script)
  }

  ghost predicate IsRun(input: bytes, states: seq<Session>) {
    && states != [] && states[0] == NewSession(input)
    && forall i :: 0 < i < |states| ==> Next(states[i - 1], states[i])
  }

  /** The handshake has succeeded. */
  predicate Open(s: Session) {
    s.output != []
  }

  predicate AckOf(o: Output, s: Session) {
    && o.AckSent?
    && o.ack.frameType == ACK && o.ack.flags == FLAG_FIN
    && o.ack.streamID == o.notify.streamID && o.ack.frameID == o.notify.frameID
    && o.ack.Size() <= s.c.maxFrameSize
    && o.notify.frameType == NOTIFY
    && NotifyResult(o.notify.content, o.script).Ok? && Performable(o.script)
    && o.ack.content == if o.notify.content == [] then [] else EncodeActions(o.script.acts)
  }

  function FramesOf(xs: seq<Accepted>): (fs: seq<FrameView>)
    ensures |fs| == |xs|
  {
    if xs == [] then [] else FramesOf(xs[..|xs| - 1]) + [xs[|xs| - 1].f]
  }

  function Notified(os: seq<Output>): seq<FrameView> {
    if os == [] then []
    else Notified(os[..|os| - 1]) + if os[|os| - 1].AckSent? then [os[|os| - 1].notify] else []
  }

  function ViewOf(o: Output): FrameView {
    match o
    case HelloSent(m) => HelloView(m)
    case AckSent(_, ack, _) => ack
  }

  /** The frames on record, one whole frame after the other. */
  function OutputWire(os: seq<Output>): bytes {
    if os == [] then [] else WireOf(os[0]) + OutputWire(os[1..])
  }

  function WireOf(o: Output): bytes {
    if ViewOf(o).Size() < TWO_32 then ViewOf(o).Wire() else []
  }

  lemma {:induction false} OutputWireAppend(os: seq<Output>, o: Output)
    ensures OutputWire(os + [o]) == OutputWire(os) + WireOf(o)
  {
    hide WireOf;
    if os == [] {
      assert [o][1..] == [] && [] + [o] == [o];
    } else {
      assert (os + [o])[1..] == os[1..] + [o];
      OutputWireAppend(os[1..], o);
    }
  }

  ghost predicate Inv(s: Session) {
    && (!Open(s) ==> s.waiting == [] && s.accepted == [] && (s.c.gotHello ==> s.ended))
    && (Open(s) ==>
          && s.c.gotHello
          && MIN_FRAME_SIZE <= s.c.maxFrameSize <= MAX_FRAME_SIZE
          && s.output[0] == HelloSent(s.c.maxFrameSize)
          && (forall k :: 1 <= k < |s.output| ==> AckOf(s.output[k], s))
          && (forall x <- s.accepted :: 5 <= x.size <= s.c.maxFrameSize))
    && multiset(Notified(s.output)) + multiset(s.waiting) <= multiset(FramesOf(s.accepted))
    && s.wire == OutputWire(s.output)
  }

  lemma ReadKeeps(s: Session, n: Session)
    requires Inv(s) && ReadTurn(s, n)
    ensures Inv(n)
  {
    hide Inv, ReadFrame, HelloAccepted, HelloSettings, HelloWire, AfterHello;
    assert s.wire + [] == s.wire;
    if ReadFrame(s.input, Limit(s.c)).GotFrame? && s.c.gotHello {
      ScheduleKeeps(s, n, ReadFrame(s.input, Limit(s.c)).f, ReadFrame(s.input, Limit(s.c)).rest);
    } else if SendsHello(s.c, s.input) {
      HelloKeeps(s, n, ReadFrame(s.input, Limit(s.c)).f.content);
    } else {
      EndKeeps(s, n);
    }
  }

  /** A frame behind the handshake is accepted and waits. */
  lemma ScheduleKeeps(s: Session, n: Session, f: FrameView, rest: bytes)
    requires Inv(s) && !s.ended && s.c.gotHello && ReadFrame(s.input, s.c.maxFrameSize) == GotFrame(f, rest)
    requires n.c == s.c && n.waiting == s.waiting + [f] && n.output == s.output && n.wire == s.wire
    requires n.accepted == s.accepted + [Accepted(f, |s.input| - |rest| - 4)]
    ensures Inv(n)
  {
    hide ReadFrame, Notified, FramesOf, AckOf, OutputWire;
    AcceptedWithinLimit(s.input, s.c.maxFrameSize);
    var x := Accepted(f, |s.input| - |rest| - 4);
    AcceptedAppend(s.accepted, x);
    assert multiset(s.waiting + [f]) == multiset(s.waiting) + multiset{f};
    assert multiset(FramesOf(s.accepted) + [f]) == multiset(FramesOf(s.accepted)) + multiset{f};
    AcksKept(s, n);
  }

  lemma AcksKept(s: Session, n: Session)
    requires n.c.maxFrameSize == s.c.maxFrameSize
    ensures forall o <- s.output :: AckOf(o, s) ==> AckOf(o, n)
  {
    hide FrameView.Size, NotifyResult, EncodeActions;
  }

  lemma HelloRange(content: bytes)
    requires HelloAccepted(content)
    ensures MIN_FRAME_SIZE <= HelloSettings(content).maxFrameSize <= MAX_FRAME_SIZE
  {
    hide HelloAccepted, HelloSettings;
    HelloAcceptedIff(content);
  }

  /** The handshake itself. */
  lemma HelloKeeps(s: Session, n: Session, content: bytes)
    requires Inv(s) && !s.c.gotHello && HelloAccepted(content)
    requires n.c == AfterHello(s.c, content) && n.waiting == s.waiting && n.accepted == s.accepted
    requires n.output == s.output + [HelloSent(n.c.maxFrameSize)] && n.wire == s.wire + HelloWire(n.c.maxFrameSize)
    ensures Inv(n)
  {
    hide HelloAccepted, HelloSettings, FramesOf, AckOf, Notified, OutputWire, FrameView.Size, FrameView.Wire, HelloView;
    OutputWireAppend(s.output, HelloSent(n.c.maxFrameSize));
    HelloRange(content);
    assert s.output == [] && n.output == [HelloSent(n.c.maxFrameSize)];
    NotifiedAppend([], HelloSent(n.c.maxFrameSize));
    assert [] + n.output == n.output;
    assert s.waiting == [] && multiset(n.waiting) == multiset{};
    NoneNotified();
  }

  lemma NoneNotified()
    ensures Notified([]) == [] && FramesOf([]) == []
  {
  }

  /** Any other turn ends the loop without output. */
  lemma EndKeeps(s: Session, n: Session)
    requires Inv(s) && ReadTurn(s, n) && !SendsHello(s.c, s.input)
    requires !(ReadFrame(s.input, Limit(s.c)).GotFrame? && s.c.gotHello)
    ensures Inv(n)
  {
    hide ReadFrame, HelloAccepted, HelloSettings, HelloWire, Notified, FramesOf, AckOf, OutputWire;
    assert s.wire + [] == s.wire;
    if Open(s) {
      AcksKept(s, n);
    }
  }

  lemma AcceptedAppend(xs: seq<Accepted>, x: Accepted)
    ensures FramesOf(xs + [x]) == FramesOf(xs) + [x.f]
  {
    assert (xs + [x])[..|xs|] == xs;
  }

  lemma NotifiedAppend(os: seq<Output>, o: Output)
    ensures Notified(os + [o]) == Notified(os) + if o.AckSent? then [o.notify] else []
  {
    assert (os + [o])[..|os|] == os;
  }

  lemma WorkKeeps(s: Session, n: Session, i: nat, script: Script)
    requires Inv(s) && WorkTurn(s, n, i, script)
    ensures Inv(n)
  {
    hide AckOf, Acknowledges, WireOf, FrameView.Size, FrameView.Wire, Notified, FramesOf, OutputWire, Leaves, AckFor;
    var f := s.waiting[i];
    assert s.waiting == s.waiting[..i] + [f] + s.waiting[i + 1..];
    assert multiset(s.waiting) == multiset(n.waiting) + multiset{f};
    assert s.wire + [] == s.wire;
    AcksKept(s, n);
    if Acknowledges(s.c, f, script) {
      var o := AckSent(f, AckFor(f, script), script);
      AckIs(s, f, script);
      AcksKept(s.(output := n.output), n);
      NotifiedAppend(s.output, o);
      OutputWireAppend(s.output, o);
      assert multiset(Notified(s.output) + [f]) == multiset(Notified(s.output)) + multiset{f};
    }
  }

  lemma AckIs(s: Session, f: FrameView, script: Script)
    requires Acknowledges(s.c, f, script) && Performable(script)
    ensures var o := AckSent(f, AckFor(f, script), script);
            AckOf(o, s.(output := s.output + [o])) && WireOf(o) == AckFor(f, script).Wire()
  {
    hide FrameView.Size, FrameView.Wire, NotifyResult, HandledCount, EncodeActions;
    AckCarries(f, script);
  }

  lemma StepKeeps(s: Session, n: Session)
    requires Inv(s)
    ensures Next(s, n) ==> Inv(n)
  {
    hide Inv, ReadTurn, WorkTurn;
    if ReadTurn(s, n) {
      ReadKeeps(s, n);
    } else if i: nat, script :| WorkTurn(s, n, i, script) {
      WorkKeeps(s, n, i, script);
    }
  }

  lemma {:induction false} RunInv(input: bytes, states: seq<Session>, k: nat)
    requires IsRun(input, states) && k < |states|
    ensures Inv(states[k])
  {
    hide Next, ServeStep;
    if k > 0 {
      RunInv(input, states, k - 1);
      assert Next(states[k - 1], states[k]);
      StepKeeps(states[k - 1], states[k]);
    }
  }

  /**
   * In every state of every session: nothing is handed to the scheduler before a successful
   * handshake; from then on the frame size is in range, one AGENT-HELLO carrying it has been
   * written, every frame accepted is within it, and every acknowledgement is within it, carries
   * the IDs of its notification, and answers an accepted frame that no other one answers.
   */
  lemma SessionSafe(input: bytes, states: seq<Session>, k: nat)
    requires IsRun(input, states) && k < |states|
    ensures var s := states[k];
            && (!Open(s) ==> s.waiting == [] && s.accepted == [] && s.wire == [])
            && s.wire == OutputWire(s.output)
            && (Open(s) ==>
                  && MIN_FRAME_SIZE <= s.c.maxFrameSize <= MAX_FRAME_SIZE
                  && s.output[0] == HelloSent(s.c.maxFrameSize)
                  && (forall j :: 1 <= j < |s.output| ==> AckOf(s.output[j], s))
                  && (forall x <- s.accepted :: 5 <= x.size <= s.c.maxFrameSize))
            && multiset(Notified(s.output)) + multiset(s.waiting) <= multiset(FramesOf(s.accepted))
  {
    hide IsRun, AckOf, Notified, FramesOf, WireOf;
    RunInv(input, states, k);
  }

  /** Once the handshake has succeeded the frame size never changes. */
  lemma {:induction false} SizeFixed(input: bytes, states: seq<Session>, j: nat, k: nat)
    requires IsRun(input, states) && j <= k < |states| && Open(states[j])
    ensures Open(states[k]) && states[k].c.maxFrameSize == states[j].c.maxFrameSize
    decreases k
  {
    hide ServeStep, Inv, WorkTurn, ReadTurn;
    if j < k {
      SizeFixed(input, states, j, k - 1);
      RunInv(input, states, k - 1);
      assert Next(states[k - 1], states[k]);
      SizeKept(states[k - 1], states[k]);
    }
  }

  lemma SizeKept(s: Session, n: Session)
    requires Inv(s) && Open(s) && Next(s, n)
    ensures Open(n) && n.c.maxFrameSize == s.c.maxFrameSize
  {
    hide ReadFrame, HelloAccepted, HelloSettings, HelloWire, FrameView.Header, Notified, FramesOf, EncodeActions, AckOf;
    if !ReadTurn(s, n) {
      var i: nat, script :| WorkTurn(s, n, i, script);
    }
  }

  // ---------- what HAProxy reads ----------

  /** All the frames in a byte stream, read under one limit, and the read that ends it. */
  function ReadFrames(b: bytes, limit: u32): (r: (seq<FrameView>, FrameRead))
    ensures !r.1.GotFrame?
    decreases |b|
  {
    match ReadFrame(b, limit)
    case GotFrame(f, rest) =>
      var (fs, end) := ReadFrames(rest, limit);
      ([f] + fs, end)
    case end => ([], end)
  }

  predicate Sized(os: seq<Output>, limit: u32) {
    forall o <- os :: ViewOf(o).Size() <= limit
  }

  function ViewsOf(os: seq<Output>): (fs: seq<FrameView>)
    ensures |fs| == |os|
  {
    if os == [] then [] else [ViewOf(os[0])] + ViewsOf(os[1..])
  }

  lemma {:induction false} WireReadsBack(os: seq<Output>, limit: u32)
    requires Sized(os, limit)
    ensures ReadFrames(OutputWire(os), limit) == (ViewsOf(os), CleanEnd)
  {
    hide ReadFrame, FrameView.Wire, FrameView.Size, ViewOf;
    if os == [] {
      NothingReadable(limit);
    } else {
      assert os[0] in os;
      FrameRoundTrip(ViewOf(os[0]), limit, OutputWire(os[1..]));
      WireReadsBack(os[1..], limit);
    }
  }

  lemma NothingReadable(limit: u32)
    ensures ReadFrame([], limit) == CleanEnd
  {
  }

  /** The AGENT-HELLO itself is within the smallest limit it can announce. */
  lemma HelloWithin(maxFrameSize: u32)
    ensures HelloView(maxFrameSize).Size() <= MIN_FRAME_SIZE
  {
    hide FrameView.Header, HelloPairs;
    HelloSize(maxFrameSize);
    HeaderBound(HelloView(maxFrameSize));
  }

  /** An acknowledgement of this notification, in which HAProxy finds what the handler did: nothing when there was no message. */
  predicate Answers(ack: FrameView, notify: FrameView, script: Script) {
    && ack.frameType == ACK && ack.flags == FLAG_FIN
    && ack.streamID == notify.streamID && ack.frameID == notify.frameID
    && match ParseActions(ack.content)
       case Some(got) => AllUnderstood(if notify.content == [] then [] else script.acts, got)
       case None => false
  }

  lemma AckAnswers(o: Output, s: Session)
    requires AckOf(o, s)
    ensures Answers(o.ack, o.notify, o.script)
  {
    hide FrameView.Size, NotifyResult, EncodeActions, ParseActions, AllUnderstood;
    var acts := if o.notify.content == [] then [] else o.script.acts;
    EncodeNone();
    ActionsRoundTrip(acts);
  }

  /** One notification: what the worker writes is one frame that answers it. */
  lemma NotifyAnswered(c: Client, f: FrameView, script: Script, rest: bytes)
    requires Acknowledges(c, f, script) && Performable(script)
    ensures match ReadFrame(HandleFrame(c, f, script).1 + rest, c.maxFrameSize)
            case GotFrame(ack, left) => left == rest && Answers(ack, f, script)
            case _ => false
  {
    hide FrameView.Size, FrameView.Wire, NotifyResult, EncodeActions, ParseActions, ReadFrame, AckFor, Answers;
    var o := AckSent(f, AckFor(f, script), script);
    var s := NewSession([]).(c := c);
    AckIs(s, f, script);
    AckAnswers(o, s.(output := s.output + [o]));
    FrameRoundTrip(AckFor(f, script), c.maxFrameSize, rest);
  }

  lemma {:induction false} ViewsAt(os: seq<Output>, j: nat)
    requires j < |os|
    ensures ViewsOf(os)[j] == ViewOf(os[j])
  {
    hide ViewOf;
    if j > 0 {
      ViewsAt(os[1..], j - 1);
    }
  }

  /**
   * Read under the negotiated limit, the bytes written are whole frames: the agent's hello, and
   * then, in order, answers to notifications, each with what the handler did with it.
   */
  lemma AgentStreamReadsBack(input: bytes, states: seq<Session>, k: nat)
    requires IsRun(input, states) && k < |states| && Open(states[k])
    ensures var s := states[k];
            var (fs, end) := ReadFrames(s.wire, s.c.maxFrameSize);
            && end == CleanEnd && |fs| == |s.output| && fs[0] == HelloView(s.c.maxFrameSize)
            && forall j :: 1 <= j < |fs| ==> s.output[j].AckSent? && Answers(fs[j], s.output[j].notify, s.output[j].script)
  {
    hide IsRun, HelloView, Notified, FramesOf, ReadFrames, OutputWire, ViewsOf, Answers, AckOf;
    var s := states[k];
    RunInv(input, states, k);
    StreamIsViews(input, states, k);
    forall j | 0 <= j < |s.output|
      ensures ViewsOf(s.output)[j] == ViewOf(s.output[j])
    {
      ViewsAt(s.output, j);
    }
    forall j | 1 <= j < |s.output|
      ensures s.output[j].AckSent? && Answers(s.output[j].ack, s.output[j].notify, s.output[j].script)
    {
      AckIsSent(s.output[j], s);
      AckAnswers(s.output[j], s);
    }
  }

  lemma AckIsSent(o: Output, s: Session)
    requires AckOf(o, s)
    ensures o.AckSent?
  {
  }

  lemma StreamIsViews(input: bytes, states: seq<Session>, k: nat)
    requires IsRun(input, states) && k < |states| && Open(states[k])
    ensures var s := states[k]; ReadFrames(s.wire, s.c.maxFrameSize) == (ViewsOf(s.output), CleanEnd)
  {
    hide NotifyResult, EncodeActions, IsRun, FrameView.Size, FrameView.Wire, HelloView, Notified, FramesOf, ReadFrames, OutputWire, ViewsOf;
    var s := states[k];
    RunInv(input, states, k);
    HelloWithin(s.c.maxFrameSize);
    forall o <- s.output
      ensures ViewOf(o).Size() <= s.c.maxFrameSize
    {
      var j :| 0 <= j < |s.output| && s.output[j] == o;
      if j > 0 {
        assert AckOf(s.output[j], s);
      }
    }
    WireReadsBack(s.output, s.c.maxFrameSize);
  }

  // ---------- what the agent takes from HAProxy ----------

  /** Whole frames, one after the other. */
  function StreamOf(fs: seq<FrameView>): bytes
    requires forall f <- fs :: f.Size() < TWO_32
  {
    if fs == [] then [] else fs[0].Wire() + StreamOf(fs[1..])
  }

  lemma {:induction false} StreamReadsBack(fs: seq<FrameView>, limit: u32)
    requires forall f <- fs :: f.Size() <= limit
    ensures ReadFrames(StreamOf(fs), limit) == (fs, CleanEnd)
  {
    hide ReadFrame, FrameView.Wire, FrameView.Size;
    if fs == [] {
      NothingReadable(limit);
    } else {
      FrameRoundTrip(fs[0], limit, StreamOf(fs[1..]));
      StreamReadsBack(fs[1..], limit);
      assert [fs[0]] + fs[1..] == fs;
    }
  }

  /** Behind the handshake the loop hands on every frame that can be read under the negotiated size, and writes nothing. */
  lemma {:induction false} OpenServes(c: Client, b: bytes)
    requires c.gotHello
    ensures ServeAll(c, b) == (c, ReadFrames(b, c.maxFrameSize).0, [])
    decreases |b|
  {
    hide ReadFrame;
    match ReadFrame(b, c.maxFrameSize)
    case GotFrame(f, rest) =>
      OpenServes(c, rest);
      assert ServeStep(c, b) == (c, Schedule(f), [], rest);
      var more := ServeAll(c, rest);
      assert ServeAll(c, b) == (c, [f] + more.1, [] + more.2);
      assert [] + more.2 == [];
    case _ =>
  }

  /** Without an acceptable hello in front nothing is handed on or written. */
  lemma NoHelloNothingServed(b: bytes)
    requires !SendsHello(NEW_CLIENT, b)
    ensures ServeAll(NEW_CLIENT, b).1 == [] && ServeAll(NEW_CLIENT, b).2 == []
  {
    hide ReadFrame, HelloAccepted, HelloSettings, HelloWire;
  }

  /** A first frame beyond the initial limit ends the loop, whatever it is. */
  lemma LargeHelloRefused(hello: FrameView, rest: bytes)
    requires INITIAL_LIMIT < hello.Size() < TWO_32
    ensures ServeAll(NEW_CLIENT, hello.Wire() + rest) == (NEW_CLIENT, [], [])
  {
    hide ReadFrame, FrameView.Size, FrameView.Wire;
    FrameTooLong(hello, INITIAL_LIMIT, rest);
  }

  /**
   * A whole connection: behind an acceptable hello exactly the frames HAProxy sends are handed on,
   * in order, and the agent's hello is all the loop writes. A healthcheck ends it with the hello.
   */
  lemma ConnectionServed(hello: FrameView, fs: seq<FrameView>)
    requires hello.frameType == HAPROXY_HELLO && hello.Size() <= INITIAL_LIMIT && HelloAccepted(hello.content)
    requires forall f <- fs :: f.Size() <= HelloSettings(hello.content).maxFrameSize
    ensures var s := HelloSettings(hello.content);
            HelloView(s.maxFrameSize).Size() < TWO_32
            && ServeAll(NEW_CLIENT, hello.Wire() + StreamOf(fs)) ==
                 (Client(true, s.maxFrameSize, s.engineID, s.healthcheck), if s.healthcheck then [] else fs,
                  HelloView(s.maxFrameSize).Wire())
  {
    hide ReadFrame, ReadFrames, HelloAccepted, HelloSettings, HelloWire, HelloView, FrameView.Size, FrameView.Wire, StreamOf;
    var s := HelloSettings(hello.content);
    FrameRoundTrip(hello, INITIAL_LIMIT, StreamOf(fs));
    HelloWithin(s.maxFrameSize);
    HelloWireIs(s.maxFrameSize);
    var c := AfterHello(NEW_CLIENT, hello.content);
    StreamReadsBack(fs, s.maxFrameSize);
    OpenServes(c, StreamOf(fs));
    assert HelloWire(s.maxFrameSize) + [] == HelloWire(s.maxFrameSize);
  }

  // ---------- the protocol client ----------

  class ProtocolClient {
    const conn: Conn
    var gotHello: bool
    var maxFrameSize: u32
    var engineID: bytes
    var cancelled: bool
    var scheduled: seq<FrameView>

    constructor (conn: Conn)
      ensures this.conn == conn && View() == NEW_CLIENT && scheduled == []
    {
      this.conn := conn;
      gotHello, maxFrameSize, engineID, cancelled, scheduled := false, 0, [], false, [];
    }

    function View(): Client
      reads this
    {
      Client(gotHello, maxFrameSize, engineID, cancelled)
    }

    /** Before the handshake nothing has been negotiated. */
    ghost predicate Valid()
      reads this
    {
      !gotHello ==> maxFrameSize == 0 && engineID == []
    }

    /**
     * onHAProxyHello. A second hello panics. Otherwise the fields end as AfterHello says, and the
     * AGENT-HELLO is written exactly when the hello is acceptable.
     */
    method OnHAProxyHello(content: bytes, spare: Frame) returns (r: Outcome<()>)
      requires Valid() && spare.Reset()
      modifies this`gotHello, this`maxFrameSize, this`engineID, this`cancelled
      modifies conn, spare, spare.buf, spare.buf.buf, spare.length
      ensures Valid()
      ensures old(gotHello) ==> r == Panic && View() == old(View()) && conn.out == old(conn.out)
      ensures !old(gotHello) ==>
                && View() == AfterHello(old(View()), content)
                && (r.Ok? <==> HelloAccepted(content))
                && conn.out == old(conn.out) + if r.Ok? then HelloWire(maxFrameSize) else []
    {
      hide ScanAll, ScanStep, HelloView, HelloWire;
      assert conn.out + [] == conn.out;
      if gotHello {
        return Panic;
      }
      gotHello := true;
      var healthcheck := false;
      var result := ReadHello(content);
      healthcheck := result.1;
      if healthcheck {
        cancelled := true;
      }
      if !result.0.Ok? {
        return result.0;
      }
      if maxFrameSize == 0 {
        return Error;
      }
      r := WriteHello(spare, conn, maxFrameSize);
      HelloWireIs(maxFrameSize);
    }

    /** The entry loop; the second result tells whether a healthcheck entry was seen. */
    method ReadHello(content: bytes) returns (r: (Outcome<()>, bool))
      requires maxFrameSize == 0 && engineID == []
      modifies this`maxFrameSize, this`engineID
      ensures var (s, ok) := ReadSettings(ScanAll(content).0, NO_SETTINGS);
              && Settings(maxFrameSize, engineID, r.1) == s
              && (r.0.Ok? <==> ok && ScanAll(content).1.Exhausted?)
    {
      hide ScanStep, ScanAll, ToU32;
      var s := new KVScanner(content, -1);
      var k := new KVEntry();
      var healthcheck := false;
      ghost var whole := ReadSettings(ScanAll(content).0, NO_SETTINGS);
      while true
        invariant !s.lastErr && ScanAll(s.buf).1 == ScanAll(content).1
        invariant whole == ReadSettings(ScanAll(s.buf).0, Settings(maxFrameSize, engineID, healthcheck))
        decreases |s.buf|
      {
        ghost var here := s.buf;
        ScanAllCases(here);
        var more := s.Next(k);
        if more.Panic? {
          return (Panic, healthcheck);
        }
        if more == Ok(false) {
          break;
        }
        FirstOfList(k.View(), ScanAll(s.buf).0);
        var isSize := k.NameEquals(NAME_MAX_FRAME_SIZE);
        var isEngine := k.NameEquals(NAME_ENGINE_ID);
        var isHealthcheck := k.NameEquals(NAME_HEALTHCHECK);
        if isSize {
          maxFrameSize := ToU32(k.intVal);
          if maxFrameSize < MIN_FRAME_SIZE {
            return (Error, healthcheck);
          }
          if maxFrameSize > MAX_FRAME_SIZE {
            return (Error, healthcheck);
          }
        } else if isEngine {
          engineID := k.byteVal;
        } else if isHealthcheck {
          healthcheck := true;
        }
      }
      return (if s.lastErr then Error else Ok(()), healthcheck);
    }

    /** onNotify: the acknowledgement carries the notification's IDs and the handler's actions. */
    method OnNotify(f: FrameView, spare: Frame, script: Script) returns (r: Outcome<()>, handled: nat)
      requires spare.Reset() && forall a <- script.acts :: a.Valid()
      modifies conn, spare, spare.buf, spare.buf.buf, spare.length
      ensures handled == HandledCount(f.content)
      ensures r.Ok? <==> NotifyResult(f.content, script).Ok? && AckFor(f, script).Size() <= maxFrameSize
      ensures r.Panic? <==> NotifyResult(f.content, script).Panic?
      ensures conn.out == old(conn.out) +
              if NotifyResult(f.content, script).Ok? && AckFor(f, script).Size() <= maxFrameSize then AckFor(f, script).Wire() else []
    {
      hide FrameView.Size, FrameView.Wire, NotifyResult, HeadStep;
      var called, n := NotifyCallback(f.content, script);
      handled := n;
      assert conn.out + [] == conn.out;
      if called.Panic? {
        return Panic, handled;
      }
      var acts := if handled == 1 then script.acts else [];
      r := WriteAck(spare, conn, maxFrameSize, f.streamID, f.frameID, acts, called.Ok?);
    }

    /** onHAProxyDisconnect: the connection is given up unless the frame is empty or has an unexpected entry. */
    method OnHAProxyDisconnect(content: bytes) returns (r: Outcome<()>)
      modifies this`cancelled
      ensures cancelled <==> old(cancelled) || Leaves(content)
      ensures r.Ok? <==> Leaves(content) && 0 <= StatusCode(ScanAll(content).0, 0).value <= 2
    {
      hide ScanStep, ScanAll;
      if |content| == 0 {
        return Error;
      }
      var s := new KVScanner(content, -1);
      var k := new KVEntry();
      var code: i64 := 0;
      ghost var whole := StatusCode(ScanAll(content).0, 0);
      while true
        invariant cancelled == old(cancelled) && ScanAll(s.buf).1 == ScanAll(content).1
        invariant whole == StatusCode(ScanAll(s.buf).0, code)
        decreases |s.buf|
      {
        ghost var here := s.buf;
        ScanAllCases(here);
        var more := s.Next(k);
        if more.Panic? {
          return Panic;
        }
        if more == Ok(false) {
          break;
        }
        FirstOfList(k.View(), ScanAll(s.buf).0);
        var isCode := k.NameEquals(NAME_STATUS_CODE);
        var isMessage := k.NameEquals(NAME_MESSAGE);
        if isCode {
          code := k.intVal;
        } else if !isMessage {
          return Error;
        }
      }
      cancelled := true;
      return if 0 <= code <= 2 then Ok(()) else Error;
    }

    /**
     * frameHandler as a worker calls it, behind the handshake: its effect is HandleFrame. A second
     * hello panics and an unknown type is an error.
     */
    method FrameHandler(f: FrameView, spare: Frame, script: Script) returns (r: Outcome<()>, handled: nat)
      requires Valid() && gotHello && spare.Reset() && forall a <- script.acts :: a.Valid()
      modifies this`gotHello, this`maxFrameSize, this`engineID, this`cancelled
      modifies conn, spare, spare.buf, spare.buf.buf, spare.length
      ensures Valid()
      ensures var (c, out) := HandleFrame(old(View()), f, script);
              View() == c && conn.out == old(conn.out) + out
      ensures f.frameType == HAPROXY_HELLO ==> r == Panic
      ensures f.frameType == NOTIFY ==> (r.Ok? <==> Acknowledges(old(View()), f, script)) && handled == HandledCount(f.content)
      ensures f.frameType == HAPROXY_DISCONNECT ==>
                (r.Ok? <==> Leaves(f.content) && 0 <= StatusCode(ScanAll(f.content).0, 0).value <= 2)
      ensures f.frameType !in {HAPROXY_HELLO, HAPROXY_DISCONNECT, NOTIFY} ==> r == Error
    {
      hide FrameView.Size, FrameView.Wire, NotifyResult, HandledCount, AfterHello, HelloAccepted, HelloWire, ScanAll, StatusCode, Leaves;
      handled := 0;
      assert conn.out + [] == conn.out;
      if f.frameType == HAPROXY_HELLO {
        r := OnHAProxyHello(f.content, spare);
      } else if f.frameType == NOTIFY {
        r, handled := OnNotify(f, spare, script);
      } else if f.frameType == HAPROXY_DISCONNECT {
        r := OnHAProxyDisconnect(f.content);
      } else {
        r := Error;
      }
    }

    /**
     * One turn of the read loop, with a frame acquired for what is read and one more for the
     * AGENT-HELLO: the fields, the frame handed on, the bytes written and the input left are
     * those of ServeStep.
     */
    method ServeTurn(rd: ByteReader) returns (served: Served)
      requires Valid()
      modifies this`gotHello, this`maxFrameSize, this`engineID, this`cancelled, conn, rd
      ensures Valid()
      ensures var (c, turn, out, rest) := ServeStep(old(View()), old(rd.data));
              && View() == c && served == turn && conn.out == old(conn.out) + out
              && (!served.Ended? ==> rd.data == rest)
    {
      hide ReadFrame, HelloAccepted, HelloSettings, HelloWire, AfterHello;
      assert conn.out + [] == conn.out;
      var f := new Frame();
      var limit := if gotHello then maxFrameSize else INITIAL_LIMIT;
      var got := f.ReadFrom(rd, limit);
      if got != Ok(true) {
        return Ended;
      }
      var content := f.buf.ReadBytes();
      if gotHello {
        return Schedule(FrameView(f.frameType, f.flags, f.streamID, f.frameID, content.value));
      }
      if f.frameType != HAPROXY_HELLO {
        return Ended;
      }
      var spare := new Frame();
      var r := OnHAProxyHello(content.value, spare);
      return if !r.Ok? || cancelled then Ended else Continue;
    }

    /** The read loop. */
    method Serve(rd: ByteReader)
      requires Valid()
      modifies this, conn, rd
      ensures var (c, fs, out) := ServeAll(old(View()), old(rd.data));
              View() == c && scheduled == old(scheduled) + fs && conn.out == old(conn.out) + out
    {
      hide ServeStep, ServeAll;
      ghost var start, input := View(), rd.data;
      ghost var fs: seq<FrameView>, out: bytes := [], [];
      assert scheduled + fs == scheduled && conn.out + out == conn.out;
      Nothing(ServeAll(start, input));
      var served := Continue;
      while !served.Ended?
        invariant Valid() && scheduled == old(scheduled) + fs && conn.out == old(conn.out) + out
        invariant !served.Ended? ==> Behind(ServeAll(View(), rd.data), fs, out) == ServeAll(start, input)
        invariant served.Ended? ==> (View(), fs, out) == ServeAll(start, input)
        decreases if served.Ended? then 0 else |rd.data| + 1
      {
        ghost var here, b := View(), rd.data;
        ghost var sent := ServeStep(here, b).2;
        served := ServeTurn(rd);
        Joined(fs, out, here, b);
        assert old(conn.out) + out + sent == old(conn.out) + (out + sent);
        out := out + sent;
        if served.Schedule? {
          assert old(scheduled) + fs + [served.f] == old(scheduled) + (fs + [served.f]);
          scheduled := scheduled + [served.f];
          fs := fs + [served.f];
        }
      }
    }
  }

  /** The result of a run behind what it has already handed on and written. */
  function Behind(run: (Client, seq<FrameView>, bytes), fs: seq<FrameView>, out: bytes): (Client, seq<FrameView>, bytes) {
    (run.0, fs + run.1, out + run.2)
  }

  lemma Nothing(run: (Client, seq<FrameView>, bytes))
    ensures Behind(run, [], []) == run
  {
    assert [] + run.1 == run.1 && [] + run.2 == run.2;
  }

  lemma FirstOfList(e: Entry, rest: seq<Entry>)
    ensures ([e] + rest)[0] == e && ([e] + rest)[1..] == rest
  {
  }

  lemma HelloWireIs(maxFrameSize: u32)
    requires HelloView(maxFrameSize).Size() < TWO_32
    ensures HelloWire(maxFrameSize) == HelloView(maxFrameSize).Wire()
  {
  }

  /** One turn moves from what is still to come to what has been. */
  lemma Joined(fs: seq<FrameView>, out: bytes, c: Client, b: bytes)
    ensures var (next, served, sent, rest) := ServeStep(c, b);
            Behind(ServeAll(c, b), fs, out) ==
            match served
            case Ended => (next, fs, out + sent)
            case Continue => Behind(ServeAll(next, rest), fs, out + sent)
            case Schedule(f) => Behind(ServeAll(next, rest), fs + [f], out + sent)
  {
    hide ServeStep;
    var (next, served, sent, rest) := ServeStep(c, b);
    var (last, more, moreOut) := ServeAll(next, rest);
    assert out + (sent + moreOut) == (out + sent) + moreOut;
    assert fs + [] == fs;
    if served.Schedule? {
      assert fs + ([served.f] + more) == (fs + [served.f]) + more;
    }
  }
}
