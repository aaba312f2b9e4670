/** The receiver of peer messages (peers/protocol.go). */
module PeerReceiver {
  import opened Common
  import opened Streams
  import opened Varints
  import opened Encoding
  import opened TableValues
  import opened StickTables
  import opened EntryUpdates
  import opened PeerMessages

  // ---------- specification ----------

  /** The latest definition, the ID of the latest update, and what the handler has been given. */
  datatype State = State(table: Option<TableDef>, lastID: Option<u32>, handled: seq<Entry>)

  const START := State(None, None, [])

  predicate IsUpdate(m: Raw) {
    m.cls == CLASS_UPDATES && m.msgType in {ENTRY_UPDATE, UPDATE_TIMED, INCREMENTAL_UPDATE, INCREMENTAL_TIMED}
  }

  /** A full update carries its own ID. */
  predicate IsFull(m: Raw) {
    IsUpdate(m) && (m.msgType == ENTRY_UPDATE || m.msgType == UPDATE_TIMED)
  }

  predicate IsTimed(m: Raw) {
    IsUpdate(m) && (m.msgType == UPDATE_TIMED || m.msgType == INCREMENTAL_TIMED)
  }

  predicate IsDefinition(m: Raw) {
    m.cls == CLASS_UPDATES && m.msgType == TABLE_DEFINITION
  }

  /** The ID an update gets unless it carries its own. */
  function DefaultID(lastID: Option<u32>): u32 {
    if lastID.None? then 0 else (lastID.value + 1) % TWO_32
  }

  /** One message: table switches and acknowledgements are accepted and ignored. */
  function Step(s: State, m: Raw): Outcome<State> {
    if m.cls == CLASS_CONTROL then
      if m.msgType <= HEARTBEAT then Ok(s) else Error
    else if m.cls != CLASS_UPDATES then Error
    else if IsDefinition(m) then
      var (d, _) :- ParseDef(m.data, false);
      Ok(s.(table := Some(d)))
    else if m.msgType == TABLE_SWITCH || m.msgType == UPDATE_ACK then Ok(s)
    else if !IsUpdate(m) || s.table.None? then Error
    else
      var (e, _) :- ParseEntry(s.table.value, IsFull(m), IsTimed(m), DefaultID(s.lastID), m.data);
      Ok(s.(lastID := Some(e.localUpdateID), handled := s.handled + [e]))
  }

  /** What the receiver writes back at once: a partial-sync message for a sync request. */
  function Reply(m: Raw): bytes {
    if m.cls == CLASS_CONTROL && m.msgType == SYNC_REQUEST then [CLASS_CONTROL, SYNC_PARTIAL] else []
  }

  datatype End = Closed | Failed | Crashed

  /** A whole session: the state, the replies and how it ends. */
  function Run(s: State, b: bytes): (r: (State, bytes, End))
    decreases |b|
  {
    match ReadRaw(b)
    case EndOfInput => (s, [], Closed)
    case ReadError => (s, [], Failed)
    case ReadPanic => (s, [], Crashed)
    case Got(m, rest) =>
      match Step(s, m)
      case Error => (s, [], Failed)
      case Panic => (s, [], Crashed)
      case Ok(next) =>
        var (last, replies, end) := Run(next, rest);
        (last, Reply(m) + replies, end)
  }

  /** The messages one after the other, all of which must be accepted. */
  function RunMessages(s: State, ms: seq<Raw>): Outcome<State>
    decreases ms
  {
    if ms == [] then Ok(s)
    else
      var next :- Step(s, ms[0]);
      RunMessages(next, ms[1..])
  }

  /** A stream of whole messages is processed to a clean end exactly when every message is accepted. */
  lemma {:induction false} RunOfStream(s: State, ms: seq<Raw>)
    requires forall m <- ms :: m.Sendable()
    ensures Run(s, WireAll(ms)).2 == Closed <==> RunMessages(s, ms).Ok?
    ensures RunMessages(s, ms).Ok? ==> Run(s, WireAll(ms)).0 == RunMessages(s, ms).value
    decreases ms
  {
    hide ReadRaw, Step, Raw.Wire;
    if ms == [] {
      NothingLeft();
    } else {
      ReadBack(ms[0], WireAll(ms[1..]));
      if Step(s, ms[0]).Ok? {
        RunOfStream(Step(s, ms[0]).value, ms[1..]);
      }
    }
  }

  lemma {:induction false} RunMessagesAppend(s: State, a: seq<Raw>, b: seq<Raw>)
    ensures RunMessages(s, a + b) ==
            match RunMessages(s, a)
            case Ok(next) => RunMessages(next, b)
            case f => f
    decreases a
  {
    hide Step;
    if a == [] {
      assert a + b == b;
    } else {
      assert (a + b)[1..] == a[1..] + b;
      if Step(s, a[0]).Ok? {
        RunMessagesAppend(Step(s, a[0]).value, a[1..], b);
      }
    }
  }

  // ---------- what the receiver writes ----------

  /** Sync requests among the messages. */
  function SyncRequests(ms: seq<Raw>): nat {
    if ms == [] then 0
    else (if ms[0].cls == CLASS_CONTROL && ms[0].msgType == SYNC_REQUEST then 1 else 0) + SyncRequests(ms[1..])
  }

  /** The peer reads back one partial-sync message for each of its sync requests, and nothing else. */
  lemma {:induction false} RepliesReadBack(s: State, ms: seq<Raw>)
    requires (forall m <- ms :: m.Sendable()) && RunMessages(s, ms).Ok?
    ensures var (replies, end) := ReadAll(Run(s, WireAll(ms)).1);
            && end == EndOfInput && |replies| == SyncRequests(ms)
            && forall r <- replies :: r == Raw(CLASS_CONTROL, SYNC_PARTIAL, [])
    decreases ms
  {
    hide ReadRaw, Step, Raw.Wire, ReadAll;
    if ms == [] {
      NothingLeft();
      NothingRead();
    } else {
      ReadBack(ms[0], WireAll(ms[1..]));
      var next := Step(s, ms[0]).value;
      RepliesReadBack(next, ms[1..]);
      OneReply(Run(next, WireAll(ms[1..])).1);
    }
  }

  lemma NothingRead()
    ensures ReadAll([]) == ([], EndOfInput)
  {
  }

  lemma OneReply(more: bytes)
    ensures [] + more == more
    ensures ReadAll([CLASS_CONTROL, SYNC_PARTIAL] + more) == ([Raw(CLASS_CONTROL, SYNC_PARTIAL, [])] + ReadAll(more).0, ReadAll(more).1)
  {
    hide ReadRaw;
    var m := Raw(CLASS_CONTROL, SYNC_PARTIAL, []);
    assert m.Wire() == [CLASS_CONTROL, SYNC_PARTIAL];
    ReadBack(m, more);
  }

  // ---------- which messages are accepted ----------

  /**
   * Exactly the messages that are accepted: the five control messages; definitions that parse;
   * switches and acknowledgements; and, behind a definition, updates that parse under it.
   */
  lemma StepAcceptsIff(s: State, m: Raw)
    ensures Step(s, m).Ok? <==>
              || (m.cls == 0 && m.msgType <= 4)
              || (m.cls == 10 && m.msgType == 130 && ParseDef(m.data, false).Ok?)
              || (m.cls == 10 && m.msgType in {131, 132})
              || (m.cls == 10 && m.msgType in {128, 129, 133, 134} && s.table.Some?
                  && ParseEntry(s.table.value, m.msgType in {128, 133}, m.msgType in {133, 134}, DefaultID(s.lastID), m.data).Ok?)
  {
    hide ParseDef, ParseEntry;
  }

  /**
   * The four kinds of update, by the bytes a peer sends: full ones carry an ID and incremental
   * ones count on from the update before, timed ones carry an expiry; key and data arrive as they
   * are, under the latest definition.
   */
  lemma UpdateArrives(s: State, t: byte, id: u32, expiry: u32, key: Key, data: seq<Data>)
    requires t in {128, 129, 133, 134} && s.table.Some?
    requires var table := s.table.value;
             var e := Entry(table, key, data, false, 0, false, 0);
             e.Valid() && e.MatchesTable()
    ensures key.Encode(s.table.value.keyLength).Ok?
    ensures var full, timed := t in {128, 133}, t in {133, 134};
            var b := (if full then BE32(id) else []) + (if timed then BE32(expiry) else [])
                     + (key.Encode(s.table.value.keyLength).value + EncodeData(data));
            var n := if full then id else match s.lastID { case None => 0 case Some(last) => (last + 1) % TWO_32 };
            Step(s, Raw(10, t, b)) ==
            Ok(State(s.table, Some(n), s.handled + [Entry(s.table.value, key, data, full, n, timed, if timed then expiry else 0)]))
  {
    hide BE32, Key.Encode, Key.Fits, KeyKindOf, DataMatches, EncodeData, ParseEntry;
    var full, timed := t in {128, 133}, t in {133, 134};
    var e := Entry(s.table.value, key, data, full, id, timed, expiry);
    assert e.Valid() && e.MatchesTable();
    EntryRoundTrip(e, DefaultID(s.lastID), []);
    assert e.Encode().value + [] == e.Encode().value;
  }

  // ---------- which messages crash the receiver ----------

  /** The announced length of the name is beyond what can be allocated. */
  predicate DefinitionPanics(b: bytes) {
    match ParseNumbers(b, 2, false)
    case Ok((ns, _)) => ns[1] > MAX_ALLOC
    case _ => false
  }

  /** The key is cut short, or runs past the end. */
  predicate KeyPanics(kind: KeyKind, keySize: u64, b: bytes) {
    match kind
    case KInt => |b| < 4
    case KIPv4 => keySize == 4 && |b| < 4
    case KIPv6 => keySize == 16 && |b| < 16
    case KString =>
      (match ParseNumber(b, false)
       case Ok((length, rest)) => length > |rest|
       case _ => false)
    case KBinary => keySize > |b|
  }

  /** A dictionary value whose announced length is beyond what can be allocated. */
  predicate DictPanics(b: bytes) {
    match ParseNumbers(b, 3, false)
    case Ok((ns, _)) => ns[0] >= 2 && ns[2] > MAX_ALLOC
    case _ => false
  }

  /** Behind values that read well, some dictionary value panics. */
  ghost predicate DataPanics(types: seq<DataTypeDefinition>, b: bytes) {
    exists i :: PanicsAt(types, i, b)
  }

  predicate PanicsAt(types: seq<DataTypeDefinition>, i: nat, b: bytes) {
    i < |types| &&
    match ParseDatas(types[..i], b)
    case Ok((_, rest)) => DataKindOf(types[i].dataType) == Some(DDict) && DictPanics(rest)
    case _ => false
  }

  /** An update under a table: too short for its ID and expiry, an unknown key type, a bad key or a bad value. */
  ghost predicate UpdatePanics(table: TableDef, full: bool, timed: bool, b: bytes) {
    var fixed := (if full then 4 else 0) + if timed then 4 else 0;
    || |b| < fixed
    || match KeyKindOf(table.keyType)
       case None => true
       case Some(kind) =>
         || KeyPanics(kind, table.keyLength, b[fixed..])
         || match ParseKey(kind, table.keyLength, b[fixed..])
            case Ok((_, rest)) => DataPanics(table.dataTypes, rest)
            case _ => false
  }

  /** Exactly the messages that panic, by their bytes and the latest definition. */
  lemma StepPanicIff(s: State, m: Raw)
    ensures Step(s, m).Panic? <==>
              || (IsDefinition(m) && DefinitionPanics(m.data))
              || (IsUpdate(m) && s.table.Some? && UpdatePanics(s.table.value, IsFull(m), IsTimed(m), m.data))
  {
    hide ParseDef, ParseEntry, DefinitionPanics, UpdatePanics;
    DefinitionPanicIff(m.data);
    if IsUpdate(m) && s.table.Some? {
      EntryPanicIff(s.table.value, IsFull(m), IsTimed(m), DefaultID(s.lastID), m.data);
    }
  }

  lemma DefinitionPanicIff(b: bytes)
    ensures ParseDef(b, false).Panic? <==> DefinitionPanics(b)
  {
    hide ParseNumber, ParseTypes, ToI64;
    TwoNumbersRead(b);
  }

  lemma TwoNumbersRead(b: bytes)
    ensures ParseNumbers(b, 2, false) ==
            match ParseNumber(b, false)
            case Ok((x, b1)) =>
              (match ParseNumber(b1, false)
               case Ok((y, rest)) => Ok(([x, y], rest))
               case _ => Error)
            case _ => Error
  {
    hide ParseNumber;
    match ParseNumber(b, false)
    case Ok((x, b1)) =>
      OneNumberRead(b1);
      match ParseNumber(b1, false) {
        case Ok((y, _)) => assert [x] + [y] == [x, y];
        case _ =>
      }
    case _ =>
  }

  lemma OneNumberRead(b: bytes)
    ensures ParseNumbers(b, 1, false) ==
            match ParseNumber(b, false)
            case Ok((x, rest)) => Ok(([x], rest))
            case _ => Error
  {
    hide ParseNumber;
    match ParseNumber(b, false)
    case Ok((x, rest)) => assert ParseNumbers(rest, 0, false) == Ok(([], rest)) && [x] + [] == [x];
    case _ =>
  }

  lemma EntryPanicIff(table: TableDef, full: bool, timed: bool, id: u32, b: bytes)
    ensures ParseEntry(table, full, timed, id, b).Panic? <==> UpdatePanics(table, full, timed, b)
  {
    hide ParseKey, KeyPanics, ParseDatas, DataPanics, KeyKindOf, FromBE32;
    var fixed := (if full then 4 else 0) + if timed then 4 else 0;
    if |b| >= fixed && KeyKindOf(table.keyType).Some? {
      var kind := KeyKindOf(table.keyType).value;
      FixedRead(full, timed, id, b);
      KeyPanicIff(kind, table.keyLength, b[fixed..]);
      match ParseKey(kind, table.keyLength, b[fixed..])
      case Ok((_, rest)) => DatasPanicIff(table.dataTypes, rest);
      case _ =>
    }
  }

  /** Behind the ID and the expiry. */
  lemma FixedRead(full: bool, timed: bool, id: u32, b: bytes)
    requires |b| >= (if full then 4 else 0) + if timed then 4 else 0
    ensures var r := ParseFixed(b, full, id);
            && r.Ok? && ParseFixed(r.value.1, timed, 0).Ok?
            && ParseFixed(r.value.1, timed, 0).value.1 == b[(if full then 4 else 0) + if timed then 4 else 0..]
  {
    hide FromBE32;
    assert b[0..] == b;
  }

  lemma KeyPanicIff(kind: KeyKind, keySize: u64, b: bytes)
    ensures ParseKey(kind, keySize, b).Panic? <==> KeyPanics(kind, keySize, b)
  {
    hide Dec, FromBE32, ToI32;
  }

  lemma DictPanicIff(b: bytes)
    ensures ParseDict(b).Panic? <==> DictPanics(b)
  {
    hide ParseNumber, ReadPadded;
    match ParseNumber(b, false)
    case Ok((_, b1)) => TwoNumbersRead(b1);
    case _ =>
  }

  lemma ValuePanicIff(kind: DataKind, b: bytes)
    ensures ParseData(kind, b).Panic? <==> kind == DDict && DictPanics(b)
  {
    hide ParseNumber, ParseNumbers, ParseDict, DictPanics, ToI32, ToU32;
    DictPanicIff(b);
  }

  lemma {:induction false} DatasPanicIff(types: seq<DataTypeDefinition>, b: bytes)
    ensures ParseDatas(types, b).Panic? <==> DataPanics(types, b)
  {
    hide ParseData, DataKindOf, DictPanics, PanicsAt;
    if types == [] {
      NonePanics(b);
    } else {
      PanicsFirst(types, b);
      match DataKindOf(types[0].dataType)
      case Some(kind) =>
        ValuePanicIff(kind, b);
        match ParseData(kind, b) {
          case Ok((_, b1)) =>
            DatasPanicIff(types[1..], b1);
            forall i: nat
              ensures PanicsAt(types, i + 1, b) <==> PanicsAt(types[1..], i, b1)
            {
              PanicsLater(types, i, b);
            }
            assert forall i: nat :: PanicsAt(types[1..], i, b1) ==> PanicsAt(types, i + 1, b);
            assert forall j: nat :: PanicsAt(types, j, b) ==> j == 0 || PanicsAt(types[1..], j - 1, b1) by {
              forall j: nat | PanicsAt(types, j, b) && j > 0
                ensures PanicsAt(types[1..], j - 1, b1)
              {
                PanicsLater(types, j - 1, b);
              }
            }
          case _ =>
            forall j: nat | j > 0
              ensures !PanicsAt(types, j, b)
            {
              PanicsLater(types, j - 1, b);
            }
        }
      case None =>
        forall j: nat | j > 0
          ensures !PanicsAt(types, j, b)
        {
          PanicsLater(types, j - 1, b);
        }
    }
  }

  lemma NonePanics(b: bytes)
    ensures !DataPanics([], b)
  {
  }

  lemma PanicsFirst(types: seq<DataTypeDefinition>, b: bytes)
    requires types != []
    ensures PanicsAt(types, 0, b) <==> DataKindOf(types[0].dataType) == Some(DDict) && DictPanics(b)
  {
    hide DictPanics, DataKindOf;
    ParseDatasEnd(b);
    assert types[..0] == [];
  }

  lemma PanicsLater(types: seq<DataTypeDefinition>, i: nat, b: bytes)
    requires types != []
    ensures PanicsAt(types, i + 1, b) <==>
              match DataKindOf(types[0].dataType)
              case None => false
              case Some(kind) =>
                match ParseData(kind, b)
                case Ok((_, b1)) => PanicsAt(types[1..], i, b1)
                case _ => false
  {
    hide DictPanics, DataKindOf, ParseData, ParseDatas;
    if i + 1 < |types| {
      var front := types[..i + 1];
      assert front[0] == types[0] && front[1..] == types[1..][..i] && types[1..][i] == types[i + 1];
      ParseDatasStep(front, b);
    }
  }

  // ---------- which ID, table and data an update gets ----------

  function UpdatesIn(ms: seq<Raw>): (us: seq<Raw>) {
    if ms == [] then []
    else UpdatesIn(ms[..|ms| - 1]) + if IsUpdate(ms[|ms| - 1]) then [ms[|ms| - 1]] else []
  }

  /** The latest definition among the messages. */
  function LatestTable(ms: seq<Raw>): Option<TableDef> {
    if ms == [] then None
    else
      var m := ms[|ms| - 1];
      if IsDefinition(m) && ParseDef(m.data, false).Ok? then Some(ParseDef(m.data, false).value.0)
      else LatestTable(ms[..|ms| - 1])
  }

  /** Counted from the latest full update: its own ID plus the incremental updates since, or their zero-based index when there is no full one. */
  function ExpectedID(us: seq<Raw>): u32
    requires us != []
  {
    if LastFull(us) == |us| then (|us| - 1) % TWO_32
    else (ExplicitID(us[LastFull(us)]) + (|us| - 1 - LastFull(us))) % TWO_32
  }

  /** Position of the last full update, |us| when there is none. */
  function LastFull(us: seq<Raw>): (i: nat)
    ensures i <= |us|
    ensures i < |us| ==> IsFull(us[i]) && forall j :: i < j < |us| ==> !IsFull(us[j])
    ensures i == |us| ==> forall j :: 0 <= j < |us| ==> !IsFull(us[j])
  {
    if us == [] then 0
    else
      var n := |us| - 1;
      if IsFull(us[n]) then n
      else
        var i := LastFull(us[..n]);
        assert forall j :: 0 <= j < n ==> us[j] == us[..n][j];
        if i == n then n + 1 else i
  }

  function ExplicitID(m: Raw): u32 {
    if |m.data| < 4 then 0 else FromBE32(m.data)
  }

  /** What holds after every accepted run from a fresh receiver. */
  ghost predicate Accounted(ms: seq<Raw>, s: State) {
    var us := UpdatesIn(ms);
    && s.table == LatestTable(ms)
    && |s.handled| == |us|
    && s.lastID == (if us == [] then None else Some(ExpectedID(us)))
  }

  /** Key, data, flags and expiry of e are what Unmarshal reads from the message under e's table. */
  predicate ReadFrom(e: Entry, m: Raw) {
    match ParseEntry(e.table, IsFull(m), IsTimed(m), e.localUpdateID, m.data)
    case Ok((read, _)) => read == e
    case _ => false
  }

  /** Message k is the i-th update (from zero) and e is what the receiver makes of it. */
  ghost predicate HandledFrom(ms: seq<Raw>, k: nat, i: nat, e: Entry) {
    && k < |ms| && IsUpdate(ms[k])
    && LatestTable(ms[..k]) == Some(e.table)
    && |UpdatesIn(ms[..k + 1])| == i + 1
    && e.localUpdateID == ExpectedID(UpdatesIn(ms[..k + 1]))
    && e.withExpiry == IsTimed(ms[k])
    && DataKindsMatch(e)
    && ReadFrom(e, ms[k])
  }

  /** e is the i-th update of the run. */
  ghost predicate Explained(ms: seq<Raw>, i: nat, e: Entry) {
    exists k :: HandledFrom(ms, k, i, e)
  }

  /** One data value of the right kind for each of the table's types. */
  predicate DataKindsMatch(e: Entry) {
    && |e.data| == |e.table.dataTypes|
    && forall i :: 0 <= i < |e.data| ==> DataKindOf(e.table.dataTypes[i].dataType) == Some(e.data[i].Kind())
  }

  lemma {:induction false} ParsedKinds(types: seq<DataTypeDefinition>, b: bytes)
    requires ParseDatas(types, b).Ok?
    ensures var ds := ParseDatas(types, b).value.0;
            |ds| == |types| && forall i :: 0 <= i < |ds| ==> DataKindOf(types[i].dataType) == Some(ds[i].Kind())
  {
    hide DataKindOf, ParseData;
    if types != [] {
      var kind := DataKindOf(types[0].dataType).value;
      ParsedKind(kind, b);
      ParsedKinds(types[1..], ParseData(kind, b).value.1);
    }
  }

  lemma ParsedKind(kind: DataKind, b: bytes)
    requires ParseData(kind, b).Ok?
    ensures ParseData(kind, b).value.0.Kind() == kind
  {
    hide ParseNumber, ParseNumbers, ToI32, ToU32;
    if kind == DDict {
      ParsedDict(b);
    }
  }

  lemma ParsedDict(b: bytes)
    requires ParseDict(b).Ok?
    ensures ParseDict(b).value.0.DictData?
  {
    hide ParseNumber, ReadPadded;
  }

  lemma ParsedEntry(table: TableDef, withID: bool, withExpiry: bool, id: u32, b: bytes)
    requires ParseEntry(table, withID, withExpiry, id, b).Ok?
    ensures var e := ParseEntry(table, withID, withExpiry, id, b).value.0;
            && e.table == table && e.withExpiry == withExpiry && DataKindsMatch(e)
            && e.localUpdateID == (if withID then FromBE32(b) else id)
            && (withID ==> |b| >= 4)
            && ParseEntry(table, withID, withExpiry, e.localUpdateID, b) == ParseEntry(table, withID, withExpiry, id, b)
  {
    hide FromBE32, ParseKey, ParseDatas, DataKindOf;
    var b1 := ParseFixed(b, withID, id).value.1;
    var b2 := ParseFixed(b1, withExpiry, 0).value.1;
    var kind := KeyKindOf(table.keyType).value;
    ParsedKinds(table.dataTypes, ParseKey(kind, table.keyLength, b2).value.1);
  }

  /** Into a fresh update nothing is left over from before. */
  lemma FreshEntry(table: TableDef, withID: bool, withExpiry: bool, id: u32, b: bytes)
    ensures match ParseEntry(table, withID, withExpiry, id, b)
            case Ok((e, _)) => e.(data := [] + e.data, expiry := if withExpiry then e.expiry else 0) == e
            case _ => true
  {
    hide FromBE32, ParseKey, ParseDatas, KeyKindOf;
    match ParseEntry(table, withID, withExpiry, id, b)
    case Ok((e, _)) => assert [] + e.data == e.data;
    case _ =>
  }

  lemma ExpectedIDStep(us: seq<Raw>, m: Raw)
    requires IsUpdate(m)
    ensures ExpectedID(us + [m]) ==
            if IsFull(m) then ExplicitID(m) else DefaultID(if us == [] then None else Some(ExpectedID(us)))
  {
    hide ExplicitID;
    var all := us + [m];
    assert all[..|us|] == us;
    if !IsFull(m) && us != [] {
      assert LastFull(all) == if LastFull(us) == |us| then |all| else LastFull(us);
      SuccMod(if LastFull(us) == |us| then |us| - 1 else ExplicitID(us[LastFull(us)]) + (|us| - 1 - LastFull(us)));
    } else if IsFull(m) {
      assert LastFull(all) == |us|;
    }
  }

  lemma SuccMod(x: nat)
    ensures (x % TWO_32 + 1) % TWO_32 == (x + 1) % TWO_32
  {
  }

  /**
   * Over any accepted run: the i-th entry handled comes from the i-th update message and has the
   * ID, the table and the data kinds that the messages up to it determine, whatever control,
   * switch or definition messages lie between.
   */
  lemma {:induction false} RunAccounts(ms: seq<Raw>)
    requires RunMessages(START, ms).Ok?
    ensures Accounted(ms, RunMessages(START, ms).value)
    ensures var h := RunMessages(START, ms).value.handled;
            forall i :: 0 <= i < |h| ==> Explained(ms, i, h[i])
    decreases |ms|
  {
    hide Step, HandledFrom, Accounted, RunMessages;
    if ms == [] {
      NoMessages();
    } else {
      var n := |ms| - 1;
      var before, m := ms[..n], ms[n];
      assert ms == before + [m];
      RunMessagesAppend(START, before, [m]);
      var s := RunMessages(START, before).value;
      OneMessage(s, m);
      RunAccounts(before);
      StepAccounts(ms, s);
      assert RunMessages(START, ms) == Step(s, m);
      var h := RunMessages(START, ms).value.handled;
      forall i | 0 <= i < |h|
        ensures Explained(ms, i, h[i])
      {
        if i < |s.handled| {
          assert Explained(before, i, s.handled[i]);
          var k :| HandledFrom(before, k, i, s.handled[i]);
          HandledEarlier(ms, n, k, i, h[i]);
          assert Explained(ms, i, h[i]);
        } else {
          assert HandledFrom(ms, n, i, h[i]) && Explained(ms, i, h[i]);
        }
      }
    }
  }

  lemma NoMessages()
    ensures RunMessages(START, []) == Ok(START) && Accounted([], START)
  {
  }

  lemma OneMessage(s: State, m: Raw)
    ensures RunMessages(s, [m]) == Step(s, m)
  {
    hide Step;
    assert [m][1..] == [];
    if Step(s, m).Ok? {
      assert RunMessages(Step(s, m).value, []) == Ok(Step(s, m).value);
    }
  }

  lemma HandledEarlier(ms: seq<Raw>, n: nat, k: nat, i: nat, e: Entry)
    requires n <= |ms| && HandledFrom(ms[..n], k, i, e)
    ensures HandledFrom(ms, k, i, e)
  {
    hide LatestTable, UpdatesIn, ExpectedID, DataKindsMatch, IsTimed, IsUpdate, ReadFrom;
    assert ms[..n][..k] == ms[..k] && ms[..n][..k + 1] == ms[..k + 1];
  }

  lemma StepAccounts(ms: seq<Raw>, s: State)
    requires ms != [] && Accounted(ms[..|ms| - 1], s)
    requires Step(s, ms[|ms| - 1]).Ok?
    ensures var next := Step(s, ms[|ms| - 1]).value;
            && Accounted(ms, next)
            && s.handled <= next.handled
            && forall i :: |s.handled| <= i < |next.handled| ==> HandledFrom(ms, |ms| - 1, i, next.handled[i])
  {
    hide ParseDef, ParseEntry, ExpectedID, DataKindsMatch, FromBE32;
    var n := |ms| - 1;
    var m, us := ms[n], UpdatesIn(ms[..n]);
    assert ms[..n + 1] == ms && us + [] == us;
    if IsUpdate(m) {
      ExpectedIDStep(us, m);
      ParsedEntry(s.table.value, IsFull(m), IsTimed(m), DefaultID(s.lastID), m.data);
    }
  }

  // ---------- the protocol client ----------

  /** The receiving end of a connection. handled stands for the calls of the handler. */
  class ProtocolClient {
    const br: ByteReader
    const bw: BufferedWriter
    var lastTableDefinition: Definition?
    var lastEntryUpdate: EntryUpdate?
    var handled: seq<Entry>

    constructor (br: ByteReader, bw: BufferedWriter)
      ensures this.br == br && this.bw == bw && View() == START
    {
      this.br, this.bw := br, bw;
      lastTableDefinition, lastEntryUpdate, handled := null, null, [];
    }

    function View(): State
      reads this, lastTableDefinition, lastEntryUpdate
    {
      State(if lastTableDefinition == null then None else Some(lastTableDefinition.View()),
            if lastEntryUpdate == null then None else Some(lastEntryUpdate.localUpdateID),
            handled)
    }

    method LockedWrite(data: bytes)
      modifies bw
      ensures bw.flushed == old(bw.Stream()) + data && bw.pending == []
    {
      bw.Write(data);
      bw.Flush();
    }

    method MessageHandler(m: RawMessage) returns (r: Outcome<()>)
      modifies this, bw
      ensures match Step(old(View()), old(m.View()))
              case Ok(s) => r == Ok(()) && View() == s && bw.Stream() == old(bw.Stream()) + Reply(old(m.View()))
              case Error => r == Error && View() == old(View()) && bw.Stream() == old(bw.Stream())
              case Panic => r == Panic && View() == old(View()) && bw.Stream() == old(bw.Stream())
    {
      hide ParseDef, ParseEntry;
      assert bw.Stream() + [] == bw.Stream();
      if m.messageClass == CLASS_CONTROL {
        r := OnControl(m.messageType);
      } else if m.messageClass == CLASS_ERROR {
        return Error;
      } else if m.messageClass == CLASS_UPDATES {
        r := OnUpdate(m);
      } else {
        return Error;
      }
    }

    method OnControl(t: byte) returns (r: Outcome<()>)
      modifies bw
      ensures r == if t <= HEARTBEAT then Ok(()) else Error
      ensures bw.Stream() == old(bw.Stream()) + if t == SYNC_REQUEST then [CLASS_CONTROL, SYNC_PARTIAL] else []
    {
      assert bw.Stream() + [] == bw.Stream();
      if t == SYNC_REQUEST {
        LockedWrite([CLASS_CONTROL, SYNC_PARTIAL]);
      }
      return if t <= HEARTBEAT then Ok(()) else Error;
    }

    method OnDefinition(data: bytes) returns (r: Outcome<()>)
      modifies this
      ensures match ParseDef(data, false)
              case Ok((d, rest)) => r == Ok(()) && View() == old(View()).(table := Some(d))
              case Error => r == Error && View() == old(View())
              case Panic => r == Panic && View() == old(View())
    {
      hide ParseDef;
      var std := new Definition();
      var n :- std.Unmarshal(data);
      var d := ParseDef(data, false).value.0;
      assert [] + d.dataTypes == d.dataTypes;
      lastTableDefinition := std;
      return Ok(());
    }

    method OnUpdate(m: RawMessage) returns (r: Outcome<()>)
      requires m.messageClass == CLASS_UPDATES
      modifies this
      ensures match Step(old(View()), old(m.View()))
              case Ok(s) => r == Ok(()) && View() == s
              case Error => r == Error && View() == old(View())
              case Panic => r == Panic && View() == old(View())
    {
      hide ParseDef, ParseEntry;
      var t := m.messageType;
      if t == TABLE_DEFINITION {
        r := OnDefinition(m.data);
        return;
      } else if t == TABLE_SWITCH || t == UPDATE_ACK {
        return Ok(());
      } else if !(t == ENTRY_UPDATE || t == UPDATE_TIMED || t == INCREMENTAL_UPDATE || t == INCREMENTAL_TIMED) {
        return Error;
      }
      r := OnEntry(m);
    }

    /** The update to fill in: the latest table, the next ID, and the flags of the message type. */
    method NewEntry(t: byte, table: Definition) returns (e: EntryUpdate)
      requires IsUpdate(Raw(CLASS_UPDATES, t, []))
      ensures fresh(e) && e.stickTable == table && e.data == [] && e.expiry == 0
      ensures e.localUpdateID == DefaultID(View().lastID)
      ensures e.withLocalUpdateID == IsFull(Raw(CLASS_UPDATES, t, [])) && e.withExpiry == IsTimed(Raw(CLASS_UPDATES, t, []))
    {
      e := new EntryUpdate(table);
      if lastEntryUpdate != null {
        e.localUpdateID := (lastEntryUpdate.localUpdateID + 1) % TWO_32;
      }
      if t == ENTRY_UPDATE {
        e.withLocalUpdateID := true;
      } else if t == UPDATE_TIMED {
        e.withLocalUpdateID := true;
        e.withExpiry := true;
      } else if t == INCREMENTAL_TIMED {
        e.withExpiry := true;
      }
    }

    /** The second half of OnMessage: an update under the latest definition. */
    method OnEntry(m: RawMessage) returns (r: Outcome<()>)
      requires IsUpdate(m.View())
      modifies this
      ensures match Step(old(View()), old(m.View()))
              case Ok(s) => r == Ok(()) && View() == s
              case Error => r == Error && View() == old(View())
              case Panic => r == Panic && View() == old(View())
    {
      hide ParseDef, ParseEntry;
      var t := m.messageType;
      if lastTableDefinition == null {
        return Error;
      }
      var e := NewEntry(t, lastTableDefinition);
      FreshEntry(e.stickTable.View(), e.withLocalUpdateID, e.withExpiry, e.localUpdateID, m.data);
      var n :- e.Unmarshal(m.data);
      lastEntryUpdate := e;
      handled := handled + [e.View()];
      return Ok(());
    }

    /** The read loop after the handshake, to the end of the input. */
    method Serve() returns (end: End)
      modifies this, br, bw
      ensures var (s, replies, e) := Run(old(View()), old(br.data));
              && end == e && View() == s
              && bw.Stream() == old(bw.Stream()) + replies
    {
      hide ReadRaw, Step, Reply;
      ghost var start, input, stream := View(), br.data, bw.Stream();
      ghost var done: bytes := [];
      assert stream + done == stream && done + Run(start, input).1 == Run(start, input).1;
      while true
        invariant Run(start, input) == (Run(View(), br.data).0, done + Run(View(), br.data).1, Run(View(), br.data).2)
        invariant bw.Stream() == stream + done
        decreases |br.data|
      {
        var m := new RawMessage();
        var got := m.ReadFrom(br);
        assert done + [] == done;
        if got.Panic? {
          return Crashed;
        }
        if got.Error? {
          return Failed;
        }
        if got == Ok(false) {
          return Closed;
        }
        ghost var reply := Reply(m.View());
        var r := MessageHandler(m);
        if r.Error? {
          return Failed;
        }
        if r.Panic? {
          return Crashed;
        }
        assert done + (reply + Run(View(), br.data).1) == done + reply + Run(View(), br.data).1;
        done := done + reply;
      }
    }
  }
}
