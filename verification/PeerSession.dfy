/** Whole sessions: what a Writer sends is what the receiver's handler sees. */
module PeerSession {
  import opened Common
  import opened Streams
  import opened Varints
  import opened Encoding
  import opened TableValues
  import opened StickTables
  import opened EntryUpdates
  import opened PeerMessages
  import opened PeerWriter
  import opened PeerReceiver

  /** One call of the Writer's interface. */
  datatype Call =
    | DefineTable(d: TableDef)
    | SwitchTable(tableID: u64)
    | PushEntry(e: Entry)
    | PushEntries(es: seq<Entry>)

  /**
   * What the calls put on the stream, starting at update ID id, each call as the Writer's contract
   * says. After a panic in SendEntry the next call waits for ever.
   */
  function SessionWire(calls: seq<Call>, id: u32): bytes {
    if calls == [] then []
    else
      match calls[0]
      case DefineTable(d) =>
        (if |d.Encode()| <= DEFINITION_ROOM then DefinitionMessage(d).Wire() else []) + SessionWire(calls[1..], id)
      case SwitchTable(t) => SwitchMessage(t).Wire() + SessionWire(calls[1..], id)
      case PushEntry(e) => SendOne(e, id).wire + if SendOne(e, id).result.Panic? then [] else SessionWire(calls[1..], NextID(id))
      case PushEntries(es) => SendAll(es, id).wire + SessionWire(calls[1..], Advance(id, IDsUsed(es, id)))
  }

  // ---------- the sessions in question ----------

  /** A readable entry of the given table that fits the writer's buffer. */
  predicate Good(e: Entry, table: Option<TableDef>) {
    table == Some(e.table) && e.Valid() && e.MatchesTable() && Fits(e, 0)
  }

  /** Every definition can be rebuilt and fits; every entry is good for the latest definition sent. */
  predicate Faithful(calls: seq<Call>, table: Option<TableDef>) {
    if calls == [] then true
    else
      match calls[0]
      case DefineTable(d) => d.Canonical() && |d.Encode()| <= DEFINITION_ROOM && Faithful(calls[1..], Some(d))
      case SwitchTable(_) => Faithful(calls[1..], table)
      case PushEntry(e) => Good(e, table) && Faithful(calls[1..], table)
      case PushEntries(es) => (forall e <- es :: Good(e, table)) && Faithful(calls[1..], table)
  }

  function Entries(calls: seq<Call>): seq<Entry> {
    if calls == [] then []
    else
      (match calls[0]
       case PushEntry(e) => [e]
       case PushEntries(es) => es
       case _ => []) + Entries(calls[1..])
  }

  /** The entry as the handler gets it: numbered, and with no expiry unless it was sent with one. */
  function Received(e: Entry, id: u32): Entry {
    Numbered(e, id).(expiry := if e.withExpiry then e.expiry else 0)
  }

  /** got is the entry sent, field by field, under the given ID; its expiry is there if and only if it was sent with one. */
  predicate SameEntry(got: Entry, sent: Entry, id: u32) {
    && got.table == sent.table && got.key == sent.key && got.data == sent.data
    && got.withLocalUpdateID && got.localUpdateID == id
    && got.withExpiry == sent.withExpiry && got.expiry == if sent.withExpiry then sent.expiry else 0
  }

  lemma ReceivedIs(got: Entry, sent: Entry, id: u32)
    ensures got == Received(sent, id) <==> SameEntry(got, sent, id)
  {
  }

  /** The entries with consecutive IDs from id on. */
  function NumberAll(es: seq<Entry>, id: u32): (r: seq<Entry>)
    ensures |r| == |es|
  {
    if es == [] then [] else [Received(es[0], id)] + NumberAll(es[1..], NextID(id))
  }

  lemma {:induction false} NumberedAt(es: seq<Entry>, id: u32, k: nat)
    requires k < |es|
    ensures NumberAll(es, id)[k] == Received(es[k], Advance(id, k))
  {
    if k > 0 {
      NumberedAt(es[1..], NextID(id), k - 1);
      AdvanceShift(id, k - 1);
    }
  }

  lemma AdvanceShift(id: u32, k: nat)
    ensures Advance(NextID(id), k) == Advance(id, k + 1)
  {
  }

  lemma {:induction false} NumberAllAppend(a: seq<Entry>, b: seq<Entry>, id: u32)
    ensures NumberAll(a + b, id) == NumberAll(a, id) + NumberAll(b, Advance(id, |a|))
  {
    hide Received;
    if a == [] {
      assert a + b == b && Advance(id, 0) == id;
    } else {
      assert (a + b)[1..] == a[1..] + b && (a + b)[0] == a[0];
      NumberAllAppend(a[1..], b, NextID(id));
      AdvanceShift(id, |a| - 1);
    }
  }

  // ---------- the messages of a session ----------

  function EntryMessages(es: seq<Entry>, id: u32): seq<Raw> {
    if es == [] then [] else [EntryMessage(es[0], id)] + EntryMessages(es[1..], NextID(id))
  }

  lemma FitsWithAnyID(e: Entry, id: u32)
    ensures Fits(e, id) == Fits(e, 0)
  {
    hide BE32, EncodeData, Key.Encode;
  }

  /** The receiver hands on exactly the entry of one entry message. */
  lemma EntryDelivered(s: State, e: Entry, id: u32)
    requires Good(e, s.table)
    ensures EntryMessage(e, id).Sendable()
    ensures SendOne(e, id) == Sent(EntryMessage(e, id).Wire(), Ok(()))
    ensures Step(s, EntryMessage(e, id)) == Ok(s.(lastID := Some(id), handled := s.handled + [Received(e, id)]))
  {
    hide Entry.Encode, ParseEntry, DataMatches, KeyKindOf, Key.Fits, SendOne, Raw.Wire;
    FitsWithAnyID(e, id);
    SendOneWhole(e, id);
    var v := Numbered(e, id);
    EntryRoundTrip(v, DefaultID(s.lastID), []);
    assert v.Encode().value + [] == v.Encode().value;
  }

  lemma {:induction false} EntriesDelivered(s: State, es: seq<Entry>, id: u32)
    requires forall e <- es :: Good(e, s.table)
    ensures SendAll(es, id) == Sent(WireAll(EntryMessages(es, id)), Ok(())) && IDsUsed(es, id) == |es|
    ensures forall m <- EntryMessages(es, id) :: m.Sendable()
    ensures match RunMessages(s, EntryMessages(es, id))
            case Ok(t) => t.table == s.table && t.handled == s.handled + NumberAll(es, id)
            case _ => false
    decreases es
  {
    hide Good, Step, SendOne, Raw.Wire, Raw.Sendable, EntryMessage, Received, NextID, NumberAll, SendAll, RunMessages;
    if es == [] {
      NoEntries(s, id);
    } else {
      var m, more := EntryMessage(es[0], id), es[1..];
      EntryDelivered(s, es[0], id);
      var t := s.(lastID := Some(id), handled := s.handled + [Received(es[0], id)]);
      EntriesDelivered(t, more, NextID(id));
      FirstEntry(s, es, id);
      assert EntryMessages(es, id) == [m] + EntryMessages(more, NextID(id));
      assert ([m] + EntryMessages(more, NextID(id)))[1..] == EntryMessages(more, NextID(id));
      assert t.handled + NumberAll(more, NextID(id)) == s.handled + ([Received(es[0], id)] + NumberAll(more, NextID(id)));
    }
  }

  lemma NoEntries(s: State, id: u32)
    ensures SendAll([], id) == Sent([], Ok(())) && RunMessages(s, []) == Ok(s)
    ensures s.handled + NumberAll([], id) == s.handled
  {
  }

  /** The first entry of a batch, in each of the functions over batches. */
  lemma FirstEntry(s: State, es: seq<Entry>, id: u32)
    requires es != [] && SendOne(es[0], id).result.Ok? && Step(s, EntryMessage(es[0], id)).Ok?
    ensures var rest := SendAll(es[1..], NextID(id));
            SendAll(es, id) == Sent(SendOne(es[0], id).wire + rest.wire, rest.result)
    ensures NumberAll(es, id) == [Received(es[0], id)] + NumberAll(es[1..], NextID(id))
    ensures RunMessages(s, EntryMessages(es, id)) == RunMessages(Step(s, EntryMessage(es[0], id)).value, EntryMessages(es[1..], NextID(id)))
  {
    hide Step, SendOne, EntryMessage, Received, NextID;
  }

  /**
   * A definition or switch message: the first makes its table the latest, the second, which the
   * receiver ignores, changes nothing.
   */
  lemma TableDelivered(s: State, d: TableDef, tableID: u64)
    requires d.Canonical() && |d.Encode()| <= DEFINITION_ROOM
    ensures DefinitionMessage(d).Sendable() && Step(s, DefinitionMessage(d)) == Ok(s.(table := Some(d)))
    ensures SwitchMessage(tableID).Sendable() && Step(s, SwitchMessage(tableID)) == Ok(s)
  {
    hide TableDef.Encode, ParseDef, TableDef.Canonical, Enc;
    DefRoundTrip(d, [], false);
    assert d.Encode() + [] == d.Encode();
    LengthBound(tableID);
  }

  // ---------- end to end ----------

  /** One message and then the rest of a session. */
  lemma RunCons(s: State, m: Raw, rest: bytes)
    requires m.Sendable() && Step(s, m).Ok?
    ensures var r := Run(Step(s, m).value, rest);
            Run(s, m.Wire() + rest) == (r.0, Reply(m) + r.1, r.2)
  {
    hide ReadRaw, Step, Raw.Wire;
    ReadBack(m, rest);
  }

  lemma {:induction false} RunMany(s: State, ms: seq<Raw>, rest: bytes)
    requires (forall m <- ms :: m.Sendable()) && RunMessages(s, ms).Ok?
    ensures var r := Run(RunMessages(s, ms).value, rest);
            Run(s, WireAll(ms) + rest).0 == r.0 && Run(s, WireAll(ms) + rest).2 == r.2
    decreases ms
  {
    hide Step, Raw.Wire, Run, Reply;
    if ms == [] {
      assert WireAll(ms) + rest == rest;
    } else {
      assert WireAll(ms) + rest == ms[0].Wire() + (WireAll(ms[1..]) + rest);
      RunCons(s, ms[0], WireAll(ms[1..]) + rest);
      RunMany(Step(s, ms[0]).value, ms[1..], rest);
    }
  }

  /** The handler gets exactly the entries es, numbered from id on, and the session ends cleanly. */
  ghost predicate Delivers(s: State, wire: bytes, es: seq<Entry>, id: u32) {
    Run(s, wire).2 == Closed && Run(s, wire).0.handled == s.handled + NumberAll(es, id)
  }

  lemma DefineCase(s: State, d: TableDef, wire: bytes, es: seq<Entry>, id: u32)
    requires d.Canonical() && |d.Encode()| <= DEFINITION_ROOM && Delivers(s.(table := Some(d)), wire, es, id)
    ensures Delivers(s, DefinitionMessage(d).Wire() + wire, [] + es, id)
  {
    hide Step, Run, Raw.Wire, TableDef.Encode, TableDef.Canonical, NumberAll, Raw.Sendable, DefinitionMessage;
    TableDelivered(s, d, 0);
    RunCons(s, DefinitionMessage(d), wire);
    assert [] + es == es;
  }

  lemma SwitchCase(s: State, tableID: u64, wire: bytes, es: seq<Entry>, id: u32)
    requires Delivers(s, wire, es, id)
    ensures Delivers(s, SwitchMessage(tableID).Wire() + wire, [] + es, id)
  {
    hide Step, Run, Raw.Wire, NumberAll, Raw.Sendable, SwitchMessage;
    SwitchDelivered(s, tableID);
    RunCons(s, SwitchMessage(tableID), wire);
    assert [] + es == es;
  }

  lemma EntryCase(s: State, e: Entry, wire: bytes, es: seq<Entry>, id: u32)
    requires Good(e, s.table)
    requires Delivers(s.(lastID := Some(id), handled := s.handled + [Received(e, id)]), wire, es, NextID(id))
    ensures Delivers(s, SendOne(e, id).wire + wire, [e] + es, id)
  {
    hide Step, Run, Raw.Wire, NumberAll, Raw.Sendable, Good, SendOne, EntryMessage, NextID;
    EntryDelivered(s, e, id);
    RunCons(s, EntryMessage(e, id), wire);
    OneNumbered(e, es, id);
    assert s.handled + [Received(e, id)] + NumberAll(es, NextID(id)) == s.handled + ([Received(e, id)] + NumberAll(es, NextID(id)));
  }

  lemma EntriesCase(s: State, next: State, ms: seq<Raw>, batch: seq<Entry>, wire: bytes, es: seq<Entry>, id: u32)
    requires (forall m <- ms :: m.Sendable()) && RunMessages(s, ms) == Ok(next)
    requires next.handled == s.handled + NumberAll(batch, id)
    requires Delivers(next, wire, es, Advance(id, |batch|))
    ensures Delivers(s, WireAll(ms) + wire, batch + es, id)
  {
    hide Run, NumberAll, Raw.Sendable, RunMessages, Advance, WireAll;
    RunMany(s, ms, wire);
    NumberAllAppend(batch, es, id);
    Reassociate(s.handled, NumberAll(batch, id), NumberAll(es, Advance(id, |batch|)));
  }

  lemma Reassociate(a: seq<Entry>, b: seq<Entry>, c: seq<Entry>)
    ensures a + b + c == a + (b + c)
  {
  }

  lemma {:induction false} SessionNumbered(s: State, calls: seq<Call>, id: u32)
    requires Faithful(calls, s.table)
    ensures Delivers(s, SessionWire(calls, id), Entries(calls), id)
    decreases calls
  {
    hide Delivers, Raw.Wire, SendOne, SendAll, TableDef.Encode, TableDef.Canonical, Good, EntryMessages, RunMessages;
    if calls == [] {
      NothingDelivered(s, id);
    } else {
      var rest := calls[1..];
      match calls[0]
      case DefineTable(d) =>
        SessionNumbered(s.(table := Some(d)), rest, id);
        DefineCase(s, d, SessionWire(rest, id), Entries(rest), id);
      case SwitchTable(t) =>
        SessionNumbered(s, rest, id);
        SwitchCase(s, t, SessionWire(rest, id), Entries(rest), id);
      case PushEntry(e) =>
        EntryDelivered(s, e, id);
        SessionNumbered(s.(lastID := Some(id), handled := s.handled + [Received(e, id)]), rest, NextID(id));
        EntryCase(s, e, SessionWire(rest, NextID(id)), Entries(rest), id);
      case PushEntries(es) =>
        EntriesDelivered(s, es, id);
        var ms := EntryMessages(es, id);
        var next := RunMessages(s, ms).value;
        SessionNumbered(next, rest, Advance(id, |es|));
        EntriesCase(s, next, ms, es, SessionWire(rest, Advance(id, |es|)), Entries(rest), id);
    }
  }

  /**
   * End to end: whatever the receiver has seen before, a session of Writer calls leaves its
   * handler with exactly the entries sent, field by field and in order, with consecutive update
   * IDs, and ends cleanly.
   */
  lemma SessionDelivered(s: State, calls: seq<Call>, id: u32)
    requires Faithful(calls, s.table)
    ensures var (r, _, end) := Run(s, SessionWire(calls, id));
            var sent := Entries(calls);
            && end == Closed && |r.handled| == |s.handled| + |sent| && r.handled[..|s.handled|] == s.handled
            && forall k :: 0 <= k < |sent| ==> SameEntry(r.handled[|s.handled| + k], sent[k], (id + k) % TWO_32)
  {
    hide Run, SessionWire, Faithful, Received, Entries, SameEntry;
    SessionNumbered(s, calls, id);
    var sent := Entries(calls);
    forall k | 0 <= k < |sent|
      ensures SameEntry(NumberAll(sent, id)[k], sent[k], (id + k) % TWO_32)
    {
      NumberedAt(sent, id, k);
      ReceivedIs(NumberAll(sent, id)[k], sent[k], (id + k) % TWO_32);
    }
  }

  lemma NothingDelivered(s: State, id: u32)
    ensures Delivers(s, SessionWire([], id), Entries([]), id)
  {
    NothingLeft();
    assert s.handled + NumberAll([], id) == s.handled;
  }

  lemma SwitchDelivered(s: State, tableID: u64)
    ensures SwitchMessage(tableID).Sendable() && Step(s, SwitchMessage(tableID)) == Ok(s)
  {
    hide Enc;
    LengthBound(tableID);
  }

  lemma OneNumbered(e: Entry, more: seq<Entry>, id: u32)
    ensures NumberAll([e] + more, id) == [Received(e, id)] + NumberAll(more, NextID(id))
  {
    assert ([e] + more)[1..] == more;
  }

  /** The same statement entry by entry, from a fresh writer to a fresh receiver. */
  lemma FreshSession(calls: seq<Call>, k: nat)
    requires Faithful(calls, None)
    ensures var h := Run(START, SessionWire(calls, 0)).0.handled;
            && |h| == |Entries(calls)|
            && (k < |h| ==> SameEntry(h[k], Entries(calls)[k], k % TWO_32))
  {
    hide Run, SessionWire, Faithful, Entries, SameEntry;
    SessionDelivered(START, calls, 0);
  }

  // ---------- batches ----------

  /** A batch puts the same bytes on the stream as sending its entries one call at a time. */
  lemma {:induction false} BatchIsLoop(es: seq<Entry>, id: u32)
    requires SendAll(es, id).result.Ok?
    ensures SessionWire([PushEntries(es)], id) == SessionWire(seq(|es|, i requires 0 <= i < |es| => PushEntry(es[i])), id)
  {
    hide SendOne, SessionWire;
    BatchWire(es, id);
    LoopWire(es, id);
  }

  lemma BatchWire(es: seq<Entry>, id: u32)
    ensures SessionWire([PushEntries(es)], id) == SendAll(es, id).wire
  {
    hide SendAll;
    var c := [PushEntries(es)];
    assert SessionWire(c, id) == SendAll(es, id).wire + SessionWire(c[1..], Advance(id, IDsUsed(es, id)));
    assert c[1..] == [];
  }

  lemma {:induction false} LoopWire(es: seq<Entry>, id: u32)
    requires SendAll(es, id).result.Ok?
    ensures SessionWire(seq(|es|, i requires 0 <= i < |es| => PushEntry(es[i])), id) == SendAll(es, id).wire
    decreases es
  {
    hide SendOne;
    var calls := seq(|es|, i requires 0 <= i < |es| => PushEntry(es[i]));
    if es != [] {
      var more := es[1..];
      assert calls[0] == PushEntry(es[0]);
      assert calls[1..] == seq(|more|, i requires 0 <= i < |more| => PushEntry(more[i]));
      LoopWire(more, NextID(id));
    }
  }

  // ---------- the calls themselves ----------

  predicate Callable(c: Call) {
    match c
    case DefineTable(d) => GoLength(d.name)
    case SwitchTable(_) => true
    case PushEntry(e) => e.Valid()
    case PushEntries(es) => (forall e <- es :: e.Valid())
  }

  /**
   * Making the calls on a Writer, errors ignored and panics recovered from, puts exactly
   * SessionWire on its stream. A call on a locked Writer waits, and so do all that follow.
   */
  method Play(w: Writer, calls: seq<Call>)
    requires !w.locked && w.buf.Length == ENTRY_ROOM && forall c <- calls :: Callable(c)
    modifies w, w.bw, w.buf
    ensures w.bw.Stream() == old(w.bw.Stream()) + SessionWire(calls, old(w.nextUpdateID))
  {
    hide SessionWire, SendOne, SendAll, IDsUsed, Raw.Wire, TableDef.Encode, NextID, Advance, KeepsLock;
    ghost var stream, id0 := w.bw.Stream(), w.nextUpdateID;
    ghost var done: bytes := [];
    assert calls[0..] == calls && stream + done == stream;
    for i := 0 to |calls|
      invariant w.bw.Stream() == stream + done
      invariant SessionWire(calls, id0) == done + if w.locked then [] else SessionWire(calls[i..], w.nextUpdateID)
    {
      if w.locked {
        assert done + [] == done;
        return;
      }
      WireStep(calls, i, w.nextUpdateID);
      ghost var id, before := w.nextUpdateID, w.bw.Stream();
      ghost var piece := CallWire(calls[i], id);
      PlayOne(w, calls[i]);
      Regroup(done, piece, if w.locked then [] else SessionWire(calls[i + 1..], w.nextUpdateID));
      assert w.bw.Stream() == stream + (done + piece);
      done := done + piece;
    }
    assert calls[|calls|..] == [];
    assert done + [] == done;
    NoCalls(w.nextUpdateID);
  }

  function CallWire(c: Call, id: u32): bytes {
    match c
    case DefineTable(d) => if |d.Encode()| <= DEFINITION_ROOM then DefinitionMessage(d).Wire() else []
    case SwitchTable(t) => SwitchMessage(t).Wire()
    case PushEntry(e) => SendOne(e, id).wire
    case PushEntries(es) => SendAll(es, id).wire
  }

  function CallID(c: Call, id: u32): u32 {
    match c
    case PushEntry(_) => NextID(id)
    case PushEntries(es) => Advance(id, IDsUsed(es, id))
    case _ => id
  }

  /** The call panics and leaves the Writer locked. */
  ghost predicate KeepsLock(c: Call) {
    c.PushEntry? && Unmarshallable(c.e)
  }

  lemma WireStep(calls: seq<Call>, i: nat, id: u32)
    requires i < |calls| && Callable(calls[i])
    ensures SessionWire(calls[i..], id) ==
            CallWire(calls[i], id) + if KeepsLock(calls[i]) then [] else SessionWire(calls[i + 1..], CallID(calls[i], id))
  {
    hide SendOne, SendAll, IDsUsed, Raw.Wire, TableDef.Encode, NextID, Advance, RawFor, Unmarshallable;
    assert calls[i..][1..] == calls[i + 1..];
    if calls[i].PushEntry? {
      SentPanics(calls[i].e, id);
      PanicIff(calls[i].e, id);
    }
  }

  lemma NoCalls(id: u32)
    ensures SessionWire([], id) == []
  {
  }

  method PlayOne(w: Writer, c: Call)
    requires !w.locked && w.buf.Length == ENTRY_ROOM && Callable(c)
    modifies w, w.bw, w.buf
    ensures w.bw.Stream() == old(w.bw.Stream()) + CallWire(c, old(w.nextUpdateID))
    ensures w.locked <==> KeepsLock(c)
    ensures w.nextUpdateID == CallID(c, old(w.nextUpdateID))
  {
    hide SendOne, SendAll, IDsUsed, Raw.Wire, TableDef.Encode, NextID, Advance, Unmarshallable;
    if c.DefineTable? {
      var def := new Definition.Of(c.d);
      var r := w.SendTableDefinition(def);
      assert w.bw.flushed + [] == w.bw.flushed && w.bw.Stream() + [] == w.bw.Stream();
    } else if c.SwitchTable? {
      w.SendTableSwitch(c.tableID);
      assert w.bw.flushed + [] == w.bw.flushed;
    } else if c.PushEntry? {
      var table := new Definition.Of(c.e.table);
      var update := new EntryUpdate.Of(c.e, table);
      var r := w.SendEntry(update);
      SendOneSilent(c.e, old(w.nextUpdateID));
      assert w.bw.flushed + [] == w.bw.flushed && w.bw.Stream() + [] == w.bw.Stream();
    } else {
      var updates := MakeUpdates(c.es);
      var r := w.SendEntries(updates);
    }
  }

  lemma SendOneSilent(e: Entry, id: u32)
    ensures !SendOne(e, id).result.Ok? ==> SendOne(e, id).wire == []
  {
  }

  method MakeUpdates(es: seq<Entry>) returns (updates: seq<EntryUpdate>)
    requires forall e <- es :: e.Valid()
    ensures forall u <- updates :: u.View().Valid()
    ensures Views(updates) == es
    decreases es
  {
    hide Entry.Valid;
    if es == [] {
      return [];
    }
    var table := new Definition.Of(es[0].table);
    var u := new EntryUpdate.Of(es[0], table);
    var rest := MakeUpdates(es[1..]);
    assert u.View() == es[0];
    updates := [u] + rest;
    assert updates[1..] == rest && [es[0]] + es[1..] == es;
  }
}
