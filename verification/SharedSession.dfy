/**
 * What a receiver makes of the shared output of many senders (peers/writer.go,
 * peers/protocol.go): entries arrive as sent exactly when, in the order of the stream, each
 * one's table is the latest defined.
 */
module SharedSession {
  import opened Common
  import opened Varints
  import opened TableValues
  import opened StickTables
  import opened EntryUpdates
  import opened PeerMessages
  import opened PeerWriter
  import opened PeerReceiver
  import PeerSession
  import Out = SharedOutput

  // ---------- the senders in question ----------

  /** Calls whose messages a receiver can accept. */
  predicate Proper(op: Out.Op) {
    match op
    case Define(d) => d.Canonical()
    case Switch(_) => true
    case Push(e) => ProperEntry(e)
    case PushMany(es) => (forall e <- es :: ProperEntry(e))
    case Control(t) => t <= HEARTBEAT || t >= 128
    case FlushOnly => true
  }

  predicate ProperEntry(e: Entry) {
    e.Valid() && e.MatchesTable() && Fits(e, 0)
  }

  predicate AllProper(programs: seq<seq<Out.Op>>) {
    forall ops <- programs :: ProperOps(ops)
  }

  predicate ProperOps(ops: seq<Out.Op>) {
    forall op <- ops :: Proper(op)
  }

  ghost predicate ProperItem(item: Out.Item) {
    match item
    case Fixed(m) =>
      || (exists d: TableDef :: d.Canonical() && |d.Encode()| <= DEFINITION_ROOM && m == DefinitionMessage(d))
      || (exists t: u64 :: m == SwitchMessage(t))
      || (m.cls == CLASS_CONTROL && m.msgType <= HEARTBEAT)
    case Update(e) => ProperEntry(e)
  }

  /** Messages of proper items, updates under the ID of their serial number. */
  ghost predicate ProperLog(log: seq<Out.Logged>) {
    forall x <- log :: ProperItem(x.item) && Out.IDMatches(x.item, x.serial, x.m)
  }

  // ---------- the order of the stream ----------

  /** Each update's table is the latest one defined before it on the stream. */
  ghost predicate TablesInOrder(log: seq<Out.Logged>) {
    forall i :: 0 <= i < |log| && log[i].item.Update? ==> LatestTable(Out.Raws(log[..i])) == Some(log[i].item.e.table)
  }

  /** The entries of the stream as sent, each with the ID of its serial number. */
  function Expected(log: seq<Out.Logged>): seq<Entry> {
    if log == [] then []
    else
      var x := log[|log| - 1];
      Expected(log[..|log| - 1]) + if x.item.Update? then [PeerSession.Received(x.item.e, x.serial % TWO_32)] else []
  }

  /** The updates among the messages of the stream. */
  function UpdatesOf(log: seq<Out.Logged>): (us: seq<Out.Logged>)
    ensures forall u <- us :: u.item.Update?
  {
    if log == [] then []
    else UpdatesOf(log[..|log| - 1]) + if log[|log| - 1].item.Update? then [log[|log| - 1]] else []
  }

  /** The entries handled are those of the stream's updates, as sent and in order, each with the ID of its serial number. */
  predicate AsSent(handled: seq<Entry>, log: seq<Out.Logged>) {
    var us := UpdatesOf(log);
    && |handled| == |us|
    && forall k :: 0 <= k < |us| ==> PeerSession.SameEntry(handled[k], us[k].item.e, us[k].serial % TWO_32)
  }

  lemma {:induction false} AsSentIff(handled: seq<Entry>, log: seq<Out.Logged>)
    ensures AsSent(handled, log) <==> handled == Expected(log)
  {
    hide PeerSession.Received, PeerSession.SameEntry;
    if log != [] {
      var n := |log| - 1;
      var x := log[n];
      if !x.item.Update? {
        AsSentIff(handled, log[..n]);
      } else if handled != [] {
        var h := |handled| - 1;
        AsSentIff(handled[..h], log[..n]);
        PeerSession.ReceivedIs(handled[h], x.item.e, x.serial % TWO_32);
        assert handled == handled[..h] + [handled[h]];
      }
    }
  }

  /** One more message on the stream. */
  lemma LogStep(log: seq<Out.Logged>, x: Out.Logged)
    ensures Out.Raws(log + [x]) == Out.Raws(log) + [x.m]
    ensures Expected(log + [x]) == Expected(log) + if x.item.Update? then [PeerSession.Received(x.item.e, x.serial % TWO_32)] else []
    ensures TablesInOrder(log + [x]) <==>
              TablesInOrder(log) && (x.item.Update? ==> LatestTable(Out.Raws(log)) == Some(x.item.e.table))
  {
    hide PeerSession.Received, LatestTable;
    var all := log + [x];
    assert all[..|log|] == log;
    forall i | 0 <= i < |log|
      ensures all[..i] == log[..i] && all[i] == log[i]
    {
    }
  }

  lemma UpdateMessage(e: Entry, serial: nat, m: Raw)
    requires ProperEntry(e) && Out.IDMatches(Out.Update(e), serial, m)
    ensures m == EntryMessage(e, serial % TWO_32) && IsUpdate(m)
  {
    hide Entry.Encode, Entry.MarshalResult, Entry.MatchesTable, Entry.Valid, RawFor;
    var id := serial % TWO_32;
    PeerSession.FitsWithAnyID(e, id);
    WholeRaw(e, id);
  }

  lemma WholeRaw(e: Entry, id: u32)
    requires e.Valid() && e.MatchesTable() && Fits(e, id)
    ensures RawFor(e, id) == Ok(EntryMessage(e, id))
  {
    hide Entry.Encode, Entry.MarshalResult, Entry.Fixed, DataMatches, Key.Fits, KeyKindOf;
    var v := Numbered(e, id);
    assert v.Valid() && v.MatchesTable();
    MarshalFits(v, ENTRY_ROOM);
    var s := v.Encode().value;
    assert s[..|s|] == s;
  }

  /** Definitions, switches and control messages are accepted, and nothing is handled. */
  lemma FixedStep(s: State, item: Out.Item)
    requires item.Fixed? && ProperItem(item)
    ensures Step(s, item.m).Ok? && Step(s, item.m).value.handled == s.handled && !IsUpdate(item.m)
  {
    hide TableDef.Encode, TableDef.Canonical, Enc, ParseDef, ParseEntry, Raw.Sendable;
    var m := item.m;
    if d: TableDef :| d.Canonical() && |d.Encode()| <= DEFINITION_ROOM && m == DefinitionMessage(d) {
      PeerSession.TableDelivered(s, d, 0);
    } else if t: u64 :| m == SwitchMessage(t) {
      PeerSession.SwitchDelivered(s, t);
    }
  }

  /** An update under another table, or under none, does not come out as it was sent. */
  lemma WrongTable(s: State, e: Entry, id: u32)
    requires s.table != Some(e.table)
    ensures match Step(s, EntryMessage(e, id))
            case Ok(n) => |n.handled| == |s.handled| + 1 && n.handled[|s.handled|] != PeerSession.Received(e, id)
            case _ => true
  {
    hide ParseEntry, ParseDef, Entry.Encode;
    var m := EntryMessage(e, id);
    if Step(s, m).Ok? {
      ParsedEntry(s.table.value, IsFull(m), IsTimed(m), DefaultID(s.lastID), m.data);
    }
  }

  lemma {:induction false} ExpectedCount(log: seq<Out.Logged>)
    requires ProperLog(log)
    ensures |Expected(log)| == |UpdatesIn(Out.Raws(log))|
  {
    hide ProperItem, Out.IDMatches, IsUpdate, PeerSession.Received;
    if log != [] {
      var n := |log| - 1;
      var before, x := log[..n], log[n];
      assert log == before + [x] && x in log;
      ExpectedCount(before);
      LogStep(before, x);
      UpdatesSnoc(Out.Raws(before), x.m);
      KindOf(x);
    }
  }

  lemma UpdatesSnoc(ms: seq<Raw>, m: Raw)
    ensures UpdatesIn(ms + [m]) == UpdatesIn(ms) + if IsUpdate(m) then [m] else []
  {
    hide IsUpdate;
    assert (ms + [m])[..|ms|] == ms;
  }

  lemma KindOf(x: Out.Logged)
    requires ProperItem(x.item) && Out.IDMatches(x.item, x.serial, x.m)
    ensures IsUpdate(x.m) <==> x.item.Update?
    ensures x.item.Fixed? ==> x.m == x.item.m
  {
    hide ProperItem, ProperEntry, RawFor;
    match x.item
    case Fixed(m) => FixedStep(START, x.item);
    case Update(e) => ProperUpdate(x.item); UpdateMessage(e, x.serial, x.m);
  }

  lemma ProperUpdate(item: Out.Item)
    requires item.Update? && ProperItem(item)
    ensures ProperEntry(item.e)
  {
  }

  /** A receiver accepts the messages and is left with the entries as sent. */
  predicate Arrives(log: seq<Out.Logged>) {
    match RunMessages(START, Out.Raws(log))
    case Ok(s) => s.handled == Expected(log)
    case _ => false
  }

  lemma {:induction false} ArrivesIff(log: seq<Out.Logged>)
    requires ProperLog(log)
    ensures Arrives(log) <==> TablesInOrder(log)
  {
    hide ProperItem, ProperEntry, Out.IDMatches, Step, LatestTable, Accounted, Explained, Expected, RunMessages, TablesInOrder, IsUpdate;
    if log == [] {
      NothingArrives();
    } else {
      var n := |log| - 1;
      var before, x := log[..n], log[n];
      assert log == before + [x] && x in log;
      ArrivesIff(before);
      LogStep(before, x);
      RunMessagesAppend(START, Out.Raws(before), [x.m]);
      match RunMessages(START, Out.Raws(before))
      case Ok(s) =>
        RunAccounts(Out.Raws(before));
        ExpectedCount(before);
        OneMessage(s, x.m);
        Counts(Out.Raws(before), s);
        OneMore(log, before, x, s);
      case _ =>
    }
  }

  lemma NothingArrives()
    ensures Arrives([]) && TablesInOrder([])
  {
    NoMessages();
    assert Out.Raws([]) == [];
  }

  lemma Counts(ms: seq<Raw>, s: State)
    requires Accounted(ms, s)
    ensures s.table == LatestTable(ms) && |s.handled| == |UpdatesIn(ms)|
  {
  }

  /** The last message decides when what came before arrived; nothing repairs what did not. */
  lemma OneMore(log: seq<Out.Logged>, before: seq<Out.Logged>, x: Out.Logged, s: State)
    requires log == before + [x] && ProperItem(x.item) && Out.IDMatches(x.item, x.serial, x.m)
    requires RunMessages(START, Out.Raws(before)) == Ok(s) && |s.handled| == |Expected(before)|
    requires RunMessages(START, Out.Raws(log)) == Step(s, x.m)
    requires Expected(log) == Expected(before) + if x.item.Update? then [PeerSession.Received(x.item.e, x.serial % TWO_32)] else []
    ensures Arrives(log) <==> Arrives(before) && (x.item.Update? ==> s.table == Some(x.item.e.table))
  {
    hide ProperItem, ProperEntry, Out.IDMatches, Step, Expected, RunMessages, PeerSession.Received, IsUpdate, EntryMessage;
    match x.item
    case Fixed(m) =>
      KindOf(x);
      FixedStep(s, x.item);
      assert Expected(before) + [] == Expected(before);
    case Update(e) =>
      var id := x.serial % TWO_32;
      ProperUpdate(x.item);
      UpdateMessage(e, x.serial, x.m);
      if s.table == Some(e.table) {
        GoodHere(e, s);
        PeerSession.EntryDelivered(s, e, id);
        SameButLast(s.handled, Expected(before), PeerSession.Received(e, id));
      } else {
        WrongTable(s, e, id);
      }
  }

  lemma GoodHere(e: Entry, s: State)
    requires ProperEntry(e) && s.table == Some(e.table)
    ensures PeerSession.Good(e, s.table)
  {
    hide Entry.Valid, Entry.MatchesTable, Fits;
  }

  lemma SameButLast(a: seq<Entry>, b: seq<Entry>, e: Entry)
    ensures a + [e] == b + [e] <==> a == b
  {
    if a + [e] == b + [e] {
      assert a == (a + [e])[..|a|] && b == (b + [e])[..|b|];
    }
  }

  // ---------- runs ----------

  lemma {:induction false} LoggedBySender(log: seq<Out.Logged>, i: nat)
    requires i < |log|
    ensures log[i].item in Out.SentBy(log, log[i].thread)
  {
    var n := |log| - 1;
    if i < n {
      LoggedBySender(log[..n], i);
    }
  }

  lemma {:induction false} ProperItems(ops: seq<Out.Op>)
    requires ProperOps(ops)
    ensures forall item <- Out.AllItems(ops) :: ProperItem(item)
  {
    hide Proper, ProperItem, Out.ItemsOf;
    if ops != [] {
      assert ops[0] in ops;
      ItemsProper(ops[0]);
      ProperItems(ops[1..]);
    }
  }

  lemma ItemsProper(op: Out.Op)
    requires Proper(op)
    ensures forall item <- Out.ItemsOf(op) :: ProperItem(item)
  {
    hide ProperEntry, TableDef.Encode, TableDef.Canonical, Enc, Out.CanSend, DefinitionMessage, SwitchMessage;
    match op
    case Push(e) => PrefixProper([e]);
    case PushMany(es) => PrefixProper(es);
    case Define(d) => assert |d.Encode()| <= DEFINITION_ROOM ==> ProperItem(Out.Fixed(DefinitionMessage(d)));
    case Switch(t) => assert ProperItem(Out.Fixed(SwitchMessage(t)));
    case _ =>
  }

  lemma {:induction false} PrefixProper(es: seq<Entry>)
    requires forall e <- es :: ProperEntry(e)
    ensures forall item <- Out.SendablePrefix(es) :: ProperItem(item)
  {
    hide ProperEntry, Out.CanSend;
    if es != [] {
      PrefixProper(es[1..]);
    }
  }

  lemma LogIsProper(programs: seq<seq<Out.Op>>, states: seq<Out.State>)
    requires Out.IsRun(programs, states) && AllProper(programs)
    ensures ProperLog(states[|states| - 1].log)
    ensures forall m <- Out.Raws(states[|states| - 1].log) :: m.Sendable()
  {
    hide ProperItem, ProperOps, Out.IDMatches, Out.AllItems, Out.SentBy, Out.Left, Out.Next, Out.Start, Raw.Sendable;
    hide WireAll, Out.Raws, Out.Partial, Out.Shaped;
    Out.RunInv(programs, states);
    Out.StreamIsWholeMessages(programs, states);
    var log := states[|states| - 1].log;
    Out.RawsSendable(log);
    forall x <- log
      ensures ProperItem(x.item)
    {
      var i :| 0 <= i < |log| && log[i] == x;
      LoggedBySender(log, i);
      ProperItems(programs[x.thread]);
    }
  }

  /**
   * For any number of senders and any interleaving of proper calls: a receiver of the stream ends
   * cleanly with exactly the entries of the stream, each as sent and with the ID of its serial
   * number modulo 2^32, if and only if each entry's table is the latest defined before it on the
   * stream, whoever defined it.
   */
  lemma SharedDelivery(programs: seq<seq<Out.Op>>, states: seq<Out.State>)
    requires Out.IsRun(programs, states) && AllProper(programs) && states[|states| - 1].flight.None?
    ensures var s := states[|states| - 1];
            Run(START, s.Stream()).2 == Closed && AsSent(Run(START, s.Stream()).0.handled, s.log) <==> TablesInOrder(s.log)
  {
    hide AsSent, Out.IsRun, AllProper, ProperLog, Run, WireAll, Expected, TablesInOrder, Raw.Sendable, RunMessages, Out.Raws;
    Out.NotEmpty(programs, states);
    var s := states[|states| - 1];
    LogIsProper(programs, states);
    Whole(programs, states);
    RunOfStream(START, Out.Raws(s.log));
    ArrivesIff(s.log);
    AsSentIff(Run(START, s.Stream()).0.handled, s.log);
  }

  lemma Whole(programs: seq<seq<Out.Op>>, states: seq<Out.State>)
    requires Out.IsRun(programs, states) && states[|states| - 1].flight.None?
    ensures var s := states[|states| - 1]; s.Stream() == WireAll(Out.Raws(s.log))
  {
    hide Out.IsRun, Out.Raws, WireAll, Out.IDMatches, Out.AllItems, Out.SentBy;
    Out.NotEmpty(programs, states);
    var s := states[|states| - 1];
    Out.StreamIsWholeMessages(programs, states);
    assert WireAll(Out.Raws(s.log)) + [] == WireAll(Out.Raws(s.log));
  }

  // ---------- two senders with different tables ----------

  ghost predicate Chain(states: seq<Out.State>) {
    states != [] && forall i :: 0 < i < |states| ==> Out.Next(states[i - 1], states[i])
  }

  lemma Linked(a: seq<Out.State>, b: seq<Out.State>)
    requires Chain(a) && Chain(b) && a[|a| - 1] == b[0]
    ensures Chain(a + b[1..]) && (a + b[1..])[0] == a[0] && (a + b[1..])[|a + b[1..]| - 1] == b[|b| - 1]
  {
    hide Out.Next;
    var all := a + b[1..];
    forall i | 0 < i < |all|
      ensures Out.Next(all[i - 1], all[i])
    {
      if i >= |a| {
        assert all[i] == b[i - |a| + 1] && all[i - 1] == b[i - |a|];
      }
    }
  }

  lemma Moved(s: Out.State, n: Out.State, t: nat)
    requires t < |s.threads| && (Out.BeginStep(s, n, t) || Out.WriteStep(s, n, t) || Out.MicroStep(s, n, t))
    ensures Out.Next(s, n)
  {
    hide Out.BeginStep, Out.WriteStep, Out.MicroStep;
  }

  /** Nobody is in a call that has taken the lock. */
  predicate Free(s: Out.State, t: nat) {
    s.owner == None && s.flight == None && t < |s.threads| && s.threads[t].todo == []
  }

  /** The three writes of the message in flight. */
  lemma WriteOut(s: Out.State, t: nat) returns (states: seq<Out.State>)
    requires t < |s.threads| && s.owner == Some(t) && s.flight.Some? && s.flight.value.k == 0 && s.flight.value.m.Sendable()
    ensures Chain(states) && states != [] && states[0] == s
    ensures var f := s.flight.value;
            states[|states| - 1] ==
            s.(flight := None, log := s.log + [Out.Logged(t, f.item, f.serial, f.m)], pending := s.pending + f.m.Wire())
  {
    hide Raw.Sendable, Raw.Wire, Out.Part, Out.PartsBefore, Out.Next;
    var f := s.flight.value;
    var p0, p1, p2 := Out.Part(f.m, 0), Out.Part(f.m, 1), Out.Part(f.m, 2);
    var a := s.(flight := Some(f.(k := 1)), pending := s.pending + p0);
    var b := a.(flight := Some(f.(k := 2)), pending := a.pending + p1);
    var c := b.(flight := None, log := s.log + [Out.Logged(t, f.item, f.serial, f.m)], pending := b.pending + p2);
    WriteMoves(s, a, t);
    WriteMoves(a, b, t);
    WriteMoves(b, c, t);
    PartsInARow(f.m, s.pending);
    states := [s, a, b, c];
  }

  lemma WriteMoves(s: Out.State, n: Out.State, t: nat)
    requires t < |s.threads| && s.owner == Some(t) && s.flight.Some? && n.flushed == s.flushed
    requires var f := s.flight.value;
             && n.pending == s.pending + Out.Part(f.m, f.k)
             && (if f.k < 2 then n == s.(flight := Some(f.(k := f.k + 1)), pending := n.pending)
                 else n == s.(flight := None, log := s.log + [Out.Logged(t, f.item, f.serial, f.m)], pending := n.pending))
    ensures Out.Next(s, n)
  {
    hide Out.Part;
    var f := s.flight.value;
    assert s.flushed + s.pending + Out.Part(f.m, f.k) == s.flushed + (s.pending + Out.Part(f.m, f.k));
    Moved(s, n, t);
  }

  lemma PartsInARow(m: Raw, before: bytes)
    requires m.Sendable()
    ensures before + Out.Part(m, 0) + Out.Part(m, 1) + Out.Part(m, 2) == before + m.Wire()
  {
    hide Raw.Wire, Raw.Sendable, Out.Part;
    Out.PartsMakeWire(m);
    Out.NextPart(m, 0);
    Out.NextPart(m, 1);
    Out.NextPart(m, 2);
    assert Out.PartsBefore(m, 0) == [];
    var p0, p1, p2 := Out.Part(m, 0), Out.Part(m, 1), Out.Part(m, 2);
    assert before + p0 + p1 + p2 == before + ([] + p0 + p1 + p2);
  }

  /** One micro step of thread t, to the given state. */
  lemma MicroMoves(s: Out.State, n: Out.State, t: nat)
    requires t < |s.threads| && s.flight.None? && Out.MicroStep(s, n, t)
    ensures Chain([s, n])
  {
    hide Out.MicroStep;
    Moved(s, n, t);
  }

  /** Locking, writing one message and unlocking, once its step into flight is known. */
  lemma SayOut(s: Out.State, flying: Out.State, t: nat, rest: seq<Out.Micro>) returns (states: seq<Out.State>)
    requires t < |s.threads| && s.owner == None && s.flight == None && s.threads[t].todo != [] && s.threads[t].todo[0] == Out.Acquire
    requires Out.MicroStep(s.Put(t, s.threads[t].todo[1..]).(owner := Some(t)), flying, t)
    requires t < |flying.threads| && flying.owner == Some(t) && flying.flight.Some?
    requires flying.flight.value.k == 0 && flying.flight.value.m.Sendable()
    ensures Chain(states) && states != [] && states[0] == s
    ensures var f := flying.flight.value;
            states[|states| - 1] ==
            flying.(flight := None, log := flying.log + [Out.Logged(t, f.item, f.serial, f.m)], pending := flying.pending + f.m.Wire())
  {
    hide Raw.Sendable, Raw.Wire, Out.Next;
    var held := s.Put(t, s.threads[t].todo[1..]).(owner := Some(t));
    MicroMoves(s, held, t);
    MicroMoves(held, flying, t);
    var writes := WriteOut(flying, t);
    Linked([s, held], [held, flying]);
    Linked([s, held] + [held, flying][1..], writes);
    states := [s, held] + [held, flying][1..] + writes[1..];
  }

  lemma Begins(s: Out.State, t: nat) returns (n: Out.State)
    requires Free(s, t) && s.threads[t].program != []
    ensures n == s.(threads := s.threads[t := Out.Thread(s.threads[t].program[1..], Out.Compile(s.threads[t].program[0]))])
    ensures Chain([s, n])
  {
    hide Out.Compile;
    n := s.(threads := s.threads[t := Out.Thread(s.threads[t].program[1..], Out.Compile(s.threads[t].program[0]))]);
    Moved(s, n, t);
  }

  /** A whole call of SendTableDefinition with nobody else in the way. */
  lemma Defines(s: Out.State, t: nat, d: TableDef) returns (states: seq<Out.State>)
    requires Free(s, t) && s.threads[t].program != [] && s.threads[t].program[0] == Out.Define(d)
    requires d.Canonical() && |d.Encode()| <= DEFINITION_ROOM
    ensures Chain(states) && states != [] && states[0] == s
    ensures var n := states[|states| - 1];
            && n.threads == s.threads[t := Out.Thread(s.threads[t].program[1..], [])] && n.owner == None && n.flight == None
            && n.log == s.log + [Out.Logged(t, Out.Fixed(DefinitionMessage(d)), 0, DefinitionMessage(d))]
  {
    hide Raw.Sendable, Raw.Wire, Out.Next, DefinitionMessage, TableDef.Encode, TableDef.Canonical;
    var m := DefinitionMessage(d);
    DefinitionSends(d);
    var todo := [Out.Acquire, Out.Say(m), Out.Release, Out.Acquire, Out.Flush, Out.Release];
    var begun := Begins(s, t);
    assert begun.threads[t].todo == todo;
    var flying := begun.Put(t, todo[2..]).(owner := Some(t), flight := Some(Out.Flight(Out.Fixed(m), 0, m, 0)));
    Steps(begun, t, todo);
    assert begun.Put(t, todo[1..]).(owner := Some(t)).Put(t, todo[2..]) == begun.Put(t, todo[2..]).(owner := Some(t));
    assert Out.MicroStep(begun.Put(t, todo[1..]).(owner := Some(t)), flying, t);
    var said := SayOut(begun, flying, t, todo[2..]);
    Linked([s, begun], said);
    var written := said[|said| - 1];
    var rest := Flushes(written, t);
    Linked([s, begun] + said[1..], rest);
    states := [s, begun] + said[1..] + rest[1..];
  }

  lemma DefinitionSends(d: TableDef)
    requires d.Canonical() && |d.Encode()| <= DEFINITION_ROOM
    ensures DefinitionMessage(d).Sendable()
  {
    hide TableDef.Encode, TableDef.Canonical;
  }

  lemma Steps(s: Out.State, t: nat, todo: seq<Out.Micro>)
    requires |todo| >= 2
    ensures todo[1..][0] == todo[1] && todo[1..][1..] == todo[2..]
  {
  }

  /** Unlock, then the flush in a critical section of its own. */
  lemma Flushes(s: Out.State, t: nat) returns (states: seq<Out.State>)
    requires t < |s.threads| && s.owner == Some(t) && s.flight == None
    requires s.threads[t].todo == [Out.Release, Out.Acquire, Out.Flush, Out.Release]
    ensures Chain(states) && states != [] && states[0] == s
    ensures var n := states[|states| - 1];
            n == s.(threads := s.threads[t := s.threads[t].(todo := [])], owner := None, flushed := n.flushed, pending := n.pending)
  {
    hide Out.Next;
    var todo := s.threads[t].todo;
    var a := s.Put(t, todo[1..]).(owner := None);
    MicroMoves(s, a, t);
    Steps(s, t, todo);
    var b := a.Put(t, todo[2..]).(owner := Some(t));
    MicroMoves(a, b, t);
    Steps(b, t, todo[1..]);
    var c := b.Put(t, todo[3..]).(flushed := b.Stream(), pending := []);
    assert todo[2..][0] == Out.Flush && todo[2..][1..] == todo[3..];
    MicroMoves(b, c, t);
    var d := c.Put(t, []).(owner := None);
    assert todo[3..][0] == Out.Release && todo[3..][1..] == [];
    MicroMoves(c, d, t);
    Linked([s, a], [a, b]);
    Linked([s, a] + [a, b][1..], [b, c]);
    Linked([s, a] + [a, b][1..] + [b, c][1..], [c, d]);
    states := [s, a] + [a, b][1..] + [b, c][1..] + [c, d][1..];
  }

  /** A call of SendEntry up to its last write. */
  lemma Pushes(s: Out.State, t: nat, e: Entry) returns (states: seq<Out.State>)
    requires Free(s, t) && s.threads[t].program != [] && s.threads[t].program[0] == Out.Push(e) && ProperEntry(e)
    ensures Chain(states) && states != [] && states[0] == s
    ensures var n := states[|states| - 1];
            && n.flight == None && |n.log| == |s.log| + 1 && n.log[..|s.log|] == s.log
            && n.log[|s.log|].item == Out.Update(e)
  {
    hide Raw.Sendable, Raw.Wire, Out.Next, EntryMessage, ProperEntry, RawFor;
    var id := s.serials % TWO_32;
    ProperRaw(e, id);
    var m := RawFor(e, id).value;
    RawForSendable(e, id);
    var todo := [Out.Acquire, Out.Take(e, false), Out.Flush, Out.Release];
    var begun := Begins(s, t);
    assert begun.threads[t].todo == todo;
    Steps(begun, t, todo);
    var held := begun.Put(t, todo[1..]).(owner := Some(t));
    var flying := Out.AfterTake(held, t, e, false, todo[2..]);
    assert Out.MicroStep(held, flying, t);
    var said := SayOut(begun, flying, t, todo[2..]);
    Linked([s, begun], said);
    states := [s, begun] + said[1..];
  }

  lemma ProperRaw(e: Entry, id: u32)
    requires ProperEntry(e)
    ensures RawFor(e, id).Ok?
  {
    hide RawFor, Entry.Valid, Entry.MatchesTable, Fits, EntryMessage;
    assert Fits(e, 0);
    PeerSession.FitsWithAnyID(e, id);
    WholeRaw(e, id);
  }

  lemma ChainIsRun(programs: seq<seq<Out.Op>>, states: seq<Out.State>)
    requires Chain(states) && states[0] == Out.Start(programs)
    ensures Out.IsRun(programs, states)
  {
    hide Out.Next;
  }

  /** The first sender's definition and then the second's. */
  lemma TwoDefinitions(d1: TableDef, d2: TableDef, e: Entry) returns (states: seq<Out.State>)
    requires d1.Canonical() && d2.Canonical() && |d1.Encode()| <= DEFINITION_ROOM && |d2.Encode()| <= DEFINITION_ROOM
    ensures Chain(states) && states != [] && states[0] == Out.Start([[Out.Define(d1), Out.Push(e)], [Out.Define(d2)]])
    ensures var s := states[|states| - 1];
            && Free(s, 0) && s.threads[0].program == [Out.Push(e)]
            && |s.log| == 2 && s.log[1].m == DefinitionMessage(d2)
  {
    hide Chain, TableDef.Encode, TableDef.Canonical, DefinitionMessage;
    var s0 := Out.Start([[Out.Define(d1), Out.Push(e)], [Out.Define(d2)]]);
    assert s0.threads == [Out.Thread([Out.Define(d1), Out.Push(e)], []), Out.Thread([Out.Define(d2)], [])];
    var first := Defines(s0, 0, d1);
    var s1 := first[|first| - 1];
    assert s1.threads == [Out.Thread([Out.Push(e)], []), Out.Thread([Out.Define(d2)], [])];
    var second := Defines(s1, 1, d2);
    Linked(first, second);
    states := first + second[1..];
  }

  /** And then the first one's entry. */
  lemma Interleaved(d1: TableDef, d2: TableDef, e: Entry) returns (states: seq<Out.State>)
    requires d1.Canonical() && d2.Canonical() && |d1.Encode()| <= DEFINITION_ROOM && |d2.Encode()| <= DEFINITION_ROOM
    requires ProperEntry(e)
    ensures states != [] && Out.IsRun([[Out.Define(d1), Out.Push(e)], [Out.Define(d2)]], states)
    ensures var s := states[|states| - 1];
            s.flight == None && |s.log| == 3 && s.log[1].m == DefinitionMessage(d2) && s.log[2].item == Out.Update(e)
  {
    hide Chain, ProperEntry, TableDef.Encode, TableDef.Canonical, DefinitionMessage, Out.IsRun, Out.Start;
    var before := TwoDefinitions(d1, d2, e);
    var s := before[|before| - 1];
    var last := Pushes(s, 0, e);
    Linked(before, last);
    states := before + last[1..];
    ChainIsRun([[Out.Define(d1), Out.Push(e)], [Out.Define(d2)]], states);
    var n := states[|states| - 1];
    assert n.log[..2] == s.log && n.log[1] == n.log[..2][1];
  }

  /**
   * Two senders with different tables, each following the rule that a definition comes before the
   * entries of its table: some interleaving puts an entry behind the other's definition, so that
   * it does not arrive as it was sent.
   */
  lemma TwoTablesBreak(d1: TableDef, d2: TableDef, e: Entry) returns (states: seq<Out.State>)
    requires d1 != d2 && d1.Canonical() && d2.Canonical() && |d1.Encode()| <= DEFINITION_ROOM && |d2.Encode()| <= DEFINITION_ROOM
    requires ProperEntry(e) && e.table == d1
    ensures var programs := [[Out.Define(d1), Out.Push(e)], [Out.Define(d2)]];
            states != [] && AllProper(programs) && Out.IsRun(programs, states)
    ensures var s := states[|states| - 1];
            s.flight == None && !TablesInOrder(s.log)
            && !(Run(START, s.Stream()).2 == Closed && AsSent(Run(START, s.Stream()).0.handled, s.log))
  {
    hide AsSent, ProperEntry, TableDef.Encode, TableDef.Canonical, Out.IsRun, DefinitionMessage, Run, Expected, LatestTable, AllProper;
    var programs := [[Out.Define(d1), Out.Push(e)], [Out.Define(d2)]];
    states := Interleaved(d1, d2, e);
    var log := states[|states| - 1].log;
    BehindTheOther(log[..2], d1, d2);
    assert log[2].item.Update?;
    AllProperHere(programs, d1, d2, e);
    SharedDelivery(programs, states);
  }

  lemma AllProperHere(programs: seq<seq<Out.Op>>, d1: TableDef, d2: TableDef, e: Entry)
    requires programs == [[Out.Define(d1), Out.Push(e)], [Out.Define(d2)]]
    requires d1.Canonical() && d2.Canonical() && ProperEntry(e)
    ensures AllProper(programs)
  {
    hide ProperEntry, TableDef.Canonical;
  }

  /** Behind two definitions the second is the latest. */
  lemma {:induction false} BehindTheOther(log: seq<Out.Logged>, d1: TableDef, d2: TableDef)
    requires d2.Canonical() && |d2.Encode()| <= DEFINITION_ROOM && |log| == 2 && log[1].m == DefinitionMessage(d2)
    ensures LatestTable(Out.Raws(log)) == Some(d2)
  {
    hide TableDef.Encode, TableDef.Canonical, ParseDef;
    var ms := Out.Raws(log);
    assert log == log[..1] + [log[1]];
    Out.LogAppend(log[..1], log[1], 0);
    DefRoundTrip(d2, [], false);
    assert d2.Encode() + [] == d2.Encode();
    assert ms[|ms| - 1] == DefinitionMessage(d2);
  }
}
