/**
 * The output that Writer calls, heartbeats and sync replies share (peers/writer.go,
 * peers/protocol.go, peers/peers.go): one mutex, one buffered writer, any interleaving.
 */
module SharedOutput {
  import opened Common
  import opened Varints
  import opened Encoding
  import opened StickTables
  import opened EntryUpdates
  import opened PeerMessages
  import opened PeerWriter

  // ---------- the senders' programs ----------

  datatype Op =
    | Define(d: TableDef)
    | Switch(tableID: u64)
    | Push(e: Entry)
    | PushMany(es: seq<Entry>)
    | Control(msgType: byte)
    | FlushOnly

  /** What a critical section does next. Take assigns an ID and marshals; batch tells SendEntries from SendEntry. */
  datatype Micro = Acquire | Release | Flush | Say(m: Raw) | Take(e: Entry, batch: bool) | Stuck

  function Takes(es: seq<Entry>): (ms: seq<Micro>)
    ensures |ms| == |es|
  {
    if es == [] then [] else [Take(es[0], true)] + Takes(es[1..])
  }

  /** A definition or a switch is written in one critical section and flushed in another. */
  function Compile(op: Op): seq<Micro> {
    match op
    case Define(d) => if |d.Encode()| > DEFINITION_ROOM then [] else [Acquire, Say(DefinitionMessage(d)), Release, Acquire, Flush, Release]
    case Switch(t) => [Acquire, Say(SwitchMessage(t)), Release, Acquire, Flush, Release]
    case Push(e) => [Acquire, Take(e, false), Flush, Release]
    case PushMany(es) => [Acquire] + Takes(es) + [Flush, Release]
    case Control(t) => if t >= 128 then [] else [Acquire, Say(Raw(CLASS_CONTROL, t, [])), Flush, Release]
    case FlushOnly => [Acquire, Flush, Release]
  }

  /** What a call sends, apart from the update IDs. */
  datatype Item = Fixed(m: Raw) | Update(e: Entry)

  predicate CanSend(e: Entry) {
    RawFor(e, 0).Ok?
  }

  /** A batch stops at its first entry that cannot be marshalled. */
  function SendablePrefix(es: seq<Entry>): seq<Item> {
    if es == [] || !CanSend(es[0]) then [] else [Update(es[0])] + SendablePrefix(es[1..])
  }

  function ItemsOf(op: Op): seq<Item> {
    match op
    case Define(d) => if |d.Encode()| > DEFINITION_ROOM then [] else [Fixed(DefinitionMessage(d))]
    case Switch(t) => [Fixed(SwitchMessage(t))]
    case Push(e) => SendablePrefix([e])
    case PushMany(es) => SendablePrefix(es)
    case Control(t) => if t >= 128 then [] else [Fixed(Raw(CLASS_CONTROL, t, []))]
    case FlushOnly => []
  }

  function AllItems(ops: seq<Op>): seq<Item> {
    if ops == [] then [] else ItemsOf(ops[0]) + AllItems(ops[1..])
  }

  // ---------- the state machine ----------

  datatype Thread = Thread(program: seq<Op>, todo: seq<Micro>)

  /** A message of which k of the three parts are written. serial counts the IDs ever assigned. */
  datatype Flight = Flight(item: Item, serial: nat, m: Raw, k: nat)

  /** A message written in full. */
  datatype Logged = Logged(thread: nat, item: Item, serial: nat, m: Raw)

  datatype State = State(
    threads: seq<Thread>, owner: Option<nat>, flight: Option<Flight>, serials: nat,
    flushed: bytes, pending: bytes, log: seq<Logged>, failed: bool)
  {
    function Stream(): bytes {
      flushed + pending
    }

    function Put(t: nat, todo: seq<Micro>): State
      requires t < |threads|
    {
      this.(threads := threads[t := threads[t].(todo := todo)])
    }
  }

  function Start(programs: seq<seq<Op>>): State {
    State(seq(|programs|, i requires 0 <= i < |programs| => Thread(programs[i], [])), None, None, 0, [], [], [], false)
  }

  /** The separate writes of one message: header, length, payload. */
  function Part(m: Raw, k: nat): bytes {
    if k == 0 then [m.cls, m.msgType]
    else if k == 1 then (if m.msgType >= 128 then Enc(ToU64(|m.data|)) else [])
    else m.data
  }

  function PartsBefore(m: Raw, k: nat): bytes {
    if k == 0 then [] else PartsBefore(m, k - 1) + Part(m, k - 1)
  }

  /** The next call of thread t. */
  ghost predicate BeginStep(s: State, n: State, t: nat)
    requires t < |s.threads|
  {
    var th := s.threads[t];
    th.todo == [] && th.program != [] && n == s.(threads := s.threads[t := Thread(th.program[1..], Compile(th.program[0]))])
  }

  /** One write to the buffered writer, which may pass any amount of what it holds to the connection. */
  ghost predicate WriteStep(s: State, n: State, t: nat)
    requires t < |s.threads|
  {
    && s.owner == Some(t) && s.flight.Some?
    && var f := s.flight.value;
    && n.Stream() == s.Stream() + Part(f.m, f.k)
    && s.flushed <= n.flushed
    && (if f.k < 2
        then n == s.(flight := Some(f.(k := f.k + 1)), flushed := n.flushed, pending := n.pending)
        else n == s.(flight := None, log := s.log + [Logged(t, f.item, f.serial, f.m)], flushed := n.flushed, pending := n.pending))
  }

  ghost predicate MicroStep(s: State, n: State, t: nat)
    requires t < |s.threads|
  {
    && (s.owner == Some(t) ==> s.flight.None?)
    && s.threads[t].todo != []
    && var rest := s.threads[t].todo[1..];
    match s.threads[t].todo[0]
    case Acquire => s.owner == None && n == s.Put(t, rest).(owner := Some(t))
    case Release => s.owner == Some(t) && n == s.Put(t, rest).(owner := None)
    case Flush => s.owner == Some(t) && n == s.Put(t, rest).(flushed := s.Stream(), pending := [])
    case Say(m) => s.owner == Some(t) && n == s.Put(t, rest).(flight := Some(Flight(Fixed(m), 0, m, 0)))
    case Take(e, batch) => s.owner == Some(t) && n == AfterTake(s, t, e, batch, rest)
    case Stuck => false
  }

  /**
   * An error gives the lock back. So does a panic in SendEntries, whose unlock is deferred; after
   * a panic in SendEntry the lock stays taken.
   */
  function AfterTake(s: State, t: nat, e: Entry, batch: bool, rest: seq<Micro>): State
    requires t < |s.threads|
  {
    match RawFor(e, s.serials % TWO_32)
    case Ok(m) => s.Put(t, rest).(flight := Some(Flight(Update(e), s.serials, m, 0)), serials := s.serials + 1)
    case Error => s.Put(t, [Release]).(serials := s.serials + 1, failed := true)
    case Panic => s.Put(t, [if batch then Release else Stuck]).(serials := s.serials + 1, failed := true)
  }

  ghost predicate Next(s: State, n: State) {
    exists t: nat :: t < |s.threads| && (BeginStep(s, n, t) || WriteStep(s, n, t) || MicroStep(s, n, t))
  }

  /** A run: states[0] is a start state and every state follows from the one before. */
  ghost predicate IsRun(programs: seq<seq<Op>>, states: seq<State>) {
    && states != [] && states[0] == Start(programs)
    && forall i :: 0 < i < |states| ==> Next(states[i - 1], states[i])
  }

  // ---------- the invariant ----------

  /** What a thread still has to do, given whether it holds the lock: writes only under the lock, and a flush after them. */
  predicate Shaped(todo: seq<Micro>, holding: bool) {
    if todo == [] then !holding
    else
      match todo[0]
      case Acquire => !holding && Shaped(todo[1..], true)
      case Release => holding && Shaped(todo[1..], false)
      case Flush => holding && Shaped(todo[1..], true)
      case Say(m) => holding && m.Sendable() && Flush in todo[1..] && Shaped(todo[1..], true)
      case Take(_, _) => holding && Flush in todo[1..] && Shaped(todo[1..], true)
      case Stuck => holding
  }

  /** The items a thread will still put on the stream, the one in flight excepted. */
  function Remaining(todo: seq<Micro>): seq<Item> {
    if todo == [] then []
    else
      match todo[0]
      case Say(m) => [Fixed(m)] + Remaining(todo[1..])
      case Take(e, _) => if CanSend(e) then [Update(e)] + Remaining(todo[1..]) else []
      case _ => Remaining(todo[1..])
  }

  function Left(s: State, t: nat): seq<Item>
    requires t < |s.threads|
  {
    (if s.owner == Some(t) && s.flight.Some? then [s.flight.value.item] else [])
    + Remaining(s.threads[t].todo) + AllItems(s.threads[t].program)
  }

  /** The items thread t has put on the stream, in order. */
  function SentBy(log: seq<Logged>, t: nat): seq<Item> {
    if log == [] then []
    else SentBy(log[..|log| - 1], t) + if log[|log| - 1].thread == t then [log[|log| - 1].item] else []
  }

  function Raws(log: seq<Logged>): (ms: seq<Raw>)
    ensures |ms| == |log|
  {
    if log == [] then [] else Raws(log[..|log| - 1]) + [log[|log| - 1].m]
  }

  function Partial(s: State): bytes {
    if s.flight.None? then [] else PartsBefore(s.flight.value.m, s.flight.value.k)
  }

  /** An update on the wire carries the ID of its serial number. */
  predicate IDMatches(item: Item, serial: nat, m: Raw) {
    match item
    case Fixed(f) => m == f
    case Update(e) => RawFor(e, serial % TWO_32) == Ok(m)
  }

  /** Serial numbers of updates, and so their IDs, follow the order of the stream. */
  ghost predicate SerialsOrdered(log: seq<Logged>, bound: nat) {
    && (forall i :: 0 <= i < |log| && log[i].item.Update? ==> log[i].serial < bound)
    && (forall i, j :: 0 <= i < j < |log| && log[i].item.Update? && log[j].item.Update? ==> log[i].serial < log[j].serial)
  }

  ghost predicate FlightOk(s: State) {
    s.flight.Some? ==>
      var f := s.flight.value;
      && s.owner.Some? && s.owner.value < |s.threads| && f.k <= 2
      && f.m.Sendable() && IDMatches(f.item, f.serial, f.m)
      && Flush in s.threads[s.owner.value].todo
      && (f.item.Update? ==> f.serial + 1 == s.serials)
  }

  ghost predicate LogOk(s: State) {
    && (forall x <- s.log :: x.thread < |s.threads| && x.m.Sendable() && IDMatches(x.item, x.serial, x.m))
    && SerialsOrdered(s.log, if s.flight.Some? && s.flight.value.item.Update? then s.flight.value.serial else s.serials)
  }

  ghost predicate FlushComes(s: State) {
    s.pending == [] || s.failed || exists t :: 0 <= t < |s.threads| && Flush in s.threads[t].todo
  }

  ghost predicate Inv(programs: seq<seq<Op>>, s: State) {
    && |s.threads| == |programs|
    && (forall t :: 0 <= t < |s.threads| ==> Shaped(s.threads[t].todo, s.owner == Some(t)))
    && s.Stream() == WireAll(Raws(s.log)) + Partial(s)
    && (forall t :: 0 <= t < |s.threads| ==> SentBy(s.log, t) + Left(s, t) == AllItems(programs[t]))
    && FlightOk(s)
    && LogOk(s)
    && FlushComes(s)
  }

  // ---------- it is kept by every step ----------

  lemma {:induction false} TakesShaped(es: seq<Entry>)
    ensures var todo := Takes(es) + [Flush, Release];
            Shaped(todo, true) && Flush in todo && Remaining(todo) == SendablePrefix(es)
    decreases es
  {
    hide CanSend;
    var todo := Takes(es) + [Flush, Release];
    assert todo[|es|] == Flush;
    if es == [] {
      assert todo == [Flush, Release] && todo[1..] == [Release] && [Release][1..] == [];
      assert Shaped([Release], true) && Remaining([Release]) == [];
    } else {
      assert todo[0] == Take(es[0], true) && todo[1..] == Takes(es[1..]) + [Flush, Release];
      TakesShaped(es[1..]);
    }
  }

  lemma FlushTail()
    ensures Shaped([Flush, Release], true) && Remaining([Flush, Release]) == [] && Flush in [Flush, Release]
    ensures Shaped([Release, Acquire, Flush, Release], true) && Remaining([Release, Acquire, Flush, Release]) == []
    ensures Flush in [Release, Acquire, Flush, Release]
  {
    var r := [Release];
    assert r[1..] == [] && Shaped(r, true) && Remaining(r) == [];
    var fr := [Flush, Release];
    assert fr[1..] == r && fr[0] == Flush;
    var afr := [Acquire, Flush, Release];
    assert afr[1..] == fr && Shaped(afr, false);
    var rafr := [Release, Acquire, Flush, Release];
    assert rafr[1..] == afr && rafr[2] == Flush;
  }

  lemma SayShaped(m: Raw, rest: seq<Micro>)
    requires m.Sendable() && Shaped(rest, true) && Flush in rest && Remaining(rest) == []
    ensures Shaped([Acquire, Say(m)] + rest, false) && Remaining([Acquire, Say(m)] + rest) == [Fixed(m)]
  {
    hide Raw.Sendable;
    var say := [Say(m)] + rest;
    assert say[1..] == rest && ([Acquire, Say(m)] + rest)[1..] == say;
  }

  lemma CompileShaped(op: Op)
    ensures Shaped(Compile(op), false) && Remaining(Compile(op)) == ItemsOf(op)
  {
    hide TableDef.Encode, Enc, CanSend, Shaped, Remaining;
    FlushTail();
    match op
    case Define(d) =>
      if |d.Encode()| <= DEFINITION_ROOM {
        SayShaped(DefinitionMessage(d), [Release, Acquire, Flush, Release]);
        assert Compile(op) == [Acquire, Say(DefinitionMessage(d))] + [Release, Acquire, Flush, Release];
      } else {
        NothingShaped();
      }
    case Switch(t) =>
      LengthBound(t);
      SayShaped(SwitchMessage(t), [Release, Acquire, Flush, Release]);
      assert Compile(op) == [Acquire, Say(SwitchMessage(t))] + [Release, Acquire, Flush, Release];
    case Push(e) =>
      PushShaped(e);
    case PushMany(es) =>
      TakesShaped(es);
      AcquireShaped(Takes(es) + [Flush, Release]);
      assert Compile(op) == [Acquire] + (Takes(es) + [Flush, Release]);
    case Control(t) =>
      if t < 128 {
        SayShaped(Raw(CLASS_CONTROL, t, []), [Flush, Release]);
        assert Compile(op) == [Acquire, Say(Raw(CLASS_CONTROL, t, []))] + [Flush, Release];
      } else {
        NothingShaped();
      }
    case FlushOnly =>
      AcquireShaped([Flush, Release]);
      assert Compile(op) == [Acquire] + [Flush, Release];
  }

  lemma NothingShaped()
    ensures Shaped([], false) && Remaining([]) == []
  {
  }

  lemma AcquireShaped(rest: seq<Micro>)
    requires Shaped(rest, true)
    ensures Shaped([Acquire] + rest, false) && Remaining([Acquire] + rest) == Remaining(rest)
  {
    assert ([Acquire] + rest)[1..] == rest;
  }

  lemma PushShaped(e: Entry)
    ensures Shaped(Compile(Push(e)), false) && Remaining(Compile(Push(e))) == ItemsOf(Push(e))
  {
    hide CanSend;
    FlushTail();
    var todo := [Take(e, false)] + [Flush, Release];
    assert todo[1..] == [Flush, Release] && [e][1..] == [];
    AcquireShaped(todo);
    assert Compile(Push(e)) == [Acquire] + todo;
    assert SendablePrefix([e]) == if CanSend(e) then [Update(e)] + SendablePrefix([]) else [];
  }

  lemma BeginKeeps(programs: seq<seq<Op>>, s: State, n: State, t: nat)
    requires Inv(programs, s) && t < |s.threads| && BeginStep(s, n, t)
    ensures Inv(programs, n)
  {
    hide Compile, Shaped, Remaining, ItemsOf, RawFor, Raw.Sendable, IDMatches, WireAll, Raws, SentBy, SerialsOrdered, PartsBefore;
    var th := s.threads[t];
    CompileShaped(th.program[0]);
    assert s.owner != Some(t) && Remaining(th.todo) == [] by {
      BusyThread(th.todo, s.owner == Some(t));
    }
    forall u | 0 <= u < |n.threads|
      ensures SentBy(n.log, u) + Left(n, u) == AllItems(programs[u])
    {
      if u == t {
        assert [] + [] + AllItems(th.program) == [] + ItemsOf(th.program[0]) + AllItems(th.program[1..]);
      }
    }
    FlushKept(s, n, t);
  }

  lemma BusyThread(todo: seq<Micro>, holding: bool)
    requires Shaped(todo, holding)
    ensures todo == [] ==> !holding && Remaining(todo) == []
  {
  }

  /** A step that leaves the buffer alone and takes no pending flush away. */
  lemma FlushKept(s: State, n: State, t: nat)
    requires FlushComes(s) && t < |s.threads| == |n.threads|
    requires n.pending == s.pending && (s.failed ==> n.failed)
    requires forall u :: 0 <= u < |s.threads| && u != t ==> n.threads[u] == s.threads[u]
    requires Flush in s.threads[t].todo ==> Flush in n.threads[t].todo || n.failed
    ensures FlushComes(n)
  {
    if s.pending != [] && !s.failed && !n.failed {
      var u :| 0 <= u < |s.threads| && Flush in s.threads[u].todo;
      assert Flush in n.threads[u].todo;
    }
  }

  lemma LogAppend(log: seq<Logged>, x: Logged, t: nat)
    ensures SentBy(log + [x], t) == SentBy(log, t) + if x.thread == t then [x.item] else []
    ensures Raws(log + [x]) == Raws(log) + [x.m]
  {
    assert (log + [x])[..|log|] == log;
  }

  lemma {:induction false} PartsMakeWire(m: Raw)
    requires m.Sendable()
    ensures PartsBefore(m, 3) == m.Wire()
  {
    hide Enc, EncBytes;
    EncBytesParts(m.data);
    assert PartsBefore(m, 3) == PartsBefore(m, 2) + Part(m, 2);
    assert PartsBefore(m, 2) == PartsBefore(m, 1) + Part(m, 1);
    assert PartsBefore(m, 1) == PartsBefore(m, 0) + Part(m, 0);
    assert PartsBefore(m, 1) == [m.cls, m.msgType];
  }

  lemma WriteKeeps(programs: seq<seq<Op>>, s: State, n: State, t: nat)
    requires Inv(programs, s) && t < |s.threads| && WriteStep(s, n, t)
    ensures Inv(programs, n)
  {
    hide Shaped, Remaining, RawFor, Raw.Sendable, Raw.Wire, IDMatches, WireAll, Raws, SentBy, SerialsOrdered;
    hide PartsBefore, Part, FlushComes, LogOk, AllItems, Left;
    var f := s.flight.value;
    NextPart(f.m, f.k);
    if f.k < 2 {
      WriteMoreKeeps(programs, s, n, t);
    } else {
      WriteLastKeeps(programs, s, n, t);
    }
  }

  lemma WriteLastKeeps(programs: seq<seq<Op>>, s: State, n: State, t: nat)
    requires Inv(programs, s) && t < |s.threads| && WriteStep(s, n, t) && s.flight.value.k == 2
    ensures Inv(programs, n)
  {
    hide Shaped, Remaining, RawFor, Raw.Sendable, Raw.Wire, IDMatches, WireAll, Raws, SentBy, SerialsOrdered, PartsBefore, Part, AllItems;
    var f := s.flight.value;
    var x := Logged(t, f.item, f.serial, f.m);
    LogAppend(s.log, x, t);
    NextPart(f.m, 2);
    PartsMakeWire(f.m);
    WireAllSnoc(Raws(s.log), f.m);
    LastPart(WireAll(Raws(s.log)), PartsBefore(f.m, 2), Part(f.m, 2));
    forall u | 0 <= u < |n.threads|
      ensures SentBy(n.log, u) + Left(n, u) == AllItems(programs[u])
    {
      LogAppend(s.log, x, u);
      if u == t {
        LeftShift(SentBy(s.log, u), f.item, Remaining(s.threads[u].todo), AllItems(s.threads[u].program));
      } else {
        assert SentBy(s.log, u) + [] == SentBy(s.log, u);
      }
    }
    LogGrows(s, x);
    assert forall y <- n.log :: y in s.log || y == x;
  }

  lemma LastPart(whole: bytes, before: bytes, last: bytes)
    ensures whole + before + last == whole + (before + last) + []
  {
  }

  lemma NextPart(m: Raw, k: nat)
    ensures PartsBefore(m, k + 1) == PartsBefore(m, k) + Part(m, k)
  {
  }

  lemma LeftShift(sent: seq<Item>, item: Item, a: seq<Item>, b: seq<Item>)
    ensures sent + ([item] + a + b) == sent + [item] + ([] + a + b)
  {
  }

  /** The finished message takes its place behind all others. */
  lemma LogGrows(s: State, x: Logged)
    requires FlightOk(s) && LogOk(s) && s.flight.Some?
    requires x.item == s.flight.value.item && x.serial == s.flight.value.serial
    ensures SerialsOrdered(s.log + [x], s.serials)
  {
    hide IDMatches, Raw.Sendable;
  }

  lemma WriteMoreKeeps(programs: seq<seq<Op>>, s: State, n: State, t: nat)
    requires Inv(programs, s) && t < |s.threads| && WriteStep(s, n, t) && s.flight.value.k < 2
    requires var f := s.flight.value; PartsBefore(f.m, f.k + 1) == PartsBefore(f.m, f.k) + Part(f.m, f.k)
    ensures Inv(programs, n)
  {
    hide Shaped, Remaining, RawFor, Raw.Sendable, Raw.Wire, IDMatches, WireAll, Raws, SentBy, SerialsOrdered, PartsBefore, Part, AllItems;
    var f := s.flight.value;
    assert WireAll(Raws(s.log)) + PartsBefore(f.m, f.k) + Part(f.m, f.k) == WireAll(Raws(s.log)) + (PartsBefore(f.m, f.k) + Part(f.m, f.k));
    forall u | 0 <= u < |n.threads|
      ensures SentBy(n.log, u) + Left(n, u) == AllItems(programs[u])
    {
      assert Left(n, u) == Left(s, u);
    }
  }

  /** A step of a thread's todo list that sends nothing. */
  lemma QuietKeeps(programs: seq<seq<Op>>, s: State, n: State, t: nat, rest: seq<Micro>)
    requires Inv(programs, s) && t < |s.threads| && s.flight.None? && n.flight.None?
    requires n.threads == s.threads[t := s.threads[t].(todo := rest)]
    requires Shaped(rest, n.owner == Some(t)) && Remaining(rest) == Remaining(s.threads[t].todo)
    requires forall u :: 0 <= u < |s.threads| && u != t ==> (s.owner == Some(u) <==> n.owner == Some(u))
    requires n.Stream() == s.Stream() && n.log == s.log && n.serials >= s.serials && FlushComes(n)
    ensures Inv(programs, n)
  {
    hide Shaped, Remaining, RawFor, Raw.Sendable, IDMatches, WireAll, Raws, SentBy, AllItems, FlushComes;
    forall u | 0 <= u < |n.threads|
      ensures SentBy(n.log, u) + Left(n, u) == AllItems(programs[u])
      ensures Shaped(n.threads[u].todo, n.owner == Some(u))
    {
      assert Left(n, u) == Left(s, u);
    }
  }

  lemma LockKeeps(programs: seq<seq<Op>>, s: State, n: State, t: nat)
    requires Inv(programs, s) && t < |s.threads| && MicroStep(s, n, t)
    requires s.threads[t].todo[0] in {Acquire, Release}
    ensures Inv(programs, n)
  {
    hide Remaining, RawFor, Raw.Sendable, IDMatches, WireAll, Raws, SentBy, AllItems, FlushComes, LogOk;
    var rest := s.threads[t].todo[1..];
    FlushKept(s, n, t);
    HeadGone(s.threads[t].todo, s.owner == Some(t));
    assert s.flight.None?;
    QuietKeeps(programs, s, n, t, rest);
  }

  lemma HeadGone(todo: seq<Micro>, holding: bool)
    requires todo != [] && Shaped(todo, holding)
    ensures todo[0] in {Acquire, Release, Flush} ==>
              Remaining(todo) == Remaining(todo[1..]) && Shaped(todo[1..], todo[0] != Release)
    ensures todo[0] in {Acquire, Release} && Flush in todo ==> Flush in todo[1..]
  {
  }

  lemma FlushKeeps(programs: seq<seq<Op>>, s: State, n: State, t: nat)
    requires Inv(programs, s) && t < |s.threads| && MicroStep(s, n, t) && s.threads[t].todo[0] == Flush
    ensures Inv(programs, n)
  {
    hide Remaining, RawFor, Raw.Sendable, IDMatches, WireAll, Raws, SentBy, AllItems, LogOk;
    HeadGone(s.threads[t].todo, true);
    assert s.Stream() + [] == s.Stream();
    QuietKeeps(programs, s, n, t, s.threads[t].todo[1..]);
  }

  /** A message takes off: its item moves from the todo list into flight. */
  lemma FlightKeeps(programs: seq<seq<Op>>, s: State, n: State, t: nat, rest: seq<Micro>, f: Flight)
    requires Inv(programs, s) && t < |s.threads| && s.owner == Some(t) && s.flight.None?
    requires n == s.Put(t, rest).(flight := Some(f), serials := n.serials)
    requires Shaped(rest, true) && Flush in rest && Remaining(s.threads[t].todo) == [f.item] + Remaining(rest)
    requires f.k == 0 && f.m.Sendable() && IDMatches(f.item, f.serial, f.m)
    requires if f.item.Update? then f.serial == s.serials && n.serials == s.serials + 1 else n.serials == s.serials
    ensures Inv(programs, n)
  {
    hide Shaped, Remaining, RawFor, Raw.Sendable, IDMatches, WireAll, Raws, SentBy, AllItems;
    assert PartsBefore(f.m, 0) == [] && s.Stream() + [] == s.Stream();
    forall u | 0 <= u < |n.threads|
      ensures SentBy(n.log, u) + Left(n, u) == AllItems(programs[u])
      ensures Shaped(n.threads[u].todo, n.owner == Some(u))
    {
      assert Left(n, u) == Left(s, u) by {
        if u == t {
          TakeOff(f.item, Remaining(rest), AllItems(s.threads[t].program));
        }
      }
    }
    assert n.threads[t].todo == rest;
    FlushKept(s, n, t);
  }

  lemma TakeOff(item: Item, a: seq<Item>, b: seq<Item>)
    ensures [] + ([item] + a) + b == [item] + a + b
  {
  }

  lemma SayKeeps(programs: seq<seq<Op>>, s: State, n: State, t: nat)
    requires Inv(programs, s) && t < |s.threads| && MicroStep(s, n, t) && s.threads[t].todo[0].Say?
    ensures Inv(programs, n)
  {
    hide Inv, Raw.Sendable, RawFor, AllItems;
    var todo := s.threads[t].todo;
    var m := todo[0].m;
    ShapeOf(programs, s, t);
    FlightKeeps(programs, s, n, t, todo[1..], Flight(Fixed(m), 0, m, 0));
  }

  lemma ShapeOf(programs: seq<seq<Op>>, s: State, t: nat)
    requires Inv(programs, s) && t < |s.threads|
    ensures Shaped(s.threads[t].todo, s.owner == Some(t))
  {
  }

  lemma TakeKeeps(programs: seq<seq<Op>>, s: State, n: State, t: nat)
    requires Inv(programs, s) && t < |s.threads| && MicroStep(s, n, t) && s.threads[t].todo[0].Take?
    ensures Inv(programs, n)
  {
    hide Inv, Raw.Sendable, RawFor, AllItems;
    var todo := s.threads[t].todo;
    var e, batch, rest := todo[0].e, todo[0].batch, todo[1..];
    var id := s.serials % TWO_32;
    ShapeOf(programs, s, t);
    RawForAnyID(e, id);
    match RawFor(e, id)
    case Ok(m) =>
      RawForSendable(e, id);
      FlightKeeps(programs, s, n, t, rest, Flight(Update(e), s.serials, m, 0));
    case Error =>
      FailKeeps(programs, s, n, t, [Release]);
    case Panic =>
      FailKeeps(programs, s, n, t, [if batch then Release else Stuck]);
  }

  /** A failed entry sends nothing, and nothing that the call still had to do. */
  lemma FailKeeps(programs: seq<seq<Op>>, s: State, n: State, t: nat, rest: seq<Micro>)
    requires Inv(programs, s) && t < |s.threads| && s.owner == Some(t) && s.flight.None?
    requires rest == [Release] || rest == [Stuck]
    requires n == s.Put(t, rest).(serials := s.serials + 1, failed := true)
    requires Remaining(s.threads[t].todo) == []
    ensures Inv(programs, n)
  {
    hide Inv, Raw.Sendable, RawFor, AllItems;
    assert rest[1..] == [];
    QuietKeeps(programs, s, n, t, rest);
  }

  lemma StepKeeps(programs: seq<seq<Op>>, s: State, n: State)
    requires Inv(programs, s)
    ensures Next(s, n) ==> Inv(programs, n)
  {
    hide Inv, BeginStep, WriteStep, MicroStep;
    if t: nat :| t < |s.threads| && (BeginStep(s, n, t) || WriteStep(s, n, t) || MicroStep(s, n, t)) {
      if BeginStep(s, n, t) {
        BeginKeeps(programs, s, n, t);
      } else if WriteStep(s, n, t) {
        WriteKeeps(programs, s, n, t);
      } else {
        MicroKeeps(programs, s, n, t);
      }
    }
  }

  lemma MicroKeeps(programs: seq<seq<Op>>, s: State, n: State, t: nat)
    requires Inv(programs, s) && t < |s.threads| && MicroStep(s, n, t)
    ensures Inv(programs, n)
  {
    hide Inv, AfterTake;
    match s.threads[t].todo[0]
    case Acquire => LockKeeps(programs, s, n, t);
    case Release => LockKeeps(programs, s, n, t);
    case Flush => FlushKeeps(programs, s, n, t);
    case Say(_) => SayKeeps(programs, s, n, t);
    case Take(_, _) => TakeKeeps(programs, s, n, t);
    case Stuck =>
  }

  lemma StartInv(programs: seq<seq<Op>>)
    ensures Inv(programs, Start(programs))
  {
    hide AllItems;
    var s := Start(programs);
    assert s.Stream() == [] && WireAll(Raws(s.log)) + Partial(s) == [];
    forall t | 0 <= t < |programs|
      ensures SentBy(s.log, t) + Left(s, t) == AllItems(programs[t])
    {
      assert [] + ([] + [] + AllItems(programs[t])) == AllItems(programs[t]);
    }
  }

  lemma {:induction false} RunInv(programs: seq<seq<Op>>, states: seq<State>)
    requires IsRun(programs, states)
    ensures Inv(programs, states[|states| - 1])
    decreases |states|
  {
    hide Inv, Next;
    var n := |states| - 1;
    if n == 0 {
      StartInv(programs);
    } else {
      var earlier := states[..n];
      assert IsRun(programs, earlier) by {
        forall i | 0 < i < |earlier|
          ensures Next(earlier[i - 1], earlier[i])
        {
          assert Next(states[i - 1], states[i]);
        }
      }
      RunInv(programs, earlier);
      assert Next(states[n - 1], states[n]);
      StepKeeps(programs, states[n - 1], states[n]);
    }
  }

  // ---------- what it means ----------

  /**
   * In every state of every run: the connection has received a prefix of the stream; the stream
   * is whole messages followed by at most one unfinished one; every sender's messages are in its
   * own order and none is lost or repeated; update IDs follow the order of the stream.
   */
  lemma StreamIsWholeMessages(programs: seq<seq<Op>>, states: seq<State>)
    requires IsRun(programs, states)
    ensures var s := states[|states| - 1];
            && s.flushed <= s.Stream()
            && s.Stream() == WireAll(Raws(s.log)) + Partial(s)
            && (forall t :: 0 <= t < |programs| ==> SentBy(s.log, t) <= AllItems(programs[t]))
            && (forall x <- s.log :: x.thread < |programs| && IDMatches(x.item, x.serial, x.m))
            && (forall i, j :: 0 <= i < j < |s.log| && s.log[i].item.Update? && s.log[j].item.Update? ==> s.log[i].serial < s.log[j].serial)
  {
    hide WireAll, Raws, Partial, AllItems, SentBy, Left, Raw.Sendable, IDMatches, Next, Start, Shaped;
    RunInv(programs, states);
  }

  /** Whenever no message is in flight, the stream reads back as exactly the messages of the log. */
  lemma StreamParses(programs: seq<seq<Op>>, states: seq<State>)
    requires IsRun(programs, states) && states[|states| - 1].flight.None?
    ensures var s := states[|states| - 1]; ReadAll(s.Stream()) == (Raws(s.log), EndOfInput)
  {
    hide WireAll, AllItems, SentBy, Left, Raw.Sendable, IDMatches, Next, Start, Shaped, ReadAll;
    RunInv(programs, states);
    var s := states[|states| - 1];
    RawsSendable(s.log);
    assert WireAll(Raws(s.log)) + [] == WireAll(Raws(s.log));
    StreamReadsBack(Raws(s.log));
  }

  lemma {:induction false} RawsSendable(log: seq<Logged>)
    requires forall x <- log :: x.m.Sendable()
    ensures forall m <- Raws(log) :: m.Sendable()
  {
    hide Raw.Sendable;
    if log != [] {
      RawsSendable(log[..|log| - 1]);
    }
  }

  /** When all calls have returned and none failed, everything is on the connection, and it is a merge of all programs. */
  lemma NothingLeftBehind(programs: seq<seq<Op>>, states: seq<State>)
    requires IsRun(programs, states)
    requires var s := states[|states| - 1];
             !s.failed && forall t :: 0 <= t < |s.threads| ==> s.threads[t] == Thread([], [])
    ensures var s := states[|states| - 1];
            && ReadAll(s.flushed) == (Raws(s.log), EndOfInput)
            && forall t :: 0 <= t < |programs| ==> SentBy(s.log, t) == AllItems(programs[t])
  {
    hide WireAll, SentBy, Raw.Sendable, IDMatches, Next, Start, Raws, ReadAll, Partial, LogOk;
    RunInv(programs, states);
    var s := states[|states| - 1];
    assert s.pending == [];
    assert s.flight.None?;
    StreamParses(programs, states);
    assert s.Stream() == s.flushed;
    forall t | 0 <= t < |programs|
      ensures SentBy(s.log, t) == AllItems(programs[t])
    {
      assert Remaining([]) == [] && AllItems([]) == [] && Left(s, t) == [];
    }
  }

  // ---------- after a panic in SendEntry ----------

  lemma RunUpTo(programs: seq<seq<Op>>, states: seq<State>, k: nat)
    requires IsRun(programs, states) && k < |states|
    ensures Inv(programs, states[k])
  {
    hide Inv, Next;
    var earlier := states[..k + 1];
    forall i | 0 < i < |earlier|
      ensures Next(earlier[i - 1], earlier[i])
    {
      assert Next(states[i - 1], states[i]);
    }
    RunInv(programs, earlier);
  }

  lemma StuckStep(programs: seq<seq<Op>>, s: State, n: State, t: nat)
    requires Inv(programs, s) && Next(s, n) && t < |s.threads| && s.threads[t].todo == [Stuck]
    ensures t < |n.threads| && n.threads[t].todo == [Stuck]
    ensures s.owner == n.owner == Some(t) && n.Stream() == s.Stream() && n.log == s.log
  {
    hide Compile, Remaining, RawFor, WireAll, Raws, SentBy, AllItems, PartsBefore, Part, LogOk, FlushComes, Left;
    assert Shaped(s.threads[t].todo, s.owner == Some(t));
    assert Flush !in s.threads[t].todo && s.flight.None?;
    var u: nat :| u < |s.threads| && (BeginStep(s, n, u) || WriteStep(s, n, u) || MicroStep(s, n, u));
    assert Shaped(s.threads[u].todo, s.owner == Some(u));
  }

  /**
   * A panic in SendEntry, which unlocks without a defer, keeps the lock for good: no sender ever
   * gets it again and nothing more reaches the stream.
   */
  lemma {:induction false} StuckForever(programs: seq<seq<Op>>, states: seq<State>, j: nat, k: nat, t: nat)
    requires IsRun(programs, states) && j <= k < |states|
    requires t < |states[j].threads| && states[j].threads[t].todo == [Stuck]
    ensures t < |states[k].threads| && states[k].threads[t].todo == [Stuck] && states[k].owner == Some(t)
    ensures states[k].Stream() == states[j].Stream() && states[k].log == states[j].log
    decreases k
  {
    hide Inv, Next;
    if j < k {
      StuckForever(programs, states, j, k - 1, t);
      RunUpTo(programs, states, k - 1);
      assert Next(states[k - 1], states[k]);
      StuckStep(programs, states[k - 1], states[k], t);
    } else {
      RunUpTo(programs, states, k);
      StuckOwns(programs, states[k], t);
    }
  }

  lemma StuckOwns(programs: seq<seq<Op>>, s: State, t: nat)
    requires Inv(programs, s) && t < |s.threads| && s.threads[t].todo == [Stuck]
    ensures s.owner == Some(t)
  {
    hide Remaining, WireAll, Raws, SentBy, AllItems, Left, LogOk, FlightOk, FlushComes;
    assert Shaped(s.threads[t].todo, s.owner == Some(t));
  }

  // ---------- which calls keep the lock ----------

  /** Entries are what Go can hold. */
  ghost predicate Sendables(programs: seq<seq<Op>>) {
    forall t, e :: 0 <= t < |programs| && Push(e) in programs[t] ==> e.Valid()
  }

  /** A call of SendEntry in this program that panics. */
  ghost predicate HasPanic(ops: seq<Op>) {
    exists e :: Push(e) in ops && Unmarshallable(e)
  }

  /** What a thread has to do comes from its program, and it is stuck only by an entry that panics. */
  ghost predicate FromProgram(ops: seq<Op>, th: Thread) {
    && (forall op <- th.program :: op in ops)
    && (forall e :: Take(e, false) in th.todo ==> Push(e) in ops)
    && (Stuck in th.todo ==> HasPanic(ops))
  }

  ghost predicate AllFromPrograms(programs: seq<seq<Op>>, s: State) {
    |s.threads| == |programs| && forall t :: 0 <= t < |programs| ==> FromProgram(programs[t], s.threads[t])
  }

  lemma CompiledFrom(op: Op, ops: seq<Op>, rest: seq<Op>)
    requires op in ops && forall o <- rest :: o in ops
    ensures FromProgram(ops, Thread(rest, Compile(op)))
  {
    hide TableDef.Encode, HasPanic, DefinitionMessage, SwitchMessage;
    if op.PushMany? {
      TakesAreBatch(op.es);
    }
  }

  lemma {:induction false} TakesAreBatch(es: seq<Entry>)
    ensures forall m <- Takes(es) :: m.Take? && m.batch
  {
    if es != [] {
      TakesAreBatch(es[1..]);
    }
  }

  lemma TakenFrom(programs: seq<seq<Op>>, s: State, n: State, t: nat)
    requires Sendables(programs) && AllFromPrograms(programs, s) && t < |s.threads| && MicroStep(s, n, t)
    ensures AllFromPrograms(programs, n)
  {
    hide RawFor, FromProgram, Unmarshallable;
    var th := s.threads[t];
    var rest := th.todo[1..];
    RestFrom(programs[t], th);
    if th.todo[0].Take? {
      var e := th.todo[0].e;
      FailedFrom(programs, t, th, e, th.todo[0].batch, s.serials % TWO_32);
    }
  }

  lemma RestFrom(ops: seq<Op>, th: Thread)
    requires FromProgram(ops, th) && th.todo != []
    ensures FromProgram(ops, th.(todo := th.todo[1..]))
  {
    hide HasPanic;
    assert forall m <- th.todo[1..] :: m in th.todo;
  }

  lemma FailedFrom(programs: seq<seq<Op>>, t: nat, th: Thread, e: Entry, batch: bool, id: u32)
    requires Sendables(programs) && t < |programs| && FromProgram(programs[t], th)
    requires th.todo != [] && th.todo[0] == Take(e, batch)
    ensures FromProgram(programs[t], th.(todo := [Release]))
    ensures RawFor(e, id).Panic? ==> FromProgram(programs[t], th.(todo := [if batch then Release else Stuck]))
  {
    hide RawFor, Unmarshallable;
    if !batch && RawFor(e, id).Panic? {
      assert Take(e, false) in th.todo && Push(e) in programs[t];
      PanicIff(e, id);
    }
  }

  lemma StepFrom(programs: seq<seq<Op>>, s: State, n: State)
    requires Sendables(programs) && AllFromPrograms(programs, s)
    ensures Next(s, n) ==> AllFromPrograms(programs, n)
  {
    hide FromProgram, Compile, RawFor, AfterTake;
    if t: nat :| t < |s.threads| && (BeginStep(s, n, t) || WriteStep(s, n, t) || MicroStep(s, n, t)) {
      if BeginStep(s, n, t) {
        ProgramFrom(programs[t], s.threads[t]);
        CompiledFrom(s.threads[t].program[0], programs[t], s.threads[t].program[1..]);
      } else if !WriteStep(s, n, t) {
        TakenFrom(programs, s, n, t);
      }
    }
  }

  lemma ProgramFrom(ops: seq<Op>, th: Thread)
    requires FromProgram(ops, th) && th.program != []
    ensures th.program[0] in ops && forall o <- th.program[1..] :: o in ops
  {
    hide HasPanic;
  }

  lemma {:induction false} RunFrom(programs: seq<seq<Op>>, states: seq<State>, k: nat)
    requires Sendables(programs) && IsRun(programs, states) && k < |states|
    ensures AllFromPrograms(programs, states[k])
  {
    hide Next, Sendables;
    if k > 0 {
      RunFrom(programs, states, k - 1);
      StepFrom(programs, states[k - 1], states[k]);
    }
  }

  /** Only a sender that calls SendEntry with an entry that panics is ever stuck with the lock. */
  lemma StuckOnlyByPanic(programs: seq<seq<Op>>, states: seq<State>, k: nat, t: nat)
    requires Sendables(programs) && IsRun(programs, states) && k < |states|
    requires t < |states[k].threads| && states[k].threads[t].todo == [Stuck]
    ensures t < |programs| && HasPanic(programs[t])
  {
    hide Sendables, IsRun, HasPanic;
    RunFrom(programs, states, k);
    assert FromProgram(programs[t], states[k].threads[t]);
  }

  /** A call of SendEntry with an entry that panics gets there: begin, lock, marshal. */
  lemma PanicSticks(e: Entry) returns (states: seq<State>)
    requires e.Valid() && Unmarshallable(e)
    ensures IsRun([[Push(e)]], states)
    ensures var last := states[|states| - 1]; |last.threads| == 1 && last.threads[0].todo == [Stuck]
  {
    hide RawFor, Unmarshallable;
    PanicIff(e, 0);
    var s0 := Start([[Push(e)]]);
    assert s0.threads == [Thread([Push(e)], [])];
    var todo := [Acquire, Take(e, false), Flush, Release];
    var s1 := s0.(threads := [Thread([], todo)]);
    assert [Push(e)][1..] == [] && s0.threads[0 := Thread([], todo)] == s1.threads;
    assert BeginStep(s0, s1, 0);
    var s2 := s1.(threads := [Thread([], todo[1..])], owner := Some(0));
    assert MicroStep(s1, s2, 0);
    var s3 := AfterTake(s2, 0, e, false, todo[2..]);
    assert todo[1..][0] == Take(e, false) && todo[1..][1..] == todo[2..];
    assert MicroStep(s2, s3, 0);
    states := [s0, s1, s2, s3];
    assert Next(s0, s1) && Next(s1, s2) && Next(s2, s3);
  }

  /** A run of one call of SendEntry that ends with the lock taken for good. */
  ghost predicate Sticks(e: Entry, states: seq<State>) {
    && IsRun([[Push(e)]], states)
    && |states[|states| - 1].threads| == 1 && states[|states| - 1].threads[0].todo == [Stuck]
  }

  /** SendEntry can be left with the lock taken if and only if its entry is one that panics. */
  lemma KeepsLockIff(e: Entry)
    requires e.Valid()
    ensures (exists states: seq<State> :: Sticks(e, states)) <==> Unmarshallable(e)
  {
    hide Unmarshallable, IsRun;
    if Unmarshallable(e) {
      var states := PanicSticks(e);
      assert Sticks(e, states);
    }
    forall states: seq<State> | Sticks(e, states)
      ensures Unmarshallable(e)
    {
      NotEmpty([[Push(e)]], states);
      StuckOnlyByPanic([[Push(e)]], states, |states| - 1, 0);
    }
  }

  lemma NotEmpty(programs: seq<seq<Op>>, states: seq<State>)
    requires IsRun(programs, states)
    ensures |states| > 0
  {
  }
}
