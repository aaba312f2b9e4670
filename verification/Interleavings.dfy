/**
 * Which senders can share a connection: the programs of peers.Writer calls of which every
 * interleaving delivers all entries as sent (peers/writer.go, peers/protocol.go).
 */
module Interleavings {
  import opened Common
  import opened StickTables
  import opened EntryUpdates
  import opened PeerMessages
  import opened PeerWriter
  import opened PeerReceiver
  import opened SharedSession
  import Out = SharedOutput

  // ---------- the condition ----------

  /** The table that an item defines, if it is a definition. */
  function TableOf(item: Out.Item): Option<TableDef> {
    if item.Fixed? && IsDefinition(item.m) && ParseDef(item.m.data, false).Ok?
    then Some(ParseDef(item.m.data, false).value.0) else None
  }

  /** The latest table that the items define. */
  function LatestIn(items: seq<Out.Item>): Option<TableDef> {
    if items == [] then None
    else if TableOf(items[|items| - 1]).Some? then TableOf(items[|items| - 1])
    else LatestIn(items[..|items| - 1])
  }

  /** A sender on its own: every entry is behind the definition of its table, with no other one between. */
  predicate OwnTables(items: seq<Out.Item>) {
    forall p :: 0 <= p < |items| && items[p].Update? ==> LatestIn(items[..p]) == Some(items[p].e.table)
  }

  /** Definitions of another sender are of the table of every entry of this one. */
  predicate Undisturbed(items: seq<Out.Item>, others: seq<Out.Item>) {
    forall x, y :: x in items && y in others && x.Update? && TableOf(y).Some? ==> TableOf(y) == Some(x.e.table)
  }

  ghost predicate Compatible(programs: seq<seq<Out.Op>>) {
    && (forall t :: 0 <= t < |programs| ==> OwnTables(Out.AllItems(programs[t])))
    && (forall t, u :: 0 <= t < |programs| && 0 <= u < |programs| && t != u ==>
          Undisturbed(Out.AllItems(programs[t]), Out.AllItems(programs[u])))
  }

  /** A receiver of everything written so far has exactly its entries, as sent. */
  ghost predicate Delivered(states: seq<Out.State>) {
    states != [] &&
    var s := states[|states| - 1];
    Run(START, s.Stream()).2 == Closed && AsSent(Run(START, s.Stream()).0.handled, s.log)
  }

  /** A run up to a moment when no message is half written. */
  ghost predicate Whole(programs: seq<seq<Out.Op>>, states: seq<Out.State>) {
    Out.IsRun(programs, states) && states[|states| - 1].flight.None?
  }

  /** The table of a definition's item is the one the caller gave. */
  lemma DefinedTable(d: TableDef)
    requires d.Canonical() && |d.Encode()| <= DEFINITION_ROOM
    ensures TableOf(Out.Fixed(DefinitionMessage(d))) == Some(d)
  {
    hide TableDef.Encode, TableDef.Canonical, ParseDef;
    DefRoundTrip(d, [], false);
    assert d.Encode() + [] == d.Encode();
  }

  // ---------- the log as items ----------

  function ItemsIn(log: seq<Out.Logged>): (items: seq<Out.Item>)
    ensures |items| == |log|
  {
    if log == [] then [] else ItemsIn(log[..|log| - 1]) + [log[|log| - 1].item]
  }

  lemma {:induction false} ItemAt(log: seq<Out.Logged>, i: nat)
    requires i < |log|
    ensures ItemsIn(log)[i] == log[i].item && ItemsIn(log[..i]) == ItemsIn(log)[..i]
  {
    var n := |log| - 1;
    if i < n {
      ItemAt(log[..n], i);
      assert log[..n][..i] == log[..i];
    } else {
      assert ItemsIn(log)[..n] == ItemsIn(log[..n]);
    }
  }

  lemma {:induction false} LatestIs(log: seq<Out.Logged>)
    requires ProperLog(log)
    ensures LatestTable(Out.Raws(log)) == LatestIn(ItemsIn(log))
  {
    hide ProperItem, Out.IDMatches, ParseDef, IsUpdate;
    if log != [] {
      var n := |log| - 1;
      var before, x := log[..n], log[n];
      assert log == before + [x] && x in log && forall y <- before :: y in log;
      LatestIs(before);
      Out.LogAppend(before, x, 0);
      KindOf(x);
      NotBoth(x.m);
      LatestStep(Out.Raws(before), x.m);
      ItemsStep(ItemsIn(before), x.item);
    }
  }

  lemma NotBoth(m: Raw)
    ensures !(IsUpdate(m) && IsDefinition(m))
  {
  }

  lemma LatestStep(ms: seq<Raw>, m: Raw)
    ensures LatestTable(ms + [m]) ==
            if IsDefinition(m) && ParseDef(m.data, false).Ok? then Some(ParseDef(m.data, false).value.0) else LatestTable(ms)
  {
    hide ParseDef, IsDefinition;
    assert (ms + [m])[..|ms|] == ms;
  }

  lemma ItemsStep(items: seq<Out.Item>, x: Out.Item)
    ensures LatestIn(items + [x]) == if TableOf(x).Some? then TableOf(x) else LatestIn(items)
  {
    hide TableOf;
    assert (items + [x])[..|items|] == items;
  }

  /** The order of the log, by its items. */
  lemma InOrderIff(log: seq<Out.Logged>)
    requires ProperLog(log)
    ensures TablesInOrder(log) <==> OwnTables(ItemsIn(log))
  {
    hide ProperItem, Out.IDMatches, LatestTable, LatestIn;
    forall i | 0 <= i < |log|
      ensures ItemsIn(log)[i] == log[i].item && LatestTable(Out.Raws(log[..i])) == LatestIn(ItemsIn(log)[..i])
    {
      ItemAt(log, i);
      assert ProperLog(log[..i]) by {
        assert forall x <- log[..i] :: x in log;
      }
      LatestIs(log[..i]);
    }
  }

  // ---------- compatible senders always deliver ----------

  lemma {:induction false} SentPrefix(log: seq<Out.Logged>, i: nat, t: nat)
    requires i <= |log|
    ensures Out.SentBy(log[..i], t) <= Out.SentBy(log, t)
  {
    if i < |log| {
      var n := |log| - 1;
      SentPrefix(log[..n], i, t);
      assert log[..n][..i] == log[..i];
    } else {
      assert log[..i] == log;
    }
  }

  /** The latest table on the stream is that of sender t when no other sender defines a different one. */
  lemma {:induction false} MergedLatest(log: seq<Out.Logged>, t: nat, d: TableDef)
    requires LatestIn(Out.SentBy(log, t)) == Some(d)
    requires forall x <- log :: x.thread != t && TableOf(x.item).Some? ==> TableOf(x.item) == Some(d)
    ensures LatestIn(ItemsIn(log)) == Some(d)
  {
    hide TableOf, LatestIn;
    if log == [] {
      assert LatestIn([]) == None by {
        NothingLatest();
      }
    } else {
      var n := |log| - 1;
      var before, x := log[..n], log[n];
      assert log == before + [x] && x in log && forall y <- before :: y in log;
      Out.LogAppend(before, x, t);
      ItemsStep(ItemsIn(before), x.item);
      ItemsStep(Out.SentBy(before, t), x.item);
      if x.thread != t {
        assert Out.SentBy(before, t) + [] == Out.SentBy(before, t);
      }
      if TableOf(x.item).None? {
        MergedLatest(before, t, d);
      }
    }
  }

  lemma NothingLatest()
    ensures LatestIn([]) == None
  {
  }

  /** Where an item of the log stands in its sender's program. */
  lemma PlaceOf(log: seq<Out.Logged>, i: nat, items: seq<Out.Item>)
    requires i < |log| && Out.SentBy(log, log[i].thread) <= items
    ensures var p := |Out.SentBy(log[..i], log[i].thread)|;
            p < |items| && items[p] == log[i].item && items[..p] == Out.SentBy(log[..i], log[i].thread)
  {
    hide Out.SentBy;
    var t := log[i].thread;
    SentPrefix(log, i + 1, t);
    assert log[..i + 1] == log[..i] + [log[i]];
    Out.LogAppend(log[..i], log[i], t);
  }

  lemma CompatibleInOrder(programs: seq<seq<Out.Op>>, log: seq<Out.Logged>)
    requires Compatible(programs) && ProperLog(log)
    requires forall x <- log :: x.thread < |programs|
    requires forall t :: 0 <= t < |programs| ==> Out.SentBy(log, t) <= Out.AllItems(programs[t])
    ensures TablesInOrder(log)
  {
    hide ProperItem, Out.IDMatches, Out.AllItems, Out.SentBy, LatestIn, TableOf, Compatible, OwnTables, Undisturbed, TablesInOrder;
    forall i | 0 <= i < |log| && log[i].item.Update?
      ensures LatestIn(ItemsIn(log)[..i]) == Some(log[i].item.e.table)
    {
      assert log[i] in log;
      OneInOrder(programs, log, i);
    }
    ByItems(log);
    InOrderIff(log);
  }

  lemma ByItems(log: seq<Out.Logged>)
    requires forall i :: 0 <= i < |log| && log[i].item.Update? ==> LatestIn(ItemsIn(log)[..i]) == Some(log[i].item.e.table)
    ensures OwnTables(ItemsIn(log))
  {
    hide LatestIn;
    forall i | 0 <= i < |log|
      ensures ItemsIn(log)[i] == log[i].item
    {
      ItemAt(log, i);
    }
  }

  lemma OneInOrder(programs: seq<seq<Out.Op>>, log: seq<Out.Logged>, i: nat)
    requires Compatible(programs) && i < |log| && log[i].item.Update?
    requires forall x <- log :: x.thread < |programs|
    requires forall t :: 0 <= t < |programs| ==> Out.SentBy(log, t) <= Out.AllItems(programs[t])
    ensures LatestIn(ItemsIn(log)[..i]) == Some(log[i].item.e.table)
  {
    hide Out.AllItems, Out.SentBy, LatestIn, TableOf, OwnTables, Undisturbed;
    var x := log[i];
    var t, d := x.thread, x.item.e.table;
    assert x in log;
    var items := Out.AllItems(programs[t]);
    PlaceOf(log, i, items);
    Own(items, |Out.SentBy(log[..i], t)|);
    forall y <- log[..i]
      ensures y.thread != t && TableOf(y.item).Some? ==> TableOf(y.item) == Some(d)
    {
      var j :| 0 <= j < i && log[j] == y;
      if y.thread != t {
        assert y in log;
        LoggedBySender(log, j);
        Others(items, Out.AllItems(programs[y.thread]), x.item, y.item);
      }
    }
    MergedLatest(log[..i], t, d);
    ItemAt(log, i);
  }

  lemma Own(items: seq<Out.Item>, p: nat)
    requires OwnTables(items) && p < |items| && items[p].Update?
    ensures LatestIn(items[..p]) == Some(items[p].e.table)
  {
    hide LatestIn;
  }

  lemma Others(items: seq<Out.Item>, others: seq<Out.Item>, x: Out.Item, y: Out.Item)
    requires Undisturbed(items, others) && x in items && y in others && x.Update?
    ensures TableOf(y).Some? ==> TableOf(y) == Some(x.e.table)
  {
    hide TableOf;
  }

  // ---------- running calls with nobody in the way ----------

  /** The rest of a proper call. */
  predicate ProperRest(todo: seq<Out.Micro>) {
    forall m <- todo :: m != Out.Stuck && (m.Take? ==> ProperEntry(m.e))
  }

  /** The lock is free, or held by t when it is inside a critical section. */
  predicate Alone(s: Out.State, t: nat, holding: bool) {
    t < |s.threads| && s.flight == None && s.owner == (if holding then Some(t) else None)
  }

  /** What running thread t to the end of its call leaves behind. */
  ghost predicate Ran(s: Out.State, t: nat, n: Out.State, program: seq<Out.Op>, items: seq<Out.Item>) {
    && t < |s.threads| && n.owner == None && n.flight == None
    && n.threads == s.threads[t := Out.Thread(program, [])]
    && ItemsIn(n.log) == ItemsIn(s.log) + items
  }

  lemma RestOf(todo: seq<Out.Micro>, holding: bool)
    requires todo != [] && Out.Shaped(todo, holding) && ProperRest(todo)
    ensures ProperRest(todo[1..]) && todo[0] != Out.Stuck && (todo[0].Take? ==> ProperEntry(todo[0].e))
    ensures todo[0] == Out.Acquire ==> !holding && Out.Shaped(todo[1..], true)
    ensures todo[0] == Out.Release ==> holding && Out.Shaped(todo[1..], false)
    ensures todo[0] != Out.Acquire && todo[0] != Out.Release ==> holding && Out.Shaped(todo[1..], true)
    ensures todo[0].Say? ==> todo[0].m.Sendable()
    ensures Out.Remaining(todo) ==
            match todo[0]
            case Say(m) => [Out.Fixed(m)] + Out.Remaining(todo[1..])
            case Take(e, _) => if Out.CanSend(e) then [Out.Update(e)] + Out.Remaining(todo[1..]) else []
            case _ => Out.Remaining(todo[1..])
  {
    hide ProperEntry, Raw.Sendable, Out.CanSend;
  }

  /** One micro step without output. */
  lemma QuietStep(s: Out.State, t: nat, holding: bool) returns (n: Out.State)
    requires Alone(s, t, holding) && s.threads[t].todo != [] && Out.Shaped(s.threads[t].todo, holding) && ProperRest(s.threads[t].todo)
    requires var m := s.threads[t].todo[0]; m == Out.Acquire || m == Out.Release || m == Out.Flush
    ensures Chain([s, n]) && Alone(n, t, s.threads[t].todo[0] != Out.Release)
    ensures n.log == s.log && n.threads == s.threads[t := s.threads[t].(todo := s.threads[t].todo[1..])]
  {
    hide Out.Next, Out.Shaped;
    var todo := s.threads[t].todo;
    RestOf(todo, holding);
    n := s.Put(t, todo[1..]);
    if todo[0] == Out.Flush {
      n := n.(flushed := s.Stream(), pending := []);
    } else {
      n := n.(owner := if todo[0] == Out.Acquire then Some(t) else None);
    }
    assert Out.MicroStep(s, n, t);
    MicroMoves(s, n, t);
  }

  /** One micro step into flight, and the writes that follow. */
  lemma SendingStep(s: Out.State, t: nat) returns (states: seq<Out.State>)
    requires Alone(s, t, true) && s.threads[t].todo != [] && Out.Shaped(s.threads[t].todo, true) && ProperRest(s.threads[t].todo)
    requires var m := s.threads[t].todo[0]; m.Say? || m.Take?
    ensures Chain(states) && states != [] && states[0] == s
    ensures var n := states[|states| - 1];
            && Alone(n, t, true) && n.threads == s.threads[t := s.threads[t].(todo := s.threads[t].todo[1..])]
            && |n.log| == |s.log| + 1 && n.log[..|s.log|] == s.log
            && Out.Remaining(s.threads[t].todo) == [n.log[|s.log|].item] + Out.Remaining(s.threads[t].todo[1..])
  {
    hide Out.Next, Out.Shaped, Raw.Sendable, Raw.Wire, RawFor, ProperEntry, Chain, Out.Remaining;
    var todo := s.threads[t].todo;
    RestOf(todo, true);
    var flying := s.Put(t, todo[1..]);
    match todo[0]
    case Say(m) =>
      flying := flying.(flight := Some(Out.Flight(Out.Fixed(m), 0, m, 0)));
      states := FlyingStep(s, flying, t);
    case Take(e, batch) =>
      var id := s.serials % TWO_32;
      ProperRaw(e, id);
      ProperRaw(e, 0);
      RawForSendable(e, id);
      flying := Out.AfterTake(s, t, e, batch, todo[1..]);
      states := FlyingStep(s, flying, t);
    case _ =>
  }

  lemma FlyingStep(s: Out.State, flying: Out.State, t: nat) returns (states: seq<Out.State>)
    requires Alone(s, t, true) && Out.MicroStep(s, flying, t)
    requires |flying.threads| == |s.threads| && flying.owner == Some(t) && flying.flight.Some? && flying.flight.value.k == 0
    requires flying.flight.value.m.Sendable()
    ensures Chain(states) && states != [] && states[0] == s
    ensures var f := flying.flight.value;
            states[|states| - 1] ==
            flying.(flight := None, log := flying.log + [Out.Logged(t, f.item, f.serial, f.m)], pending := flying.pending + f.m.Wire())
  {
    hide Out.MicroStep, Raw.Sendable, Raw.Wire, Chain;
    MicroMoves(s, flying, t);
    var writes := WriteOut(flying, t);
    Linked([s, flying], writes);
    states := [s, flying] + writes[1..];
  }

  lemma ItemsGrow(before: seq<Out.Logged>, now: seq<Out.Logged>)
    requires |now| == |before| + 1 && now[..|before|] == before
    ensures ItemsIn(now) == ItemsIn(before) + [now[|before|].item]
  {
  }

  /** From anywhere in a proper call, its end can be reached, and what is left of it is sent. */
  lemma {:induction false} Finishes(s: Out.State, t: nat, holding: bool) returns (states: seq<Out.State>)
    requires Alone(s, t, holding) && Out.Shaped(s.threads[t].todo, holding) && ProperRest(s.threads[t].todo)
    ensures Chain(states) && states != [] && states[0] == s
    ensures Ran(s, t, states[|states| - 1], s.threads[t].program, Out.Remaining(s.threads[t].todo))
    decreases |s.threads[t].todo|
  {
    hide Out.Shaped, ProperRest, Chain, Out.Remaining, ItemsIn;
    var todo := s.threads[t].todo;
    if todo == [] {
      Out.BusyThread(todo, holding);
      OneState(s);
      assert s.threads[t := s.threads[t]] == s.threads && ItemsIn(s.log) + [] == ItemsIn(s.log);
      states := [s];
    } else {
      RestOf(todo, holding);
      if todo[0].Say? || todo[0].Take? {
        var first := SendingStep(s, t);
        var n := first[|first| - 1];
        var rest := Finishes(n, t, true);
        Linked(first, rest);
        states := first + rest[1..];
        ItemsGrow(s.log, n.log);
        ItemsRegroup(ItemsIn(s.log), [n.log[|s.log|].item], Out.Remaining(todo[1..]));
      } else {
        var n := QuietStep(s, t, holding);
        var rest := Finishes(n, t, todo[0] != Out.Release);
        Linked([s, n], rest);
        states := [s, n] + rest[1..];
      }
    }
  }

  lemma ItemsRegroup(a: seq<Out.Item>, b: seq<Out.Item>, c: seq<Out.Item>)
    ensures a + b + c == a + (b + c)
  {
  }

  lemma OneState(s: Out.State)
    ensures Chain([s])
  {
  }

  lemma CompiledProper(op: Out.Op)
    requires Proper(op)
    ensures ProperRest(Out.Compile(op))
  {
    hide ProperEntry, TableDef.Encode, TableDef.Canonical, DefinitionMessage, SwitchMessage;
    if op.PushMany? {
      TakesProper(op.es);
    }
  }

  lemma {:induction false} TakesProper(es: seq<Entry>)
    requires forall e <- es :: ProperEntry(e)
    ensures ProperRest(Out.Takes(es))
  {
    hide ProperEntry;
    if es != [] {
      TakesProper(es[1..]);
    }
  }

  /** The next k calls of thread t, one after the other. */
  lemma {:induction false} Calls(s: Out.State, t: nat, k: nat) returns (states: seq<Out.State>)
    requires Alone(s, t, false) && s.threads[t].todo == [] && ProperOps(s.threads[t].program) && k <= |s.threads[t].program|
    ensures Chain(states) && states != [] && states[0] == s
    ensures Ran(s, t, states[|states| - 1], s.threads[t].program[k..], Out.AllItems(s.threads[t].program[..k]))
    decreases k
  {
    hide Chain, Proper, Out.Shaped, Out.Remaining, ProperRest, ItemsIn, Out.Compile, Out.ItemsOf, Out.AllItems;
    var program := s.threads[t].program;
    if k == 0 {
      OneState(s);
      NoItems();
      assert program[0..] == program && program[..0] == [];
      assert s.threads[t := Out.Thread(program, [])] == s.threads && ItemsIn(s.log) + [] == ItemsIn(s.log);
      states := [s];
    } else {
      var op := program[0];
      assert op in program;
      assert ProperOps(program[1..]) by {
        assert forall o <- program[1..] :: o in program;
      }
      var begun := Begins(s, t);
      Out.CompileShaped(op);
      CompiledProper(op);
      var call := Finishes(begun, t, false);
      var done := call[|call| - 1];
      var more := Calls(done, t, k - 1);
      Linked([s, begun], call);
      Linked([s, begun] + call[1..], more);
      states := [s, begun] + call[1..] + more[1..];
      assert program[1..][k - 1..] == program[k..] && program[..k][1..] == program[1..][..k - 1] && program[..k][0] == op;
      ItemsCons(program[..k]);
      ItemsRegroup(ItemsIn(s.log), Out.ItemsOf(op), Out.AllItems(program[1..][..k - 1]));
    }
  }

  lemma NoItems()
    ensures Out.AllItems([]) == []
  {
  }

  lemma ItemsCons(ops: seq<Out.Op>)
    requires ops != []
    ensures Out.AllItems(ops) == Out.ItemsOf(ops[0]) + Out.AllItems(ops[1..])
  {
    hide Out.ItemsOf;
  }

  // ---------- which senders always deliver ----------

  lemma CompatibleDelivers(programs: seq<seq<Out.Op>>, states: seq<Out.State>)
    requires AllProper(programs) && Compatible(programs) && Whole(programs, states)
    ensures Delivered(states)
  {
    hide Out.IsRun, AllProper, Compatible, ProperLog, Out.AllItems, Out.SentBy, Out.IDMatches, TablesInOrder, Run, AsSent;
    hide WireAll, Out.Raws, Out.Partial, Raw.Sendable;
    Out.NotEmpty(programs, states);
    Out.StreamIsWholeMessages(programs, states);
    LogIsProper(programs, states);
    CompatibleInOrder(programs, states[|states| - 1].log);
    SharedDelivery(programs, states);
  }

  /** A run whose items are out of order does not deliver. */
  lemma OutOfOrder(programs: seq<seq<Out.Op>>, states: seq<Out.State>)
    requires AllProper(programs) && Whole(programs, states)
    ensures Delivered(states) ==> OwnTables(ItemsIn(states[|states| - 1].log))
  {
    hide Out.IsRun, AllProper, ProperLog, TablesInOrder, Run, AsSent, Out.Raws, Raw.Sendable, OwnTables, ItemsIn;
    Out.NotEmpty(programs, states);
    LogIsProper(programs, states);
    InOrderIff(states[|states| - 1].log);
    SharedDelivery(programs, states);
  }

  lemma Starting(programs: seq<seq<Out.Op>>, t: nat)
    requires t < |programs| && AllProper(programs)
    ensures var s := Out.Start(programs);
            && Alone(s, t, false) && s.threads[t] == Out.Thread(programs[t], []) && ProperOps(programs[t]) && ItemsIn(s.log) == []
            && |s.threads| == |programs|
  {
    hide ProperOps;
    assert programs[t] in programs;
  }

  /** A sender that is not in order on its own, running alone. */
  lemma AloneBreaks(programs: seq<seq<Out.Op>>, t: nat) returns (states: seq<Out.State>)
    requires AllProper(programs) && t < |programs| && !OwnTables(Out.AllItems(programs[t]))
    ensures Whole(programs, states) && !Delivered(states)
  {
    hide Chain, AllProper, ProperOps, Out.AllItems, OwnTables, ItemsIn, Delivered, Out.Start;
    var s := Out.Start(programs);
    Starting(programs, t);
    assert programs[t][..|programs[t]|] == programs[t];
    states := Calls(s, t, |programs[t]|);
    assert [] + Out.AllItems(programs[t]) == Out.AllItems(programs[t]);
    EndOfChain(programs, states);
    OutOfOrder(programs, states);
  }

  lemma EndOfChain(programs: seq<seq<Out.Op>>, states: seq<Out.State>)
    requires Chain(states) && states != [] && states[0] == Out.Start(programs) && states[|states| - 1].flight == None
    ensures Whole(programs, states)
  {
    hide Out.Next, Out.Start;
    ChainIsRun(programs, states);
  }

  lemma {:induction false} CallOf(ops: seq<Out.Op>, x: Out.Item) returns (a: nat)
    requires x in Out.AllItems(ops)
    ensures a < |ops| && x in Out.ItemsOf(ops[a])
  {
    hide Out.ItemsOf;
    if x in Out.ItemsOf(ops[0]) {
      a := 0;
    } else {
      a := CallOf(ops[1..], x);
      a := a + 1;
    }
  }

  lemma {:induction false} ItemsSnoc(ops: seq<Out.Op>, b: nat)
    requires b < |ops|
    ensures Out.AllItems(ops[..b + 1]) == Out.AllItems(ops[..b]) + Out.ItemsOf(ops[b])
  {
    hide Out.ItemsOf, Out.AllItems;
    ItemsCons(ops[..b + 1]);
    if b == 0 {
      assert ops[..1][1..] == [] && ops[..0] == [];
      NoItems();
      assert Out.ItemsOf(ops[0]) + [] == [] + Out.ItemsOf(ops[0]);
    } else {
      ItemsCons(ops[..b]);
      ItemsSnoc(ops[1..], b - 1);
      assert ops[..b + 1][1..] == ops[1..][..b] && ops[..b][1..] == ops[1..][..b - 1];
      ItemsRegroup(Out.ItemsOf(ops[0]), Out.AllItems(ops[1..][..b - 1]), Out.ItemsOf(ops[b]));
    }
  }

  lemma {:induction false} OnlyUpdates(es: seq<Entry>)
    ensures forall x <- Out.SendablePrefix(es) :: x.Update?
  {
    hide Out.CanSend;
    if es != [] {
      OnlyUpdates(es[1..]);
    }
  }

  /** A call sends updates only, or one other message. */
  lemma OneKind(op: Out.Op, x: Out.Item)
    requires x in Out.ItemsOf(op)
    ensures if x.Update? then forall y <- Out.ItemsOf(op) :: y.Update? else Out.ItemsOf(op) == [x]
  {
    hide Out.CanSend, Out.SendablePrefix, TableDef.Encode, DefinitionMessage, SwitchMessage;
    match op
    case Push(e) => OnlyUpdates([e]);
    case PushMany(es) => OnlyUpdates(es);
    case _ =>
  }

  lemma {:induction false} LatestPast(items: seq<Out.Item>, updates: seq<Out.Item>)
    requires forall x <- updates :: x.Update?
    ensures LatestIn(items + updates) == LatestIn(items)
  {
    hide LatestIn, ParseDef, IsDefinition;
    if updates == [] {
      assert items + [] == items;
    } else {
      var n := |updates| - 1;
      assert items + updates == items + updates[..n] + [updates[n]];
      assert updates[n] in updates && TableOf(updates[n]) == None;
      ItemsStep(items + updates[..n], updates[n]);
      LatestPast(items, updates[..n]);
    }
  }

  /** An update right behind a foreign definition, apart from updates of its own call. */
  lemma BehindForeign(before: seq<Out.Item>, y: Out.Item, call: seq<Out.Item>, x: Out.Item)
    requires x.Update? && x in call && (forall z <- call :: z.Update?)
    requires TableOf(y).Some? && TableOf(y) != Some(x.e.table)
    ensures !OwnTables(before + [y] + call)
  {
    hide TableOf, LatestIn;
    var q :| 0 <= q < |call| && call[q] == x;
    var head := before + [y];
    var all := head + call;
    assert all[|head| + q] == x && all[..|head| + q] == head + call[..q];
    LatestPast(head, call[..q]);
    ItemsStep(before, y);
  }

  /** The calls of t up to that of an update, then u's definition, then the update. */
  lemma ForeignRun(programs: seq<seq<Out.Op>>, t: nat, u: nat, a: nat, b: nat) returns (states: seq<Out.State>)
    requires AllProper(programs) && t < |programs| && u < |programs| && t != u && a < |programs[t]| && b < |programs[u]|
    ensures Whole(programs, states)
    ensures ItemsIn(states[|states| - 1].log) ==
            Out.AllItems(programs[t][..a]) + Out.AllItems(programs[u][..b + 1]) + Out.ItemsOf(programs[t][a])
  {
    hide Chain, AllProper, ProperOps, Out.AllItems, Out.ItemsOf, ItemsIn, Out.Start;
    var s := Out.Start(programs);
    Starting(programs, t);
    Starting(programs, u);
    var first := Calls(s, t, a);
    var s1 := first[|first| - 1];
    var second := Calls(s1, u, b + 1);
    var s2 := second[|second| - 1];
    var rest := programs[t][a..];
    assert s2.threads[t] == Out.Thread(rest, []);
    TailProper(programs[t], a);
    var third := Calls(s2, t, 1);
    Linked(first, second);
    Linked(first + second[1..], third);
    states := first + second[1..] + third[1..];
    EndOfChain(programs, states);
    OneCall(rest);
    assert [] + Out.AllItems(programs[t][..a]) == Out.AllItems(programs[t][..a]);
  }

  lemma TailProper(ops: seq<Out.Op>, a: nat)
    requires ProperOps(ops) && a < |ops|
    ensures ProperOps(ops[a..]) && ops[a..] != [] && ops[a..][0] == ops[a]
  {
    hide Proper;
    assert forall o <- ops[a..] :: o in ops;
  }

  lemma OneCall(ops: seq<Out.Op>)
    requires ops != []
    ensures Out.AllItems(ops[..1]) == Out.ItemsOf(ops[0])
  {
    hide Out.ItemsOf, Out.AllItems;
    ItemsSnoc(ops, 0);
    NoItems();
    assert ops[..0] == [] && [] + Out.ItemsOf(ops[0]) == Out.ItemsOf(ops[0]);
  }

  /** A definition of u comes between t's own one and an entry of t. */
  lemma ForeignBreaks(programs: seq<seq<Out.Op>>, t: nat, u: nat, x: Out.Item, y: Out.Item) returns (states: seq<Out.State>)
    requires AllProper(programs) && t < |programs| && u < |programs| && t != u
    requires x in Out.AllItems(programs[t]) && x.Update? && y in Out.AllItems(programs[u])
    requires TableOf(y).Some? && TableOf(y) != Some(x.e.table)
    ensures Whole(programs, states) && !Delivered(states)
  {
    hide AllProper, ProperOps, Out.AllItems, Out.ItemsOf, ItemsIn, Whole, Delivered, OwnTables, ParseDef, IsDefinition;
    var a := CallOf(programs[t], x);
    var b := CallOf(programs[u], y);
    OneKind(programs[t][a], x);
    OneKind(programs[u][b], y);
    states := ForeignRun(programs, t, u, a, b);
    ItemsSnoc(programs[u], b);
    var mine, theirs, call := Out.AllItems(programs[t][..a]), Out.AllItems(programs[u][..b]), Out.ItemsOf(programs[t][a]);
    ItemsRegroup(mine, theirs, [y]);
    BehindForeign(mine + theirs, y, call, x);
    OutOfOrder(programs, states);
  }

  ghost predicate AlwaysDelivers(programs: seq<seq<Out.Op>>) {
    forall states: seq<Out.State> :: Whole(programs, states) ==> Delivered(states)
  }

  /**
   * Proper senders of which every interleaving, at every moment between two messages, has delivered
   * exactly the entries on the stream: those that define the table of their entries themselves and
   * in whose entries' tables all definitions of the others agree.
   */
  lemma AlwaysDeliversIff(programs: seq<seq<Out.Op>>)
    requires AllProper(programs)
    ensures AlwaysDelivers(programs) <==> Compatible(programs)
  {
    hide AllProper, Whole, Delivered, OwnTables, Undisturbed, Out.AllItems;
    if Compatible(programs) {
      forall states: seq<Out.State> | Whole(programs, states)
        ensures Delivered(states)
      {
        CompatibleDelivers(programs, states);
      }
    } else if t :| 0 <= t < |programs| && !OwnTables(Out.AllItems(programs[t])) {
      var states := AloneBreaks(programs, t);
    } else {
      var t, u :| 0 <= t < |programs| && 0 <= u < |programs| && t != u && !Undisturbed(Out.AllItems(programs[t]), Out.AllItems(programs[u]));
      var x, y := Disturbance(Out.AllItems(programs[t]), Out.AllItems(programs[u]));
      var states := ForeignBreaks(programs, t, u, x, y);
    }
  }

  lemma Disturbance(items: seq<Out.Item>, others: seq<Out.Item>) returns (x: Out.Item, y: Out.Item)
    requires !Undisturbed(items, others)
    ensures x in items && y in others && x.Update? && TableOf(y).Some? && TableOf(y) != Some(x.e.table)
  {
    hide TableOf;
    x, y :| x in items && y in others && x.Update? && TableOf(y).Some? && TableOf(y) != Some(x.e.table);
  }
}
