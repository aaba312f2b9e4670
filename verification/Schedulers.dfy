/**
 * Serve loops and worker goroutines around the bounded queue and the frame pool, statement by
 * statement (spop/scheduler.go, spop/protocol.go, spop/frame.go, spop/agent.go). A step is one
 * statement of one goroutine; any number of readers and workers take steps in any order.
 */
module Schedulers {
  import opened Common
  import opened Queues
  import Frames
  import SpopSession

  /** A frame, by the order in which the pool made it. */
  type Frame = nat

  /**
   * Where a goroutine is. The second line is Put for a reader and Get for a worker: Enlisted is
   * inside Wait, in the condition's list and still with the lock; Woken has been signalled and
   * wants the lock back. Crashed is a Serve loop that ended in a panic of readFrom.
   */
  datatype Pc = Top | Reading | Handling | Answering | Finishing | Stopped | Crashed
              | Locking | Testing | Enlisted | Asleep | Woken | Acting | Signalling | Unlocking

  /**
   * A goroutine with the frame it works on and the second one it answers with; a reader also has
   * its connection's input and its limit. hello is set by an acceptable hello.
   */
  datatype Thread = Thread(
    isWorker: bool, pc: Pc, hello: bool, input: bytes, limit: u32, frame: Option<Frame>, spare: Option<Frame>)

  /**
   * gone holds what the pool has let go of and lost what a panic has left with nobody; puts and
   * gets log what went in and what came out.
   */
  datatype State = State(
    ts: seq<Thread>, ring: Ring<Frame>, lock: Option<nat>, notFull: seq<nat>, notEmpty: seq<nat>,
    pool: seq<Frame>, made: nat, gone: seq<Frame>, lost: seq<Frame>, puts: seq<Frame>, gets: seq<Frame>)

  /** from is a place in the pool, or None when the pool makes a new frame. */
  datatype Action = AcquireFrame(from: Option<nat>) | ReadFails | ReadPanics | ReadHello | AcquireSpare(from: Option<nat>)
                  | ReleaseSpare | SkipAnswer | ReleaseFrame(ok: bool)
                  | Call | Lock | Test | Sleep | Act | Signal | Unlock

  /** One reader for each connection, by its input. */
  function Initial(inputs: seq<bytes>, workers: nat, cap: nat): State {
    State(seq(|inputs| + workers, i requires 0 <= i < |inputs| + workers =>
            Thread(i >= |inputs|, Top, false, if i < |inputs| then inputs[i] else [], Frames.INITIAL_LIMIT, None, None)),
          Ring(seq(cap, _ => 0), 0, 0, 0), None, [], [], [], 0, [], [], [], [])
  }

  /** What readFrom finds on the reader's connection. */
  function Arriving(t: Thread): Frames.FrameRead {
    Frames.ReadFrame(t.input, t.limit)
  }

  /** A frame that the Serve loop goes on with: any one behind the hello, and a hello before it. */
  predicate Serves(t: Thread) {
    Arriving(t).GotFrame? && (t.hello || Arriving(t).f.frameType == Frames.HAPROXY_HELLO)
  }

  function AfterRead(t: Thread): (r: Thread)
    ensures r == t.(input := r.input)
  {
    if Arriving(t).GotFrame? then t.(input := Arriving(t).rest) else t
  }

  /** What a hello leaves behind. */
  function Greeted(t: Thread): (r: Thread)
    ensures r == t.(input := r.input, limit := r.limit, hello := r.hello)
  {
    if Arriving(t).GotFrame? then
      var content := Arriving(t).f.content;
      AfterRead(t).(hello := SpopSession.HelloAccepted(content), limit := SpopSession.HelloSettings(content).maxFrameSize)
    else t
  }

  // ---------- steps ----------

  predicate Enabled(s: State, i: nat, a: Action) {
    i < |s.ts| &&
    var t := s.ts[i];
    match a
    case AcquireFrame(from) => !t.isWorker && t.pc == Top && (from.Some? ==> from.value < |s.pool|)
    case ReadFails => t.pc == Reading && t.frame.Some? && !Arriving(t).FramePanic? && !Serves(t)
    case ReadPanics => t.pc == Reading && t.frame.Some? && Arriving(t).FramePanic?
    case ReadHello => t.pc == Reading && !t.hello && Serves(t)
    case AcquireSpare(from) => t.pc == Handling && (from.Some? ==> from.value < |s.pool|)
    case ReleaseSpare => t.pc == Answering && t.spare.Some?
    case SkipAnswer => t.pc == Handling
    case ReleaseFrame(ok) => t.pc == Finishing && t.frame.Some? && (ok ==> t.isWorker || t.hello)
    case Call => if t.isWorker then t.pc == Top else t.pc == Reading && t.hello && Serves(t)
    case Lock => (t.pc == Locking || t.pc == Woken) && s.lock == None
    case Test => t.pc == Testing
    case Sleep => t.pc == Enlisted
    case Act => t.pc == Acting && s.ring.Valid() && if t.isWorker then s.ring.size > 0 else !s.ring.Full() && t.frame.Some?
    case Signal => t.pc == Signalling && (Waiters(s, t) != [] ==> Waiters(s, t)[0] < |s.ts|)
    case Unlock => t.pc == Unlocking
  }

  /** The list that a goroutine signals. */
  function Waiters(s: State, t: Thread): seq<nat> {
    if t.isWorker then s.notFull else s.notEmpty
  }

  function At(s: State, i: nat, t: Thread): State
    requires i < |s.ts|
  {
    s.(ts := s.ts[i := t])
  }

  /** acquireFrame */
  function Acquired(s: State, from: Option<nat>): (r: (State, Frame))
    requires from.Some? ==> from.value < |s.pool|
    ensures r.0 == s.(pool := r.0.pool, made := r.0.made)
  {
    if from.Some? then (s.(pool := s.pool[..from.value] + s.pool[from.value + 1..]), s.pool[from.value])
    else (s.(made := s.made + 1), s.made)
  }

  function After(s: State, i: nat, a: Action): State
    requires Enabled(s, i, a)
  {
    var t := s.ts[i];
    match a
    case AcquireFrame(from) => var (n, f) := Acquired(s, from); At(n, i, t.(pc := Reading, frame := Some(f)))
    case ReadFails => At(s.(pool := s.pool + [t.frame.value]), i, t.(pc := Stopped, frame := None))
    case ReadPanics => At(s.(lost := s.lost + [t.frame.value]), i, t.(pc := Crashed, frame := None))
    case ReadHello => At(s, i, Greeted(t).(pc := Handling))
    case AcquireSpare(from) => var (n, f) := Acquired(s, from); At(n, i, t.(pc := Answering, spare := Some(f)))
    case ReleaseSpare => At(s.(pool := s.pool + [t.spare.value]), i, t.(pc := Finishing, spare := None))
    case SkipAnswer => At(s, i, t.(pc := Finishing))
    case ReleaseFrame(ok) =>
      At(s.(pool := s.pool + [t.frame.value]), i, t.(pc := if t.isWorker || ok then Top else Stopped, frame := None))
    case Call => At(s, i, (if t.isWorker then t else AfterRead(t)).(pc := Locking))
    case Lock => At(s.(lock := Some(i)), i, t.(pc := Testing))
    case Test => Tested(s, i)
    case Sleep => At(s.(lock := None), i, t.(pc := Asleep))
    case Act =>
      if t.isWorker then
        var f := s.ring.First();
        At(s.(ring := s.ring.Get(), gets := s.gets + [f]), i, t.(pc := Signalling, frame := Some(f)))
      else
        var f := t.frame.value;
        At(s.(ring := s.ring.Put(f), puts := s.puts + [f]), i, t.(pc := Signalling, frame := None))
    case Signal => Signalled(s, i)
    case Unlock => At(s.(lock := None), i, t.(pc := if t.isWorker then Handling else Top))
  }

  /** The test of the wait loop: Wait takes a place in the condition's list before it gives up the lock. */
  function Tested(s: State, i: nat): State
    requires i < |s.ts|
  {
    var t := s.ts[i];
    if t.isWorker && s.ring.size == 0 then At(s.(notEmpty := s.notEmpty + [i]), i, t.(pc := Enlisted))
    else if !t.isWorker && s.ring.Full() then At(s.(notFull := s.notFull + [i]), i, t.(pc := Enlisted))
    else At(s, i, t.(pc := Acting))
  }

  /** Signal wakes the longest waiter of the other side, if there is one. */
  function Signalled(s: State, i: nat): State
    requires i < |s.ts|
    requires Waiters(s, s.ts[i]) != [] ==> Waiters(s, s.ts[i])[0] < |s.ts|
  {
    var t, waiters := s.ts[i], Waiters(s, s.ts[i]);
    var n := At(s, i, t.(pc := Unlocking));
    if waiters == [] then n
    else if t.isWorker then Wake(n.(notFull := waiters[1..]), waiters[0])
    else Wake(n.(notEmpty := waiters[1..]), waiters[0])
  }

  function Wake(s: State, j: nat): State
    requires j < |s.ts|
  {
    At(s, j, s.ts[j].(pc := Woken))
  }

  /** The garbage collector may empty the pool. */
  predicate Dropped(s: State, n: State, k: nat) {
    k < |s.pool| && n == s.(pool := s.pool[..k] + s.pool[k + 1..], gone := s.gone + [s.pool[k]])
  }

  ghost predicate Next(s: State, n: State) {
    || (exists i, a :: Enabled(s, i, a) && n == After(s, i, a))
    || (exists k :: Dropped(s, n, k))
  }

  ghost predicate IsRun(states: seq<State>, inputs: seq<bytes>, workers: nat, cap: nat) {
    && states != [] && states[0] == Initial(inputs, workers, cap)
    && forall k :: 0 < k < |states| ==> Next(states[k - 1], states[k])
  }

  // ---------- the lock and the condition lists ----------

  predicate Holds(pc: Pc) {
    pc in {Testing, Enlisted, Acting, Signalling, Unlocking}
  }

  predicate Listed(pc: Pc) {
    pc == Enlisted || pc == Asleep
  }

  /** The lock is held by the one goroutine that is past Lock. */
  predicate LockInv(s: State) {
    && (s.lock.Some? ==> s.lock.value < |s.ts| && Holds(s.ts[s.lock.value].pc))
    && forall i :: 0 <= i < |s.ts| && Holds(s.ts[i].pc) ==> s.lock == Some(i)
  }

  predicate ListInv(ts: seq<Thread>, list: seq<nat>, isWorker: bool) {
    && (forall x <- list :: x < |ts| && ts[x].isWorker == isWorker && Listed(ts[x].pc))
    && (forall i :: 0 <= i < |ts| && ts[i].isWorker == isWorker && Listed(ts[i].pc) ==> i in list)
    && (forall j, k :: 0 <= j < k < |list| ==> list[j] != list[k])
  }

  predicate ListsInv(s: State) {
    ListInv(s.ts, s.notFull, false) && ListInv(s.ts, s.notEmpty, true)
  }

  /** How many readers or workers have been signalled and are not back in yet. */
  function WokenUp(ts: seq<Thread>, isWorker: bool): nat {
    if ts == [] then 0
    else WokenUp(ts[..|ts| - 1], isWorker) + One(ts[|ts| - 1], isWorker)
  }

  function One(t: Thread, isWorker: bool): nat {
    if t.isWorker == isWorker && t.pc == Woken then 1 else 0
  }

  /** The lock holder will still use one element or one slot, or signal that there is one. */
  function Pending(s: State, isWorker: bool): nat {
    if s.lock.Some? && s.lock.value < |s.ts| then
      var t := s.ts[s.lock.value];
      if (if t.isWorker == isWorker then t.pc in {Testing, Acting} else t.pc == Signalling) then 1 else 0
    else 0
  }

  /** While anyone sleeps, everything they could use is accounted for by someone awake. */
  predicate WakeInv(s: State) {
    && s.ring.Valid()
    && (s.notEmpty != [] ==> s.ring.size <= WokenUp(s.ts, true) + Pending(s, true))
    && (s.notFull != [] ==> |s.ring.elems| - s.ring.size <= WokenUp(s.ts, false) + Pending(s, false))
    && forall i :: 0 <= i < |s.ts| && s.ts[i].pc == Acting ==> if s.ts[i].isWorker then s.ring.size > 0 else !s.ring.Full()
  }

  /** The queue refines a log: what went in is what came out and then what is in it. */
  predicate LogInv(s: State) {
    s.ring.Valid() && s.puts == s.gets + s.ring.Contents()
  }

  // ---------- who owns which frame ----------

  predicate HasFrame(t: Thread) {
    if t.isWorker then t.pc in {Handling, Answering, Finishing, Signalling, Unlocking}
    else t.pc !in {Top, Stopped, Crashed, Signalling, Unlocking}
  }

  predicate HandsInv(ts: seq<Thread>) {
    forall i :: 0 <= i < |ts| ==> InHand(ts[i])
  }

  predicate InHand(t: Thread) {
    && (t.frame.Some? <==> HasFrame(t)) && (t.spare.Some? <==> t.pc == Answering)
    && (t.isWorker ==> t.pc != Stopped && t.pc != Crashed && t.pc != Reading)
  }

  function Of(t: Thread): multiset<Frame> {
    (if t.frame.Some? then multiset{t.frame.value} else multiset{}) + if t.spare.Some? then multiset{t.spare.value} else multiset{}
  }

  function Hands(ts: seq<Thread>): multiset<Frame> {
    if ts == [] then multiset{} else Hands(ts[..|ts| - 1]) + Of(ts[|ts| - 1])
  }

  /** Frames outside the hands of goroutines. */
  function Elsewhere(s: State): multiset<Frame>
    requires s.ring.Valid()
  {
    multiset(s.pool) + multiset(s.gone) + multiset(s.lost) + multiset(s.ring.Contents())
  }

  /** Every place a frame can be in, with repetitions. */
  function Places(s: State): multiset<Frame>
    requires s.ring.Valid()
  {
    Elsewhere(s) + Hands(s.ts)
  }

  /** Each of the first n frames once. */
  function Once(n: nat): multiset<Frame> {
    if n == 0 then multiset{} else Once(n - 1) + multiset{n - 1}
  }

  lemma {:induction false} OnceCounts(n: nat, f: Frame)
    ensures Once(n)[f] == if f < n then 1 else 0
  {
    if n > 0 {
      OnceCounts(n - 1, f);
    }
  }

  /** No frame is in two places, and every one is in some place. */
  predicate OwnInv(s: State) {
    s.ring.Valid() && Places(s) == Once(s.made)
  }

  /** Serve loops that ended in a panic of readFrom. */
  function Crashes(ts: seq<Thread>): nat {
    if ts == [] then 0 else Crashes(ts[..|ts| - 1]) + if ts[|ts| - 1].pc == Crashed then 1 else 0
  }

  /** Every lost frame is the work of one such loop, and on its connection a frame was too short. */
  predicate LostInv(s: State) {
    && |s.lost| == Crashes(s.ts)
    && forall i :: 0 <= i < |s.ts| && s.ts[i].pc == Crashed ==> Arriving(s.ts[i]).FramePanic?
  }

  /** What the lock and the conditions keep. */
  predicate MonitorInv(s: State) {
    LockInv(s) && ListsInv(s) && WakeInv(s) && LogInv(s)
  }

  predicate Inv(s: State) {
    MonitorInv(s) && HandsInv(s.ts) && OwnInv(s) && LostInv(s)
  }

  // ---------- one goroutine changes ----------

  lemma {:induction false} WokenUpdate(ts: seq<Thread>, i: nat, t: Thread, isWorker: bool)
    requires i < |ts|
    ensures WokenUp(ts[i := t], isWorker) + One(ts[i], isWorker) == WokenUp(ts, isWorker) + One(t, isWorker)
  {
    hide One;
    var last := |ts| - 1;
    if i < last {
      assert ts[i := t][..last] == ts[..last][i := t];
      WokenUpdate(ts[..last], i, t, isWorker);
    } else {
      assert ts[i := t][..last] == ts[..last];
    }
  }

  lemma Swapped(a: multiset<Frame>, b: multiset<Frame>, c: multiset<Frame>)
    ensures a + b + c == a + c + b
  {
  }

  lemma {:induction false} HandsUpdate(ts: seq<Thread>, i: nat, t: Thread)
    requires i < |ts|
    ensures Hands(ts[i := t]) + Of(ts[i]) == Hands(ts) + Of(t)
  {
    hide Of;
    var last := |ts| - 1;
    var ends := Of(ts[last]);
    if i < last {
      assert ts[i := t][..last] == ts[..last][i := t];
      HandsUpdate(ts[..last], i, t);
      Swapped(Hands(ts[..last][i := t]), ends, Of(ts[i]));
      Swapped(Hands(ts[..last]), ends, Of(t));
    } else {
      assert ts[i := t][..last] == ts[..last];
      Swapped(Hands(ts[..last]), ends, Of(t));
    }
  }

  lemma ListStays(ts: seq<Thread>, list: seq<nat>, isWorker: bool, i: nat, t: Thread)
    requires ListInv(ts, list, isWorker) && i < |ts|
    requires t.isWorker == ts[i].isWorker && Listed(t.pc) == Listed(ts[i].pc)
    ensures ListInv(ts[i := t], list, isWorker)
  {
    hide Listed;
  }

  lemma ListJoined(ts: seq<Thread>, list: seq<nat>, isWorker: bool, i: nat, t: Thread)
    requires ListInv(ts, list, isWorker) && i < |ts|
    requires t.isWorker == ts[i].isWorker && !Listed(ts[i].pc) && Listed(t.pc)
    ensures ListInv(ts[i := t], if t.isWorker == isWorker then list + [i] else list, isWorker)
  {
    hide Listed;
  }

  lemma ListLeft(ts: seq<Thread>, list: seq<nat>, isWorker: bool, t: Thread)
    requires list != [] && ListInv(ts, list, isWorker)
    requires t.isWorker == isWorker && !Listed(t.pc)
    ensures list[0] < |ts| && ListInv(ts[list[0] := t], list[1..], isWorker)
  {
    hide Listed;
    assert list[0] in list && forall x <- list[1..] :: x in list && x != list[0];
    forall k | 0 <= k < |ts| && ts[list[0] := t][k].isWorker == isWorker && Listed(ts[list[0] := t][k].pc)
      ensures k in list[1..]
    {
      assert k in list;
    }
  }

  lemma ListOther(ts: seq<Thread>, list: seq<nat>, isWorker: bool, i: nat, t: Thread)
    requires ListInv(ts, list, isWorker) && i < |ts|
    requires t.isWorker == ts[i].isWorker && t.isWorker != isWorker
    ensures ListInv(ts[i := t], list, isWorker)
  {
    hide Listed;
  }

  /** A step outside Put and Get, or into it. */
  lemma QuietKeeps(s: State, n: State, i: nat, t: Thread)
    requires MonitorInv(s) && i < |s.ts| && t.isWorker == s.ts[i].isWorker
    requires n == s.(ts := s.ts[i := t], pool := n.pool, made := n.made, gone := n.gone, lost := n.lost)
    requires !Holds(t.pc) && !Listed(t.pc) && t.pc != Woken
    requires !Holds(s.ts[i].pc) && !Listed(s.ts[i].pc) && s.ts[i].pc != Woken
    ensures MonitorInv(n)
  {
    hide ListInv, WokenUp, Ring.Valid, Ring.Contents;
    ListStays(s.ts, s.notFull, false, i, t);
    ListStays(s.ts, s.notEmpty, true, i, t);
    WokenUpdate(s.ts, i, t, true);
    WokenUpdate(s.ts, i, t, false);
  }

  lemma LockKeeps(s: State, i: nat)
    requires MonitorInv(s) && Enabled(s, i, Lock)
    ensures MonitorInv(After(s, i, Lock))
  {
    hide ListInv, WokenUp, Ring.Valid, Ring.Contents, LostInv, Arriving, Serves, AfterRead, Greeted;
    var t := s.ts[i].(pc := Testing);
    ListStays(s.ts, s.notFull, false, i, t);
    ListStays(s.ts, s.notEmpty, true, i, t);
    WokenUpdate(s.ts, i, t, true);
    WokenUpdate(s.ts, i, t, false);
  }

  lemma TestKeeps(s: State, i: nat)
    requires MonitorInv(s) && Enabled(s, i, Test)
    ensures MonitorInv(After(s, i, Test))
  {
    hide ListInv, WokenUp, Ring.Contents, LostInv, Arriving, Serves, AfterRead, Greeted;
    var n := After(s, i, Test);
    var t := n.ts[i];
    if t.pc == Enlisted {
      ListJoined(s.ts, s.notFull, false, i, t);
      ListJoined(s.ts, s.notEmpty, true, i, t);
    } else {
      ListStays(s.ts, s.notFull, false, i, t);
      ListStays(s.ts, s.notEmpty, true, i, t);
    }
    WokenUpdate(s.ts, i, t, true);
    WokenUpdate(s.ts, i, t, false);
  }

  lemma SleepKeeps(s: State, i: nat)
    requires MonitorInv(s) && Enabled(s, i, Sleep)
    ensures MonitorInv(After(s, i, Sleep))
  {
    hide ListInv, WokenUp, Ring.Valid, Ring.Contents, LostInv, Arriving, Serves, AfterRead, Greeted;
    var t := s.ts[i].(pc := Asleep);
    ListStays(s.ts, s.notFull, false, i, t);
    ListStays(s.ts, s.notEmpty, true, i, t);
    WokenUpdate(s.ts, i, t, true);
    WokenUpdate(s.ts, i, t, false);
  }

  lemma UnlockKeeps(s: State, i: nat)
    requires MonitorInv(s) && Enabled(s, i, Unlock)
    ensures MonitorInv(After(s, i, Unlock))
  {
    hide ListInv, WokenUp, Ring.Valid, Ring.Contents, LostInv, Arriving, Serves, AfterRead, Greeted;
    var t := After(s, i, Unlock).ts[i];
    ListStays(s.ts, s.notFull, false, i, t);
    ListStays(s.ts, s.notEmpty, true, i, t);
    WokenUpdate(s.ts, i, t, true);
    WokenUpdate(s.ts, i, t, false);
  }

  lemma ActKeeps(s: State, i: nat)
    requires MonitorInv(s) && Enabled(s, i, Act)
    ensures MonitorInv(After(s, i, Act))
  {
    hide ListInv, WokenUp, LogInv, Ring.Contents, Ring.Valid, Ring.Put, Ring.Get, LostInv, Arriving, Serves, AfterRead, Greeted;
    var t := After(s, i, Act).ts[i];
    ActLogged(s, i);
    ListStays(s.ts, s.notFull, false, i, t);
    ListStays(s.ts, s.notEmpty, true, i, t);
    WokenUpdate(s.ts, i, t, true);
    WokenUpdate(s.ts, i, t, false);
  }

  lemma ActLogged(s: State, i: nat)
    requires LogInv(s) && Enabled(s, i, Act)
    ensures After(s, i, Act).ring.Valid() && LogInv(After(s, i, Act))
    ensures |After(s, i, Act).ring.elems| == |s.ring.elems|
    ensures After(s, i, Act).ring.size == if s.ts[i].isWorker then s.ring.size - 1 else s.ring.size + 1
  {
    hide Ring.Contents;
    var n := After(s, i, Act);
    if s.ts[i].isWorker {
      GetContents(s.ring);
      assert s.gets + ([s.ring.First()] + n.ring.Contents()) == n.gets + n.ring.Contents();
    } else {
      PutContents(s.ring, s.ts[i].frame.value);
    }
  }

  lemma SignalKeeps(s: State, i: nat)
    requires MonitorInv(s) && Enabled(s, i, Signal)
    ensures MonitorInv(After(s, i, Signal))
  {
    hide Enabled, After, LockInv, ListsInv, WakeInv, LogInv;
    SignalLists(s, i);
    SignalWakes(s, i);
  }

  /** The woken goroutine leaves its list, and nothing else changes in either. */
  lemma SignalLists(s: State, i: nat)
    requires MonitorInv(s) && Enabled(s, i, Signal)
    ensures ListsInv(After(s, i, Signal))
  {
    hide ListInv, LockInv, WakeInv, LogInv, Arriving, Serves, AfterRead, Greeted;
    var t := s.ts[i].(pc := Unlocking);
    var ts := s.ts[i := t];
    ListStays(s.ts, s.notFull, false, i, t);
    ListStays(s.ts, s.notEmpty, true, i, t);
    var waiters := Waiters(s, t);
    if waiters != [] {
      HeadListed(ts, waiters, !t.isWorker);
      var w := ts[waiters[0]].(pc := Woken);
      ListLeft(ts, waiters, !t.isWorker, w);
      ListOther(ts, Waiters(s, w), t.isWorker, waiters[0], w);
    }
  }

  /** The signal that was pending turns into a woken goroutine, if anyone waits. */
  lemma SignalWakes(s: State, i: nat)
    requires MonitorInv(s) && Enabled(s, i, Signal)
    ensures var n := After(s, i, Signal); LockInv(n) && WakeInv(n) && LogInv(n)
  {
    hide ListInv, WokenUp, Ring.Valid, Ring.Contents, Arriving, Serves, AfterRead, Greeted;
    var t := s.ts[i].(pc := Unlocking);
    var ts := s.ts[i := t];
    WokenUpdate(s.ts, i, t, true);
    WokenUpdate(s.ts, i, t, false);
    var waiters := Waiters(s, t);
    if waiters != [] {
      HeadListed(s.ts, waiters, !t.isWorker);
      var w := ts[waiters[0]].(pc := Woken);
      WokenUpdate(ts, waiters[0], w, true);
      WokenUpdate(ts, waiters[0], w, false);
    }
  }

  lemma HeadListed(ts: seq<Thread>, list: seq<nat>, isWorker: bool)
    requires list != [] && ListInv(ts, list, isWorker)
    ensures list[0] < |ts| && ts[list[0]].isWorker == isWorker && Listed(ts[list[0]].pc)
  {
  }

  // ---------- frames change places ----------

  /** Goroutine i takes frame f from elsewhere, gives it away, or gets a new one; or nothing moves. */
  lemma OneTakes(s: State, n: State, i: nat, f: Frame)
    requires OwnInv(s) && i < |s.ts| && |n.ts| == |s.ts| && n.ts == s.ts[i := n.ts[i]] && n.ring.Valid() && n.made == s.made
    requires Of(n.ts[i]) == Of(s.ts[i]) + multiset{f} && Elsewhere(s) == Elsewhere(n) + multiset{f}
    ensures OwnInv(n)
  {
    hide Hands, Of, Once, Ring.Valid, Elsewhere;
    HandsUpdate(s.ts, i, n.ts[i]);
    Balance(Elsewhere(s), Hands(s.ts), Of(s.ts[i]), Elsewhere(n), Hands(n.ts), Of(n.ts[i]), multiset{f}, multiset{});
  }

  lemma OneGives(s: State, n: State, i: nat, f: Frame)
    requires OwnInv(s) && i < |s.ts| && |n.ts| == |s.ts| && n.ts == s.ts[i := n.ts[i]] && n.ring.Valid() && n.made == s.made
    requires Of(s.ts[i]) == Of(n.ts[i]) + multiset{f} && Elsewhere(n) == Elsewhere(s) + multiset{f}
    ensures OwnInv(n)
  {
    hide Hands, Of, Once, Ring.Valid, Elsewhere;
    HandsUpdate(s.ts, i, n.ts[i]);
    Balance(Elsewhere(s), Hands(s.ts), Of(s.ts[i]), Elsewhere(n), Hands(n.ts), Of(n.ts[i]), multiset{}, multiset{f});
  }

  lemma OneStays(s: State, n: State, i: nat)
    requires OwnInv(s) && i < |s.ts| && |n.ts| == |s.ts| && n.ts == s.ts[i := n.ts[i]]
    requires n == s.(ts := n.ts, lock := n.lock, notFull := n.notFull, notEmpty := n.notEmpty) && Of(n.ts[i]) == Of(s.ts[i])
    ensures OwnInv(n)
  {
    hide Hands, Of, Once, Ring.Valid, Ring.Contents;
    HandsUpdate(s.ts, i, n.ts[i]);
    Balance(Elsewhere(s), Hands(s.ts), Of(s.ts[i]), Elsewhere(n), Hands(n.ts), Of(n.ts[i]), multiset{}, multiset{});
  }

  lemma OneMakes(s: State, n: State, i: nat)
    requires OwnInv(s) && i < |s.ts| && |n.ts| == |s.ts| && n == s.(ts := s.ts[i := n.ts[i]], made := s.made + 1)
    requires Of(n.ts[i]) == Of(s.ts[i]) + multiset{s.made}
    ensures OwnInv(n)
  {
    hide Hands, Of, Ring.Valid, Ring.Contents;
    HandsUpdate(s.ts, i, n.ts[i]);
    Balance(Elsewhere(s), Hands(s.ts), Of(s.ts[i]), Elsewhere(n), Hands(n.ts), Of(n.ts[i]), multiset{s.made}, multiset{});
    OneMore(Elsewhere(s), Hands(s.ts), Once(s.made), Hands(n.ts), s.made);
  }

  lemma OneMore(e: multiset<Frame>, h: multiset<Frame>, all: multiset<Frame>, h': multiset<Frame>, f: Frame)
    requires e + h == all && h' + multiset{} == h + multiset{f}
    ensures e + h' == all + multiset{f}
  {
    forall g: Frame
      ensures (e + h')[g] == (all + multiset{f})[g]
    {
      assert (e + h)[g] == all[g] && (h' + multiset{})[g] == (h + multiset{f})[g];
    }
  }

  /** The hands gain what is taken, everything else gains what is given. */
  lemma Balance(e: multiset<Frame>, h: multiset<Frame>, o: multiset<Frame>,
                e': multiset<Frame>, h': multiset<Frame>, o': multiset<Frame>, taken: multiset<Frame>, given: multiset<Frame>)
    requires h' + o == h + o' && o' + given == o + taken
    ensures h' + given == h + taken
    ensures e' + taken == e + given ==> e' + h' == e + h
  {
    forall f: Frame
      ensures (h' + given)[f] == (h + taken)[f]
      ensures e' + taken == e + given ==> (e' + h')[f] == (e + h)[f]
    {
      assert (h' + o)[f] == (h + o')[f] && (o' + given)[f] == (o + taken)[f];
      if e' + taken == e + given {
        assert (e' + taken)[f] == (e + given)[f];
      }
    }
  }

  lemma PoolMoves(s: State, n: State, f: Frame)
    requires s.ring.Valid() && n.ring == s.ring && n.gone == s.gone && n.lost == s.lost
    ensures multiset(s.pool) == multiset(n.pool) + multiset{f} ==> Elsewhere(s) == Elsewhere(n) + multiset{f}
  {
    hide Ring.Contents, Ring.Valid;
  }

  lemma LostMoves(s: State, n: State, f: Frame)
    requires s.ring.Valid() && n == s.(ts := n.ts, lost := s.lost + [f])
    ensures Elsewhere(n) == Elsewhere(s) + multiset{f}
  {
    hide Ring.Contents, Ring.Valid;
    assert multiset(s.lost + [f]) == multiset(s.lost) + multiset{f};
  }

  lemma QueueMoves(s: State, n: State, f: Frame)
    requires s.ring.Valid() && n.ring.Valid() && n.pool == s.pool && n.gone == s.gone && n.lost == s.lost
    ensures multiset(s.ring.Contents()) == multiset(n.ring.Contents()) + multiset{f} ==> Elsewhere(s) == Elsewhere(n) + multiset{f}
  {
    hide Ring.Contents, Ring.Valid;
  }

  lemma InHands(t: Thread, f: Frame)
    ensures t.frame.None? ==> Of(t.(frame := Some(f))) == Of(t) + multiset{f}
    ensures t.spare.None? ==> Of(t.(spare := Some(f))) == Of(t) + multiset{f}
    ensures t.frame == Some(f) ==> Of(t) == Of(t.(frame := None)) + multiset{f}
    ensures t.spare == Some(f) ==> Of(t) == Of(t.(spare := None)) + multiset{f}
  {
  }

  lemma OfIgnores(t: Thread, pc: Pc)
    ensures Of(t.(pc := pc)) == Of(t)
  {
  }

  lemma OnlyFrames(t: Thread, u: Thread)
    requires t.frame == u.frame && t.spare == u.spare
    ensures Of(t) == Of(u)
  {
  }

  lemma TakenOut(q: seq<Frame>, k: nat)
    requires k < |q|
    ensures multiset(q) == multiset(q[..k] + q[k + 1..]) + multiset{q[k]}
  {
    assert q == q[..k] + [q[k]] + q[k + 1..];
  }

  lemma PutIn(q: seq<Frame>, f: Frame)
    ensures multiset(q + [f]) == multiset(q) + multiset{f}
  {
  }

  lemma HandsStay(ts: seq<Thread>, i: nat, t: Thread)
    requires HandsInv(ts) && i < |ts| && InHand(t)
    ensures HandsInv(ts[i := t])
  {
    hide InHand;
  }

  lemma AcquireKeeps(s: State, i: nat, a: Action)
    requires Inv(s) && Enabled(s, i, a) && (a.AcquireFrame? || a.AcquireSpare?)
    ensures OwnInv(After(s, i, a)) && HandsInv(After(s, i, a).ts)
  {
    hide MonitorInv, OwnInv, HandsInv, Hands, Of, Elsewhere, Ring.Valid, LostInv, Arriving, Serves, AfterRead, Greeted;
    ValidRing(s);
    var n := After(s, i, a);
    var f := Acquired(s, a.from).1;
    Hand(s.ts, i);
    HandsStay(s.ts, i, n.ts[i]);
    InHands(s.ts[i].(pc := n.ts[i].pc), f);
    OfIgnores(s.ts[i], n.ts[i].pc);
    AcquiredOwned(s, n, i, a.from);
  }

  lemma AcquiredOwned(s: State, n: State, i: nat, from: Option<nat>)
    requires OwnInv(s) && i < |s.ts| && (from.Some? ==> from.value < |s.pool|)
    requires |n.ts| == |s.ts| && n == Acquired(s, from).0.(ts := s.ts[i := n.ts[i]])
    requires Of(n.ts[i]) == Of(s.ts[i]) + multiset{Acquired(s, from).1}
    ensures OwnInv(n)
  {
    hide OwnInv, Hands, Of, Elsewhere, Ring.Valid;
    RingOf(s);
    if from.Some? {
      TakenOut(s.pool, from.value);
      PoolMoves(s, n, s.pool[from.value]);
      OneTakes(s, n, i, s.pool[from.value]);
    } else {
      OneMakes(s, n, i);
    }
  }

  lemma RingOf(s: State)
    requires OwnInv(s)
    ensures s.ring.Valid()
  {
  }

  lemma Hand(ts: seq<Thread>, i: nat)
    requires HandsInv(ts) && i < |ts|
    ensures InHand(ts[i])
  {
  }

  lemma ValidRing(s: State)
    requires MonitorInv(s)
    ensures s.ring.Valid()
  {
  }

  lemma ReleaseKeeps(s: State, i: nat, a: Action)
    requires Inv(s) && Enabled(s, i, a) && (a.ReadFails? || a.ReleaseSpare? || a.ReleaseFrame?)
    ensures OwnInv(After(s, i, a)) && HandsInv(After(s, i, a).ts)
  {
    hide MonitorInv, OwnInv, HandsInv, Hands, Of, Elsewhere, Ring.Valid, LostInv, Arriving, Serves, AfterRead, Greeted;
    ValidRing(s);
    var n := After(s, i, a);
    var f := n.pool[|s.pool|];
    Hand(s.ts, i);
    HandsStay(s.ts, i, n.ts[i]);
    InHands(s.ts[i].(pc := n.ts[i].pc), f);
    OfIgnores(s.ts[i], n.ts[i].pc);
    PutIn(s.pool, f);
    PoolMoves(n, s, f);
    OneGives(s, n, i, f);
  }

  /** A panic of readFrom leaves its frame with nobody. */
  lemma PanicLoses(s: State, i: nat)
    requires Inv(s) && Enabled(s, i, ReadPanics)
    ensures OwnInv(After(s, i, ReadPanics)) && HandsInv(After(s, i, ReadPanics).ts)
  {
    hide MonitorInv, OwnInv, HandsInv, Hands, Of, Elsewhere, Ring.Valid, Arriving;
    ValidRing(s);
    var n := After(s, i, ReadPanics);
    var f := s.ts[i].frame.value;
    Hand(s.ts, i);
    HandsStay(s.ts, i, n.ts[i]);
    InHands(s.ts[i].(pc := Crashed), f);
    OfIgnores(s.ts[i], Crashed);
    LostMoves(s, n, f);
    OneGives(s, n, i, f);
  }

  lemma ActHandsOver(s: State, i: nat)
    requires Inv(s) && Enabled(s, i, Act)
    ensures OwnInv(After(s, i, Act)) && HandsInv(After(s, i, Act).ts)
  {
    hide MonitorInv, OwnInv, HandsInv, Hands, Of, Elsewhere, Ring.Contents, Ring.Put, Ring.Get, Ring.First, Ring.Valid, LostInv, Arriving, Serves, AfterRead, Greeted;
    ValidRing(s);
    var n := After(s, i, Act);
    Hand(s.ts, i);
    HandsStay(s.ts, i, n.ts[i]);
    OfIgnores(s.ts[i], Signalling);
    if s.ts[i].isWorker {
      var f := s.ring.First();
      GetContents(s.ring);
      InHands(s.ts[i].(pc := Signalling), f);
      FirstOut(f, n.ring.Contents());
      QueueMoves(s, n, f);
      OneTakes(s, n, i, f);
    } else {
      var f := s.ts[i].frame.value;
      PutContents(s.ring, f);
      InHands(s.ts[i].(pc := Signalling), f);
      PutIn(s.ring.Contents(), f);
      QueueMoves(n, s, f);
      OneGives(s, n, i, f);
    }
  }

  lemma FirstOut(f: Frame, q: seq<Frame>)
    ensures multiset([f] + q) == multiset(q) + multiset{f}
  {
  }

  lemma SignalOwns(s: State, i: nat)
    requires Inv(s) && Enabled(s, i, Signal)
    ensures OwnInv(After(s, i, Signal)) && HandsInv(After(s, i, Signal).ts)
  {
    hide ListInv, LockInv, WakeInv, LogInv, OwnInv, HandsInv, Ring.Valid, LostInv, Arriving, Serves, AfterRead, Greeted;
    var t := s.ts[i].(pc := Unlocking);
    var n := At(s, i, t);
    Hand(s.ts, i);
    HandsStay(s.ts, i, t);
    OneStays(s, n, i);
    var waiters := Waiters(s, t);
    if waiters != [] {
      HeadListed(s.ts, waiters, !t.isWorker);
      Hand(n.ts, waiters[0]);
      HandsStay(n.ts, waiters[0], n.ts[waiters[0]].(pc := Woken));
      OneStays(n, After(s, i, Signal), waiters[0]);
    }
  }

  /** Goroutine i keeps the frames it has. */
  lemma FramesStay(s: State, n: State, i: nat)
    requires OwnInv(s) && HandsInv(s.ts) && i < |s.ts| && |n.ts| == |s.ts|
    requires n == s.(ts := s.ts[i := n.ts[i]], lock := n.lock, notFull := n.notFull, notEmpty := n.notEmpty)
    requires n.ts[i].frame == s.ts[i].frame && n.ts[i].spare == s.ts[i].spare && InHand(n.ts[i])
    ensures OwnInv(n) && HandsInv(n.ts)
  {
    hide OwnInv, HandsInv, InHand, Of;
    HandsStay(s.ts, i, n.ts[i]);
    OnlyFrames(n.ts[i], s.ts[i]);
    OneStays(s, n, i);
  }

  /** The other steps leave every frame where it is. */
  lemma StayKeeps(s: State, i: nat, a: Action)
    requires Inv(s) && Enabled(s, i, a)
    requires a.ReadHello? || a.SkipAnswer? || a.Call? || a.Lock? || a.Test? || a.Sleep? || a.Unlock?
    ensures OwnInv(After(s, i, a)) && HandsInv(After(s, i, a).ts)
  {
    hide MonitorInv, OwnInv, HandsInv, LostInv, Enabled, After, InHand;
    if a.Test? || a.Lock? || a.Sleep? || a.Unlock? {
      LockedStays(s, i, a);
    } else {
      OutsideStays(s, i, a);
    }
    FramesStay(s, After(s, i, a), i);
  }

  /** What a step leaves alone that keeps the frames of its goroutine. */
  predicate Stays(s: State, n: State, i: nat) {
    && i < |s.ts| && |n.ts| == |s.ts|
    && n == s.(ts := s.ts[i := n.ts[i]], lock := n.lock, notFull := n.notFull, notEmpty := n.notEmpty)
    && n.ts[i].frame == s.ts[i].frame && n.ts[i].spare == s.ts[i].spare && InHand(n.ts[i])
  }

  lemma LockedStays(s: State, i: nat, a: Action)
    requires HandsInv(s.ts) && Enabled(s, i, a) && (a.Lock? || a.Test? || a.Sleep? || a.Unlock?)
    ensures Stays(s, After(s, i, a), i)
  {
    hide HandsInv, Waiters, Acquired, Ring.Full, Arriving, Serves, AfterRead, Greeted;
    Hand(s.ts, i);
  }

  lemma OutsideStays(s: State, i: nat, a: Action)
    requires HandsInv(s.ts) && Enabled(s, i, a) && (a.ReadHello? || a.SkipAnswer? || a.Call?)
    ensures Stays(s, After(s, i, a), i)
  {
    hide HandsInv, Waiters, Acquired, Ring.Full, Arriving, Serves, AfterRead, Greeted;
    Hand(s.ts, i);
  }

  lemma DropKeeps(s: State, n: State, k: nat)
    requires Inv(s) && Dropped(s, n, k)
    ensures Inv(n)
  {
    hide ListInv, Hands, Once, Ring.Contents, Ring.Valid, WokenUp, Crashes, Arriving;
    TakenOut(s.pool, k);
    PutIn(s.gone, s.pool[k]);
  }

  // ---------- frames that are lost ----------

  lemma {:induction false} CrashesUpdate(ts: seq<Thread>, i: nat, t: Thread)
    requires i < |ts|
    ensures Crashes(ts[i := t]) + (if ts[i].pc == Crashed then 1 else 0) == Crashes(ts) + if t.pc == Crashed then 1 else 0
  {
    var last := |ts| - 1;
    if i < last {
      assert ts[i := t][..last] == ts[..last][i := t];
      CrashesUpdate(ts[..last], i, t);
    } else {
      assert ts[i := t][..last] == ts[..last];
    }
  }

  /** One goroutine that has not crashed changes, and loses nothing. */
  lemma NothingLost(s: State, n: State, i: nat)
    requires LostInv(s) && i < |s.ts| && |n.ts| == |s.ts| && n.ts == s.ts[i := n.ts[i]] && n.lost == s.lost
    requires s.ts[i].pc != Crashed && n.ts[i].pc != Crashed
    ensures LostInv(n)
  {
    hide Arriving, Crashes;
    CrashesUpdate(s.ts, i, n.ts[i]);
  }

  lemma LostKeeps(s: State, i: nat, a: Action)
    requires LostInv(s) && ListsInv(s) && Enabled(s, i, a)
    ensures LostInv(After(s, i, a))
  {
    hide LostInv, Arriving, Serves, AfterRead, Greeted, Ring.Valid, Ring.Full, ListInv;
    var n := After(s, i, a);
    if a.ReadPanics? {
      PanicCounts(s, i);
    } else if a.Signal? {
      SignalLoses(s, i);
    } else {
      NothingLost(s, n, i);
    }
  }

  lemma PanicCounts(s: State, i: nat)
    requires LostInv(s) && Enabled(s, i, ReadPanics)
    ensures LostInv(After(s, i, ReadPanics))
  {
    hide Crashes, Frames.ReadFrame;
    CrashesUpdate(s.ts, i, After(s, i, ReadPanics).ts[i]);
  }

  lemma SignalLoses(s: State, i: nat)
    requires LostInv(s) && ListsInv(s) && Enabled(s, i, Signal)
    ensures LostInv(After(s, i, Signal))
  {
    hide LostInv, Arriving, ListInv;
    var t := s.ts[i].(pc := Unlocking);
    var n := At(s, i, t);
    NothingLost(s, n, i);
    var waiters := Waiters(s, t);
    if waiters != [] {
      HeadListed(s.ts, waiters, !t.isWorker);
      NothingLost(n, After(s, i, Signal), waiters[0]);
    }
  }

  // ---------- runs ----------

  lemma StepKeeps(s: State, i: nat, a: Action)
    requires Inv(s) && Enabled(s, i, a)
    ensures Inv(After(s, i, a))
  {
    hide MonitorInv, OwnInv, HandsInv, LostInv, Enabled, After;
    ListsOf(s);
    LostKeeps(s, i, a);
    match a
    case AcquireFrame(_) => MonitorStep(s, i, a); AcquireKeeps(s, i, a);
    case AcquireSpare(_) => MonitorStep(s, i, a); AcquireKeeps(s, i, a);
    case ReadFails => MonitorStep(s, i, a); ReleaseKeeps(s, i, a);
    case ReadPanics => MonitorStep(s, i, a); PanicLoses(s, i);
    case ReleaseSpare => MonitorStep(s, i, a); ReleaseKeeps(s, i, a);
    case ReleaseFrame(_) => MonitorStep(s, i, a); ReleaseKeeps(s, i, a);
    case Act => ActKeeps(s, i); ActHandsOver(s, i);
    case Signal => SignalKeeps(s, i); SignalOwns(s, i);
    case Lock => LockKeeps(s, i); StayKeeps(s, i, a);
    case Test => TestKeeps(s, i); StayKeeps(s, i, a);
    case Sleep => SleepKeeps(s, i); StayKeeps(s, i, a);
    case Unlock => UnlockKeeps(s, i); StayKeeps(s, i, a);
    case _ => MonitorStep(s, i, a); StayKeeps(s, i, a);
  }

  lemma ListsOf(s: State)
    requires MonitorInv(s)
    ensures ListsInv(s)
  {
  }

  lemma MonitorStep(s: State, i: nat, a: Action)
    requires MonitorInv(s) && Enabled(s, i, a)
    requires !(a.Act? || a.Signal? || a.Lock? || a.Test? || a.Sleep? || a.Unlock?)
    ensures MonitorInv(After(s, i, a))
  {
    hide MonitorInv, Arriving, Serves, AfterRead, Greeted;
    QuietKeeps(s, After(s, i, a), i, After(s, i, a).ts[i]);
  }

  lemma NextKeeps(s: State, n: State)
    requires Inv(s) && Next(s, n)
    ensures Inv(n)
  {
    hide Inv, Enabled, After, Dropped;
    if i, a :| Enabled(s, i, a) && n == After(s, i, a) {
      StepKeeps(s, i, a);
    } else {
      var k :| Dropped(s, n, k);
      DropKeeps(s, n, k);
    }
  }

  lemma {:induction false} AtFirst(ts: seq<Thread>)
    requires forall t <- ts :: t.pc == Top && t.frame == None && t.spare == None
    ensures Hands(ts) == multiset{} && WokenUp(ts, true) == WokenUp(ts, false) == Crashes(ts) == 0
  {
    if ts != [] {
      AtFirst(ts[..|ts| - 1]);
    }
  }

  lemma InitialInv(inputs: seq<bytes>, workers: nat, cap: nat)
    ensures Inv(Initial(inputs, workers, cap))
  {
    hide Hands, WokenUp, Crashes, Arriving;
    AtFirst(Initial(inputs, workers, cap).ts);
  }

  lemma {:induction false} RunInv(states: seq<State>, inputs: seq<bytes>, workers: nat, cap: nat, k: nat)
    requires IsRun(states, inputs, workers, cap) && k < |states|
    ensures Inv(states[k])
  {
    hide Inv, Next, Initial;
    if k == 0 {
      InitialInv(inputs, workers, cap);
    } else {
      RunInv(states, inputs, workers, cap, k - 1);
      NextKeeps(states[k - 1], states[k]);
    }
  }

  // ---------- what holds in every reachable state ----------

  /**
   * No wakeup is lost. Sleeping workers mean that every queued element has a woken worker on its
   * way, counting the lock holder when it is about to take one or to signal; likewise for
   * sleeping readers and free slots.
   */
  lemma NoLostWakeup(states: seq<State>, inputs: seq<bytes>, workers: nat, cap: nat, k: nat)
    requires IsRun(states, inputs, workers, cap) && k < |states|
    ensures var s := states[k];
            && (s.notEmpty != [] ==> s.ring.size <= WokenUp(s.ts, true) + Pending(s, true))
            && (s.notFull != [] ==> |s.ring.elems| - s.ring.size <= WokenUp(s.ts, false) + Pending(s, false))
            && (s.lock == None ==> Pending(s, true) == Pending(s, false) == 0)
  {
    hide IsRun, WokenUp;
    RunInv(states, inputs, workers, cap, k);
  }

  /** A Serve loop that is over. */
  predicate Ended(pc: Pc) {
    pc == Stopped || pc == Crashed
  }

  /** Some worker or reader sleeps, and no other one of its kind is awake. */
  ghost predicate AllAsleep(s: State, isWorker: bool) {
    && (exists i :: 0 <= i < |s.ts| && s.ts[i].isWorker == isWorker && s.ts[i].pc == Asleep)
    && forall i :: 0 <= i < |s.ts| && s.ts[i].isWorker == isWorker ==> s.ts[i].pc == Asleep || Ended(s.ts[i].pc)
  }

  lemma {:induction false} NoneWoken(ts: seq<Thread>, isWorker: bool)
    requires forall i :: 0 <= i < |ts| && ts[i].isWorker == isWorker ==> ts[i].pc != Woken
    ensures WokenUp(ts, isWorker) == 0
  {
    if ts != [] {
      NoneWoken(ts[..|ts| - 1], isWorker);
    }
  }

  lemma {:induction false} SizesFixed(states: seq<State>, inputs: seq<bytes>, workers: nat, cap: nat, k: nat)
    requires IsRun(states, inputs, workers, cap) && k < |states|
    ensures var s := states[k];
            && |s.ring.elems| == cap && |s.ts| == |inputs| + workers
            && forall i :: 0 <= i < |s.ts| ==> s.ts[i].isWorker == (i >= |inputs|)
  {
    hide Next;
    if k > 0 {
      SizesFixed(states, inputs, workers, cap, k - 1);
      SizesStep(states[k - 1], states[k]);
    }
  }

  predicate SameSizes(s: State, n: State) {
    && |n.ring.elems| == |s.ring.elems| && |n.ts| == |s.ts|
    && forall i :: 0 <= i < |s.ts| ==> n.ts[i].isWorker == s.ts[i].isWorker
  }

  lemma SizesStep(s: State, n: State)
    ensures Next(s, n) ==> SameSizes(s, n)
  {
    hide Enabled, After;
    if i, a :| Enabled(s, i, a) && n == After(s, i, a) {
      SizesAfter(s, i, a);
    }
  }

  lemma SizesAfter(s: State, i: nat, a: Action)
    requires Enabled(s, i, a)
    ensures SameSizes(s, After(s, i, a))
  {
    hide Ring.Valid, Ring.Full, Ring.Put, Ring.Get, Ring.First, Acquired, Signalled, Tested, Arriving, Serves, AfterRead, Greeted;
    if a.Act? {
      SizesAct(s, i);
    } else if a.Signal? || a.Test? {
      SizesWait(s, i);
    }
  }

  lemma SizesWait(s: State, i: nat)
    requires i < |s.ts|
    ensures SameSizes(s, Tested(s, i))
    ensures (Waiters(s, s.ts[i]) != [] ==> Waiters(s, s.ts[i])[0] < |s.ts|) ==> SameSizes(s, Signalled(s, i))
  {
    hide Ring.Full;
  }

  lemma SizesAct(s: State, i: nat)
    requires Enabled(s, i, Act)
    ensures SameSizes(s, After(s, i, Act))
  {
  }

  /** No element waits while all workers sleep, and no slot while all readers do. */
  lemma NobodyOversleeps(states: seq<State>, inputs: seq<bytes>, workers: nat, cap: nat, k: nat)
    requires IsRun(states, inputs, workers, cap) && k < |states|
    ensures var s := states[k];
            && (s.lock == None && AllAsleep(s, true) ==> s.ring.size == 0)
            && (s.lock == None && AllAsleep(s, false) ==> s.ring.size == cap)
            && (cap > 0 ==> !(AllAsleep(s, true) && AllAsleep(s, false)))
  {
    hide IsRun, WokenUp, OwnInv, HandsInv, LostInv, Ring.Contents, Initial;
    var s := states[k];
    RunInv(states, inputs, workers, cap, k);
    SizesFixed(states, inputs, workers, cap, k);
    if AllAsleep(s, true) {
      NoneWoken(s.ts, true);
      assert s.notEmpty != [];
    }
    if AllAsleep(s, false) {
      NoneWoken(s.ts, false);
      assert s.notFull != [];
    }
  }

  /** While a Serve loop has not ended and there is a worker, some goroutine can take a step. */
  lemma NeverStuck(states: seq<State>, inputs: seq<bytes>, workers: nat, cap: nat, k: nat, r: nat)
    requires IsRun(states, inputs, workers, cap) && k < |states|
    requires workers > 0 && cap > 0 && r < |inputs| && r < |states[k].ts| && !Ended(states[k].ts[r].pc)
    ensures exists i, a :: Enabled(states[k], i, a)
  {
    hide IsRun, Enabled, Inv, AllAsleep;
    var s := states[k];
    RunInv(states, inputs, workers, cap, k);
    SizesFixed(states, inputs, workers, cap, k);
    if i :| 0 <= i < |s.ts| && s.ts[i].pc != Asleep && !Ended(s.ts[i].pc) && (s.lock == None || s.lock == Some(i)) {
      var a := CanStep(s, i);
    } else {
      RestParked(s);
      BothAsleep(s, r, |inputs|);
      NobodyOversleeps(states, inputs, workers, cap, k);
    }
  }

  lemma BothAsleep(s: State, r: nat, w: nat)
    requires HandsInv(s.ts) && r < |s.ts| && w < |s.ts| && !s.ts[r].isWorker && s.ts[w].isWorker && !Ended(s.ts[r].pc)
    requires forall i :: 0 <= i < |s.ts| ==> s.ts[i].pc == Asleep || Ended(s.ts[i].pc)
    ensures AllAsleep(s, true) && AllAsleep(s, false)
  {
    assert s.ts[r].pc == Asleep;
    assert InHand(s.ts[w]) && s.ts[w].pc == Asleep;
  }

  /** A goroutine that is awake and not kept out by the lock has a next statement. */
  lemma CanStep(s: State, i: nat) returns (a: Action)
    requires Inv(s) && i < |s.ts| && s.ts[i].pc != Asleep && !Ended(s.ts[i].pc)
    requires s.lock == None || s.lock == Some(i)
    ensures Enabled(s, i, a)
  {
    hide ListInv, OwnInv, HandsInv, LostInv, LogInv, WokenUp, Ring.Valid, Ring.Full, Arriving, Of;
    var t := s.ts[i];
    Hand(s.ts, i);
    match t.pc
    case Top => a := if t.isWorker then Call else AcquireFrame(None);
    case Reading => a := if Arriving(t).FramePanic? then ReadPanics else if !Serves(t) then ReadFails else if t.hello then Call else ReadHello;
    case Handling => a := SkipAnswer;
    case Answering => a := ReleaseSpare;
    case Finishing => a := ReleaseFrame(false);
    case Locking => a := Lock;
    case Woken => a := Lock;
    case Testing => a := Test;
    case Enlisted => a := Sleep;
    case Acting => a := Act;
    case Signalling =>
      a := Signal;
      if Waiters(s, t) != [] {
        HeadListed(s.ts, Waiters(s, t), !t.isWorker);
      }
    case Unlocking => a := Unlock;
  }

  /** The log is a first-in first-out queue within its capacity, whatever the interleaving. */
  lemma FirstInFirstOut(states: seq<State>, inputs: seq<bytes>, workers: nat, cap: nat, k: nat)
    requires IsRun(states, inputs, workers, cap) && k < |states|
    ensures var s := states[k];
            && s.ring.size <= cap && |s.ring.elems| == cap
            && (cap > 0 ==> s.ring.tail == (s.ring.head + s.ring.size) % cap)
            && s.ring.Valid() && s.puts == s.gets + s.ring.Contents()
  {
    hide IsRun, Inv, LogInv, Ring.Contents;
    RunInv(states, inputs, workers, cap, k);
    SizesFixed(states, inputs, workers, cap, k);
    Logged(states[k]);
  }

  lemma Logged(s: State)
    requires Inv(s)
    ensures s.ring.Valid() && s.puts == s.gets + s.ring.Contents()
  {
    hide Ring.Contents, Ring.Valid, LockInv, ListsInv, WakeInv, HandsInv, OwnInv;
  }

  /** At most one goroutine is between Lock and Unlock. */
  lemma MutualExclusion(states: seq<State>, inputs: seq<bytes>, workers: nat, cap: nat, k: nat, i: nat, j: nat)
    requires IsRun(states, inputs, workers, cap) && k < |states|
    requires i < |states[k].ts| && j < |states[k].ts| && Holds(states[k].ts[i].pc) && Holds(states[k].ts[j].pc)
    ensures i == j
  {
    hide IsRun;
    RunInv(states, inputs, workers, cap, k);
  }

  /** Every frame ever made is in exactly one place: pool, queue, one hand, let go of, or lost. */
  lemma OwnedOnce(states: seq<State>, inputs: seq<bytes>, workers: nat, cap: nat, k: nat, f: Frame)
    requires IsRun(states, inputs, workers, cap) && k < |states|
    ensures states[k].ring.Valid() && Places(states[k])[f] == if f < states[k].made then 1 else 0
  {
    hide IsRun, Elsewhere, Ring.Valid;
    RunInv(states, inputs, workers, cap, k);
    OnceCounts(states[k].made, f);
  }

  /**
   * Frames are lost by nothing else than the panic of readFrom: there are as many as Serve loops
   * that ended in it, and each of these had a frame on its connection that was too short.
   */
  lemma LostByPanics(states: seq<State>, inputs: seq<bytes>, workers: nat, cap: nat, k: nat)
    requires IsRun(states, inputs, workers, cap) && k < |states|
    ensures var s := states[k];
            && |s.lost| == Crashes(s.ts)
            && forall i :: 0 <= i < |s.ts| && s.ts[i].pc == Crashed ==> Frames.TooShort(s.ts[i].input, s.ts[i].limit)
  {
    hide IsRun, Crashes, Frames.ReadFrame, Frames.TooShort;
    var s := states[k];
    RunInv(states, inputs, workers, cap, k);
    forall i | 0 <= i < |s.ts| && s.ts[i].pc == Crashed
      ensures Frames.TooShort(s.ts[i].input, s.ts[i].limit)
    {
      Frames.PanicIffTooShort(s.ts[i].input, s.ts[i].limit);
    }
  }

  /** A reader that has acquired its frame loses it if and only if what arrives is too short. */
  lemma LosesIff(s: State, i: nat, a: Action)
    requires i < |s.ts| && s.ts[i].pc == Reading && !s.ts[i].isWorker
    ensures Enabled(s, i, a) ==>
              var n := After(s, i, a);
              && (n.lost != s.lost <==> Frames.TooShort(s.ts[i].input, s.ts[i].limit))
              && (n.lost != s.lost ==> s.ts[i].frame.Some? && n.lost == s.lost + [s.ts[i].frame.value] && n.pool == s.pool)
  {
    hide Frames.ReadFrame, Frames.TooShort, AfterRead, Greeted;
    Frames.PanicIffTooShort(s.ts[i].input, s.ts[i].limit);
    assert forall f: Frame :: |s.lost + [f]| != |s.lost|;
  }

  /** Four zero bytes on a connection are enough. */
  lemma ZeroLengthLosesFrame(cap: nat) returns (states: seq<State>)
    ensures IsRun(states, [[0, 0, 0, 0]], 0, cap) && states[|states| - 1].lost == [0]
  {
    hide Frames.TooShort;
    var s0 := Initial([[0, 0, 0, 0]], 0, cap);
    assert s0.ts[0] == Thread(false, Top, false, [0, 0, 0, 0], Frames.INITIAL_LIMIT, None, None);
    assert Enabled(s0, 0, AcquireFrame(None));
    var s1 := After(s0, 0, AcquireFrame(None));
    ZeroLength();
    assert Enabled(s1, 0, ReadPanics);
    var s2 := After(s1, 0, ReadPanics);
    states := [s0, s1, s2];
    assert Next(s0, s1) && Next(s1, s2);
  }

  lemma ZeroLength()
    ensures Frames.ReadFrame([0, 0, 0, 0], Frames.INITIAL_LIMIT).FramePanic?
  {
    hide Frames.ReadFrame;
    Frames.PanicIffTooShort([0, 0, 0, 0], Frames.INITIAL_LIMIT);
  }

  predicate Works(t: Thread, f: Frame) {
    t.frame == Some(f) || t.spare == Some(f)
  }

  lemma WorksOf(t: Thread, f: Frame)
    ensures Works(t, f) ==> Of(t)[f] >= 1
    ensures t.frame == t.spare == Some(f) ==> Of(t)[f] >= 2
  {
  }

  lemma HandsSplit(ts: seq<Thread>, f: Frame)
    requires ts != []
    ensures Hands(ts)[f] == Hands(ts[..|ts| - 1])[f] + Of(ts[|ts| - 1])[f]
  {
    hide Of;
  }

  lemma {:induction false} InSomeHand(ts: seq<Thread>, i: nat, f: Frame)
    requires i < |ts|
    ensures Hands(ts)[f] >= Of(ts[i])[f]
  {
    hide Hands, Of;
    HandsSplit(ts, f);
    if i < |ts| - 1 {
      InSomeHand(ts[..|ts| - 1], i, f);
    }
  }

  lemma {:induction false} InTwoHands(ts: seq<Thread>, i: nat, j: nat, f: Frame)
    requires i < j < |ts|
    ensures Hands(ts)[f] >= Of(ts[i])[f] + Of(ts[j])[f]
  {
    hide Hands, Of;
    HandsSplit(ts, f);
    if j < |ts| - 1 {
      InTwoHands(ts[..|ts| - 1], i, j, f);
    } else {
      InSomeHand(ts[..|ts| - 1], i, f);
    }
  }

  /** A frame a goroutine works on is in no other goroutine's hands, not queued, and not in the pool. */
  lemma HeldAlone(states: seq<State>, inputs: seq<bytes>, workers: nat, cap: nat, k: nat, i: nat, f: Frame)
    requires IsRun(states, inputs, workers, cap) && k < |states|
    requires i < |states[k].ts| && Works(states[k].ts[i], f)
    ensures var s := states[k];
            && s.ring.Valid() && f !in s.ring.Contents() && f !in s.pool && f !in s.lost
            && (forall j :: 0 <= j < |s.ts| && j != i ==> !Works(s.ts[j], f))
            && !(s.ts[i].frame == s.ts[i].spare == Some(f))
  {
    hide IsRun, Ring.Contents, Ring.Valid, Hands, Of, Works;
    var s := states[k];
    OwnedOnce(states, inputs, workers, cap, k, f);
    InSomeHand(s.ts, i, f);
    WorksOf(s.ts[i], f);
    forall j | 0 <= j < |s.ts| && j != i
      ensures !Works(s.ts[j], f)
    {
      WorksOf(s.ts[j], f);
      InTwoHands(s.ts, if i < j then i else j, if i < j then j else i, f);
    }
  }

  /** Nothing but sleepers and ended loops is left when the lock is free and no one can move. */
  lemma RestParked(s: State)
    requires Inv(s)
    requires forall i :: 0 <= i < |s.ts| && (s.lock == None || s.lock == Some(i)) ==> s.ts[i].pc == Asleep || Ended(s.ts[i].pc)
    ensures s.lock == None && forall i :: 0 <= i < |s.ts| ==> s.ts[i].pc == Asleep || Ended(s.ts[i].pc)
    ensures HandsInv(s.ts)
  {
    hide OwnInv, HandsInv, ListsInv, WakeInv, LogInv;
  }
}
