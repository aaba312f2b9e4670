/** Filling tagged struct fields from a key/value list (pkg/encoding/kvunmarshal.go). */
module KVUnmarshal {
  import opened Common
  import opened Encoding
  import opened KeyValue
  import opened KVScanners

  datatype Kind = KString | KBytes | KInt32 | KInt64 | KUint32 | KUint64 | KBool | KAddr | KOther

  /** A struct field with a non-empty tag key. */
  datatype Field = Field(key: bytes, kind: Kind, pointer: bool, settable: bool)

  /** A field's contents; only pointer fields are ever Nil. */
  datatype Slot = Nil | Holds(value: TypedValue)

  // ---------- specification ----------

  function AcceptsType(k: Kind, dataType: byte): bool {
    match k
    case KString => dataType == TYPE_STRING
    case KBytes => dataType == TYPE_STRING || dataType == TYPE_BINARY
    case KInt32 => dataType == TYPE_INT32
    case KInt64 => dataType == TYPE_INT64
    case KUint32 => dataType == TYPE_UINT32
    case KUint64 => dataType == TYPE_UINT64
    case KBool => dataType == TYPE_BOOL
    case KAddr => dataType == TYPE_IPV4 || dataType == TYPE_IPV6
    case KOther => false
  }

  /** The value a field of kind k takes from an entry. */
  function Convert(k: Kind, e: Entry): Outcome<TypedValue> {
    if !AcceptsType(k, e.dataType) then Error
    else if k == KBytes then Ok(Binary(e.byteVal))
    else e.Value()
  }

  function ConvertField(f: Field, e: Entry): Outcome<Slot> {
    if !f.settable then Error
    else if f.pointer && e.dataType == TYPE_NULL then Ok(Nil)
    else
      var v :- Convert(f.kind, e);
      Ok(Holds(v))
  }

  /** Index of the first field tagged with this name, |fields| when there is none. */
  function FirstField(fields: seq<Field>, name: bytes): (i: nat)
    ensures i <= |fields|
    ensures forall j :: 0 <= j < i ==> fields[j].key != name
    ensures i < |fields| ==> fields[i].key == name
  {
    if fields == [] || fields[0].key == name then 0
    else
      var i := FirstField(fields[1..], name);
      assert forall j :: 1 <= j < i + 1 ==> fields[j] == fields[1..][j - 1];
      1 + i
  }

  /** The entries that reach field i: those with its key, and none when an earlier field has that key. */
  function Matching(fields: seq<Field>, i: nat, es: seq<Entry>): (ms: seq<Entry>)
    requires i < |fields|
  {
    if es == [] then []
    else
      var ms := Matching(fields, i, es[..|es| - 1]);
      if FirstField(fields, es[|es| - 1].name) == i then ms + [es[|es| - 1]] else ms
  }

  /** What field i holds after the entries es, before the final clearing of pointers. */
  function FieldAfter(fields: seq<Field>, i: nat, before: Slot, es: seq<Entry>): Outcome<Slot>
    requires i < |fields|
  {
    var ms := Matching(fields, i, es);
    if ms == [] then Ok(before) else ConvertField(fields[i], ms[|ms| - 1])
  }

  /** Every entry that reaches a field converts to it. */
  predicate AllConvert(fields: seq<Field>, es: seq<Entry>) {
    forall e <- es :: FirstField(fields, e.name) < |fields| ==> ConvertField(fields[FirstField(fields, e.name)], e).Ok?
  }

  /** No pointer field is unexported. */
  predicate PointersSettable(fields: seq<Field>) {
    forall f <- fields :: f.pointer ==> f.settable
  }

  /** What field i holds after a successful Unmarshal of es. */
  function Final(fields: seq<Field>, i: nat, before: Slot, es: seq<Entry>): Outcome<Slot>
    requires i < |fields|
  {
    if Matching(fields, i, es) == [] && fields[i].pointer then Ok(Nil) else FieldAfter(fields, i, before, es)
  }

  // ---------- the loop ----------

  /** The target struct: one slot a field. */
  class Target {
    const fields: seq<Field>
    var slots: seq<Slot>

    constructor (fields: seq<Field>, slots: seq<Slot>)
      requires |fields| == |slots|
      ensures this.fields == fields && this.slots == slots
    {
      this.fields, this.slots := fields, slots;
    }
  }

  method SetValue(k: Kind, e: KVEntry) returns (r: Outcome<TypedValue>)
    ensures r == Convert(k, e.View())
  {
    match k {
      case KString =>
        if e.dataType != TYPE_STRING {
          return Error;
        }
        return Ok(String(e.byteVal));
      case KBytes =>
        if e.dataType != TYPE_STRING && e.dataType != TYPE_BINARY {
          return Error;
        }
        return Ok(Binary(e.byteVal));
      case KInt32 =>
        if e.dataType != TYPE_INT32 {
          return Error;
        }
        return Ok(Int32(ToI32(e.intVal)));
      case KInt64 =>
        if e.dataType != TYPE_INT64 {
          return Error;
        }
        return Ok(Int64(e.intVal));
      case KUint32 =>
        if e.dataType != TYPE_UINT32 {
          return Error;
        }
        return Ok(UInt32(ToU32(e.intVal)));
      case KUint64 =>
        if e.dataType != TYPE_UINT64 {
          return Error;
        }
        return Ok(UInt64(ToU64(e.intVal)));
      case KBool =>
        if e.dataType != TYPE_BOOL {
          return Error;
        }
        return Ok(Bool(e.boolVar));
      case KAddr =>
        if e.dataType != TYPE_IPV4 && e.dataType != TYPE_IPV6 {
          return Error;
        }
        if |e.byteVal| == 4 {
          return Ok(IPv4(e.byteVal));
        } else if |e.byteVal| == 16 {
          return Ok(IPv6(e.byteVal));
        }
        return Panic;
      case KOther =>
        return Error;
    }
  }

  method FindField(fields: seq<Field>, e: KVEntry) returns (i: nat)
    ensures i == FirstField(fields, e.name)
  {
    i := 0;
    while i < |fields|
      invariant i <= |fields|
      invariant forall j :: 0 <= j < i ==> fields[j].key != e.name
    {
      var same := e.NameEquals(fields[i].key);
      if same {
        return;
      }
      i := i + 1;
    }
  }

  /** The state of the entry loop after the entries es. */
  ghost predicate LoopState(fields: seq<Field>, before: seq<Slot>, slots: seq<Slot>, pointers: set<nat>, es: seq<Entry>) {
    && |slots| == |before| == |fields|
    && AllConvert(fields, es)
    && (forall i :: 0 <= i < |fields| ==> Ok(slots[i]) == FieldAfter(fields, i, before[i], es))
    && (forall i :: 0 <= i < |fields| ==> (i in pointers <==> fields[i].pointer && Matching(fields, i, es) != []))
  }

  /** One turn of the loop: entry e reaches field i, or no field when i == |fields|. */
  lemma LoopStep(fields: seq<Field>, before: seq<Slot>, slots: seq<Slot>, pointers: set<nat>, es: seq<Entry>, e: Entry, i: nat)
    requires LoopState(fields, before, slots, pointers, es)
    requires i == FirstField(fields, e.name)
    ensures i == |fields| ==> LoopState(fields, before, slots, pointers, es + [e])
    ensures i < |fields| && ConvertField(fields[i], e).Ok? ==>
              LoopState(fields, before, slots[i := ConvertField(fields[i], e).value],
                        if fields[i].pointer then pointers + {i} else pointers, es + [e])
  {
    hide FirstField, ConvertField, Matching;
    forall j | 0 <= j < |fields|
      ensures FieldAfter(fields, j, before[j], es + [e]) ==
              if j == i then ConvertField(fields[j], e) else FieldAfter(fields, j, before[j], es)
      ensures Matching(fields, j, es + [e]) == [] <==> j != i && Matching(fields, j, es) == []
    {
      StepMatching(fields, j, es, e);
    }
    assert forall x <- es + [e] :: x in es || x == e;
  }

  /**
   * KVScanner.Unmarshal. It succeeds exactly when the scan ends without an error, an earlier one
   * included that no integer entry has cleared, every entry that reaches a field converts to it,
   * and every pointer field can be set: the clearing of those that no entry has reached does not
   * ask and panics. Then the scan has come to a clean end and every field holds what Final says.
   */
  method Unmarshal(k: KVScanner, t: Target) returns (r: Outcome<()>)
    requires |t.slots| == |t.fields|
    modifies k, t
    ensures |t.slots| == |t.fields|
    ensures var (es, end) := ScanAll(old(k.buf));
            && (r.Ok? <==> DrainFlag(old(k.buf), old(k.lastErr)) == Ok(false) && AllConvert(t.fields, es) && PointersSettable(t.fields))
            && (DrainFlag(old(k.buf), old(k.lastErr)) == Ok(false) && AllConvert(t.fields, es) ==>
                  (r.Panic? <==> !PointersSettable(t.fields)))
            && (r.Ok? ==> end.Exhausted?)
            && (r.Ok? ==> forall i :: 0 <= i < |t.fields| ==> Ok(t.slots[i]) == Final(t.fields, i, old(t.slots)[i], es))
  {
    hide ScanStep, ConvertField, FirstField, LoopState, AllConvert, ScanAll, DrainFlag;
    var fields := t.fields;
    var e := new KVEntry();
    var setPointers: set<nat> := {};
    ghost var before := t.slots;
    ghost var es: seq<Entry> := [];
    ghost var (all, end) := ScanAll(k.buf);
    LoopStart(fields, before);
    while true
      invariant |t.slots| == |fields| && DrainFlag(k.buf, k.lastErr) == DrainFlag(old(k.buf), old(k.lastErr))
      invariant all == es + ScanAll(k.buf).0 && end == ScanAll(k.buf).1
      invariant LoopState(fields, before, t.slots, setPointers, es)
      decreases |k.buf|
    {
      ghost var here, err := k.buf, k.lastErr;
      var more := k.Next(e);
      ScanAllCases(here);
      DrainFlagCases(here, err);
      if more.Panic? {
        return Panic;
      }
      if more == Ok(false) {
        break;
      }
      ghost var entry := e.View();
      assert all == es + [entry] + ScanAll(k.buf).0;
      var i := FindField(fields, e);
      LoopStep(fields, before, t.slots, setPointers, es, entry, i);
      if i < |fields| {
        var slot := SetFieldValue(fields[i], e);
        if slot.IsFailure() {
          NotAllConvert(fields, all, |es|);
          return slot.PropagateFailure();
        }
        t.slots := t.slots[i := slot.value];
        if fields[i].pointer {
          setPointers := setPointers + {i};
        }
      }
      es := es + [entry];
    }
    if k.lastErr {
      return Error;
    }
    assert all == es;
    LoopEnd(fields, before, t.slots, setPointers, es);
    ReachedSettable(fields, es);
    for i := 0 to |fields|
      invariant forall j :: 0 <= j < i && fields[j].pointer ==> fields[j].settable
      invariant |t.slots| == |fields|
      invariant forall j :: 0 <= j < i ==> Ok(t.slots[j]) == Final(fields, j, before[j], es)
      invariant forall j :: i <= j < |fields| ==> Ok(t.slots[j]) == FieldAfter(fields, j, before[j], es)
    {
      if fields[i].pointer && i !in setPointers {
        if !fields[i].settable {
          assert fields[i] in fields;
          return Panic;
        }
        t.slots := t.slots[i := Nil];
      }
    }
    return Ok(());
  }

  /** What every entry that reaches it converts to can be set. */
  lemma ReachedSettable(fields: seq<Field>, es: seq<Entry>)
    requires AllConvert(fields, es)
    ensures forall i :: 0 <= i < |fields| && Matching(fields, i, es) != [] ==> fields[i].settable
  {
    hide FirstField, Matching;
    forall i | 0 <= i < |fields| && Matching(fields, i, es) != []
      ensures fields[i].settable
    {
      var e := Matching(fields, i, es)[0];
      MatchingMeans(fields, i, es, e);
      FirstFieldIs(fields, i);
    }
  }

  lemma FirstFieldIs(fields: seq<Field>, i: nat)
    requires i < |fields| && forall j :: 0 <= j < i ==> fields[j].key != fields[i].key
    ensures FirstField(fields, fields[i].key) == i
  {
    var k := FirstField(fields, fields[i].key);
    assert k < |fields| ==> fields[k].key == fields[i].key;
  }

  /** A pointer field that cannot be set and is not reached makes Unmarshal panic, even on no entries at all. */
  method UnsettablePointerPanics() returns (r: Outcome<()>)
    ensures r == Panic
  {
    hide ScanStep, ConvertField, FirstField, Final;
    var k := new KVScanner([], 0);
    var t := new Target([Field([97], KString, true, false)], [Holds(String([98]))]);
    ScanAllEmpty();
    DrainFlagClean([]);
    assert t.fields[0] in t.fields;
    r := Unmarshal(k, t);
  }

  lemma LoopStart(fields: seq<Field>, before: seq<Slot>)
    requires |before| == |fields|
    ensures LoopState(fields, before, before, {}, [])
  {
  }

  lemma LoopEnd(fields: seq<Field>, before: seq<Slot>, slots: seq<Slot>, pointers: set<nat>, es: seq<Entry>)
    requires LoopState(fields, before, slots, pointers, es)
    ensures |slots| == |before| == |fields| && AllConvert(fields, es)
    ensures forall i :: 0 <= i < |fields| ==> Ok(slots[i]) == FieldAfter(fields, i, before[i], es)
    ensures forall i :: 0 <= i < |fields| ==> (i in pointers <==> fields[i].pointer && Matching(fields, i, es) != [])
  {
  }

  lemma NotAllConvert(fields: seq<Field>, es: seq<Entry>, k: nat)
    requires k < |es| && FirstField(fields, es[k].name) < |fields|
    requires !ConvertField(fields[FirstField(fields, es[k].name)], es[k]).Ok?
    ensures !AllConvert(fields, es)
  {
    assert es[k] in es;
  }

  method SetFieldValue(f: Field, e: KVEntry) returns (r: Outcome<Slot>)
    ensures r == ConvertField(f, e.View())
  {
    if !f.settable {
      return Error;
    }
    if f.pointer && e.dataType == TYPE_NULL {
      return Ok(Nil);
    }
    var v :- SetValue(f.kind, e);
    return Ok(Holds(v));
  }

  lemma StepMatching(fields: seq<Field>, i: nat, es: seq<Entry>, e: Entry)
    requires i < |fields|
    ensures Matching(fields, i, es + [e]) == if FirstField(fields, e.name) == i then Matching(fields, i, es) + [e] else Matching(fields, i, es)
  {
    assert (es + [e])[..|es|] == es;
  }

  // ---------- what it means ----------

  /** Field i is reached exactly by the entries named by its key, unless an earlier field has that key. */
  lemma {:induction false} MatchingMeans(fields: seq<Field>, i: nat, es: seq<Entry>, e: Entry)
    requires i < |fields|
    ensures e in Matching(fields, i, es) <==>
              e in es && e.name == fields[i].key && forall j :: 0 <= j < i ==> fields[j].key != fields[i].key
  {
    if es != [] {
      var n := |es| - 1;
      MatchingMeans(fields, i, es[..n], e);
      assert es == es[..n] + [es[n]];
    }
  }

  predicate DistinctKeys(fields: seq<Field>) {
    forall i, j :: 0 <= i < j < |fields| ==> fields[i].key != fields[j].key
  }

  /** A value a writer can store so that a field of kind k reads it back. */
  predicate Fits(k: Kind, v: TypedValue) {
    match k
    case KString => v.String?
    case KBytes => v.Binary?
    case KInt32 => v.Int32?
    case KInt64 => v.Int64?
    case KUint32 => v.UInt32?
    case KUint64 => v.UInt64?
    case KBool => v.Bool?
    case KAddr => v.IPv4? || v.IPv6?
    case KOther => false
  }

  /** One pair for each field, in field order; a nil pointer is written as null. */
  function PairsFor(fields: seq<Field>, slots: seq<Slot>): (ps: seq<Pair>)
    requires |fields| == |slots|
    ensures |ps| == |fields|
  {
    if fields == [] then []
    else [Pair(fields[0].key, if slots[0].Nil? then Null else slots[0].value)] + PairsFor(fields[1..], slots[1..])
  }

  predicate Writable(fields: seq<Field>, slots: seq<Slot>) {
    && |fields| == |slots|
    && forall i :: 0 <= i < |fields| ==>
         fields[i].settable && if slots[i].Nil? then fields[i].pointer else Fits(fields[i].kind, slots[i].value)
  }

  lemma FirstFieldUnique(fields: seq<Field>, i: nat)
    requires DistinctKeys(fields) && i < |fields|
    ensures FirstField(fields, fields[i].key) == i
  {
    var k := FirstField(fields, fields[i].key);
    assert fields[k].key == fields[i].key;
  }

  lemma {:induction false} PairsForAt(fields: seq<Field>, slots: seq<Slot>, i: nat)
    requires i < |fields| == |slots|
    ensures PairsFor(fields, slots)[i] == Pair(fields[i].key, if slots[i].Nil? then Null else slots[i].value)
  {
    if i > 0 {
      PairsForAt(fields[1..], slots[1..], i - 1);
    }
  }

  /** The i-th entry a writer produces for the fields converts back to slot i. */
  lemma EntryBack(fields: seq<Field>, slots: seq<Slot>, i: nat)
    requires Writable(fields, slots) && i < |fields|
    ensures var e := EntriesOf(PairsFor(fields, slots))[i];
            e.name == fields[i].key && ConvertField(fields[i], e) == Ok(slots[i])
  {
    hide Pair.Encode, TypedValue.Payload, PairsFor;
    PairsForAt(fields, slots, i);
    EntriesCarryPairs(PairsFor(fields, slots), i);
    EntryTypeIs(PairsFor(fields, slots), i);
  }

  lemma {:induction false} EntryTypeIs(ps: seq<Pair>, i: nat)
    requires i < |ps|
    ensures EntriesOf(ps)[i] == EntryOf(ps[i])
  {
    if i > 0 {
      EntryTypeIs(ps[1..], i - 1);
    }
  }

  /** With distinct keys, field i is reached by the i-th of the writer's entries and by no other. */
  lemma {:induction false} MatchingPrefix(fields: seq<Field>, es: seq<Entry>, k: nat, i: nat)
    requires DistinctKeys(fields) && |es| == |fields| && k <= |es| && i < |fields|
    requires forall j :: 0 <= j < |es| ==> es[j].name == fields[j].key
    ensures Matching(fields, i, es[..k]) == if i < k then [es[i]] else []
  {
    if k > 0 {
      assert es[..k][..k - 1] == es[..k - 1];
      MatchingPrefix(fields, es, k - 1, i);
      FirstFieldUnique(fields, k - 1);
    }
  }

  /**
   * Unmarshal undoes the writer: after a KVWriter run over the fields, in field order, every
   * field of any target with the same fields ends up holding what was written.
   */
  lemma UnmarshalUndoesWrite(fields: seq<Field>, slots: seq<Slot>, i: nat, before: Slot)
    requires DistinctKeys(fields) && Writable(fields, slots) && AllValid(PairsFor(fields, slots)) && i < |fields|
    ensures var (es, end) := ScanAll(EncodePairs(PairsFor(fields, slots)));
            end.Exhausted? && AllConvert(fields, es) && Final(fields, i, before, es) == Ok(slots[i])
  {
    hide ConvertField, Matching, FirstField, EntriesOf, PairsFor, EncodePairs;
    var ps := PairsFor(fields, slots);
    var es := EntriesOf(ps);
    PairsRoundTrip(ps);
    forall j | 0 <= j < |es|
      ensures es[j].name == fields[j].key && FirstField(fields, es[j].name) == j
      ensures ConvertField(fields[j], es[j]) == Ok(slots[j])
    {
      EntryBack(fields, slots, j);
      FirstFieldUnique(fields, j);
    }
    MatchingPrefix(fields, es, |es|, i);
    assert es[..|es|] == es;
  }

  // ---------- which values a field takes, and what it ends up holding ----------

  /** What a field of kind k makes of a written value, None when it refuses it. */
  function Takes(k: Kind, v: TypedValue): Option<TypedValue> {
    match (k, v)
    case (KString, String(_)) => Some(v)
    case (KBytes, String(s)) => Some(Binary(s))
    case (KBytes, Binary(_)) => Some(v)
    case (KInt32, Int32(_)) => Some(v)
    case (KInt64, Int64(_)) => Some(v)
    case (KUint32, UInt32(_)) => Some(v)
    case (KUint64, UInt64(_)) => Some(v)
    case (KBool, Bool(_)) => Some(v)
    case (KAddr, IPv4(_)) => Some(v)
    case (KAddr, IPv6(_)) => Some(v)
    case _ => None
  }

  /** The same for a field: one that cannot be set refuses everything, and null clears a pointer. */
  function FieldTakes(f: Field, v: TypedValue): Option<Slot> {
    if !f.settable then None
    else if f.pointer && v.Null? then Some(Nil)
    else
      match Takes(f.kind, v)
      case Some(w) => Some(Holds(w))
      case None => None
  }

  function AsOutcome<T>(o: Option<T>): Outcome<T> {
    match o
    case Some(v) => Ok(v)
    case None => Error
  }

  /** Kind by kind, for every value a writer can store. */
  lemma KindTakes(k: Kind, p: Pair)
    ensures var v := p.value;
            var r := Convert(k, EntryOf(p));
            && (v.String? ==> r == if k == KString then Ok(v) else if k == KBytes then Ok(Binary(v.text)) else Error)
            && (v.Binary? ==> r == if k == KBytes then Ok(v) else Error)
            && (v.Int32? ==> r == if k == KInt32 then Ok(v) else Error)
            && (v.Int64? ==> r == if k == KInt64 then Ok(v) else Error)
            && (v.UInt32? ==> r == if k == KUint32 then Ok(v) else Error)
            && (v.UInt64? ==> r == if k == KUint64 then Ok(v) else Error)
            && (v.Bool? ==> r == if k == KBool then Ok(v) else Error)
            && (v.IPv4? || v.IPv6? ==> r == if k == KAddr then Ok(v) else Error)
            && (v.Null? ==> r == Error)
  {
    hide Entry.Value, EntryOf;
    EntryValue(p);
    EntryFields(p);
  }

  lemma EntryFields(p: Pair)
    ensures EntryOf(p).dataType == p.value.Type()
    ensures p.value.String? ==> EntryOf(p).byteVal == p.value.text
    ensures p.value.Binary? ==> EntryOf(p).byteVal == p.value.data
  {
  }

  lemma PairTaken(f: Field, p: Pair)
    ensures ConvertField(f, EntryOf(p)) == AsOutcome(FieldTakes(f, p.value))
  {
    hide Convert, EntryOf;
    KindTakes(f.kind, p);
    EntryFields(p);
  }

  /** Field i is the first one with this key. */
  predicate Reaches(fields: seq<Field>, i: nat, name: bytes)
    requires i < |fields|
  {
    fields[i].key == name && forall j :: 0 <= j < i ==> fields[j].key != name
  }

  lemma ReachesIff(fields: seq<Field>, i: nat, name: bytes)
    requires i < |fields|
    ensures Reaches(fields, i, name) <==> FirstField(fields, name) == i
  {
    hide FirstField;
    if fields[i].key == name {
      var k := FirstField(fields, name);
      assert k <= i;
    }
  }

  /** Pair q is the last one that reaches field i. */
  predicate LastFor(fields: seq<Field>, i: nat, ps: seq<Pair>, q: nat)
    requires i < |fields|
  {
    && q < |ps| && Reaches(fields, i, ps[q].name)
    && forall r :: q < r < |ps| ==> !Reaches(fields, i, ps[r].name)
  }

  lemma {:induction false} LastMatching(fields: seq<Field>, i: nat, es: seq<Entry>, q: nat)
    requires i < |fields| && q < |es| && FirstField(fields, es[q].name) == i
    requires forall r :: q < r < |es| ==> FirstField(fields, es[r].name) != i
    ensures var ms := Matching(fields, i, es); ms != [] && ms[|ms| - 1] == es[q]
  {
    hide FirstField;
    var n := |es| - 1;
    if q < n {
      LastMatching(fields, i, es[..n], q);
    }
  }

  lemma {:induction false} NoneMatching(fields: seq<Field>, i: nat, es: seq<Entry>)
    requires i < |fields| && forall r :: 0 <= r < |es| ==> FirstField(fields, es[r].name) != i
    ensures Matching(fields, i, es) == []
  {
    hide FirstField;
    if es != [] {
      NoneMatching(fields, i, es[..|es| - 1]);
    }
  }

  /** Every pair that reaches a field is taken by it. */
  predicate AllTaken(fields: seq<Field>, ps: seq<Pair>) {
    forall q, i :: 0 <= q < |ps| && 0 <= i < |fields| && Reaches(fields, i, ps[q].name) ==> FieldTakes(fields[i], ps[q].value).Some?
  }

  /**
   * Unmarshal on what a KVWriter has written, in any order and with any repetitions: the entries
   * convert if and only if every pair that reaches a field is taken by it, and then a field holds
   * what it takes from the last pair that reaches it. One that no pair reaches is cleared if it
   * is a pointer and keeps its contents otherwise.
   */
  lemma UnmarshalMeans(fields: seq<Field>, ps: seq<Pair>, i: nat, before: Slot)
    requires AllValid(ps) && i < |fields|
    ensures var (es, end) := ScanAll(EncodePairs(ps));
            && end.Exhausted?
            && (AllConvert(fields, es) <==> AllTaken(fields, ps))
            && (forall q: nat :: LastFor(fields, i, ps, q) ==> Final(fields, i, before, es) == AsOutcome(FieldTakes(fields[i], ps[q].value)))
            && ((forall q :: 0 <= q < |ps| ==> !Reaches(fields, i, ps[q].name)) ==>
                  Final(fields, i, before, es) == Ok(if fields[i].pointer then Nil else before))
  {
    hide ScanAll, EncodePairs, EntryOf, EntriesOf, ConvertField, FieldTakes, Matching, FirstField, AllConvert, AllTaken, Reaches, AsOutcome;
    PairsRoundTrip(ps);
    var es := EntriesOf(ps);
    EntriesNamed(fields, ps);
    TakenIff(fields, ps);
    forall r | 0 <= r < |es|
      ensures FirstField(fields, es[r].name) == i <==> Reaches(fields, i, ps[r].name)
    {
    }
    forall q: nat | LastFor(fields, i, ps, q)
      ensures Final(fields, i, before, es) == AsOutcome(FieldTakes(fields[i], ps[q].value))
    {
      LastMatching(fields, i, es, q);
      EntryTypeIs(ps, q);
      PairTaken(fields[i], ps[q]);
    }
    if forall q :: 0 <= q < |ps| ==> !Reaches(fields, i, ps[q].name) {
      NoneMatching(fields, i, es);
    }
  }

  lemma EntriesNamed(fields: seq<Field>, ps: seq<Pair>)
    ensures forall q, i :: 0 <= q < |ps| && 0 <= i < |fields| ==>
              (Reaches(fields, i, ps[q].name) <==> FirstField(fields, EntriesOf(ps)[q].name) == i)
  {
    hide FirstField, Reaches, EntriesOf, Entry.Value;
    forall q, i | 0 <= q < |ps| && 0 <= i < |fields|
      ensures Reaches(fields, i, ps[q].name) <==> FirstField(fields, EntriesOf(ps)[q].name) == i
    {
      ReachesIff(fields, i, ps[q].name);
      EntriesCarryPairs(ps, q);
    }
  }

  lemma TakenIff(fields: seq<Field>, ps: seq<Pair>)
    ensures AllConvert(fields, EntriesOf(ps)) <==> AllTaken(fields, ps)
  {
    hide FirstField, Reaches, EntriesOf, EntryOf, ConvertField, FieldTakes;
    var es := EntriesOf(ps);
    EntriesNamed(fields, ps);
    forall q, i | 0 <= q < |ps| && 0 <= i < |fields| && Reaches(fields, i, ps[q].name)
      ensures ConvertField(fields[i], es[q]).Ok? <==> FieldTakes(fields[i], ps[q].value).Some?
      ensures es[q] in es
    {
      EntryTypeIs(ps, q);
      PairTaken(fields[i], ps[q]);
    }
    if AllTaken(fields, ps) {
      forall e <- es | FirstField(fields, e.name) < |fields|
        ensures ConvertField(fields[FirstField(fields, e.name)], e).Ok?
      {
        var q :| 0 <= q < |es| && es[q] == e;
        assert Reaches(fields, FirstField(fields, e.name), ps[q].name);
      }
    }
  }
}
