/** Stick-table definitions (peers/sticktable/sticktables.go). */
module StickTables {
  import opened Common
  import opened Varints
  import opened Encoding
  import opened TableValues

  // ---------- the 64-bit mask of data types ----------

  /** m | 1 << t, where a shift past the 64th bit is 0. */
  function OrBit(m: nat, t: nat): nat {
    if t >= 64 then m else SetNth(m, t)
  }

  function SetNth(m: nat, t: nat): nat
    decreases t
  {
    if t == 0 then (if m % 2 == 1 then m else m + 1) else m % 2 + 2 * SetNth(m / 2, t - 1)
  }

  /** (m >> i) & 1 == 1 */
  predicate Nth(m: nat, i: nat)
    decreases i
  {
    if i == 0 then m % 2 == 1 else Nth(m / 2, i - 1)
  }

  lemma {:induction false} SetNthBits(m: nat, t: nat, i: nat)
    ensures Nth(SetNth(m, t), i) <==> i == t || Nth(m, i)
    decreases t
  {
    var s := SetNth(m, t);
    if t == 0 {
      if i > 0 {
        assert s / 2 == m / 2;
      }
    } else {
      assert s % 2 == m % 2 && s / 2 == SetNth(m / 2, t - 1);
      if i > 0 {
        SetNthBits(m / 2, t - 1, i - 1);
      }
    }
  }

  lemma {:induction false} SetNthBound(m: nat, t: nat, k: nat)
    requires m < Pow2(k) && t < k
    ensures SetNth(m, t) < Pow2(k)
    decreases t
  {
    if t > 0 {
      SetNthBound(m / 2, t - 1, k - 1);
    } else {
      assert Pow2(k) % 2 == 0;
    }
  }

  lemma {:induction false} NoBits(i: nat)
    ensures !Nth(0, i)
    decreases i
  {
    if i > 0 {
      NoBits(i - 1);
    }
  }

  /** Two masks of k bits with the same bits are the same mask. */
  lemma {:induction false} BitsDetermine(x: nat, y: nat, k: nat)
    requires x < Pow2(k) && y < Pow2(k)
    requires forall i :: 0 <= i < k ==> (Nth(x, i) <==> Nth(y, i))
    ensures x == y
    decreases k
  {
    if k > 0 {
      assert Nth(x, 0) <==> Nth(y, 0);
      forall i | 0 <= i < k - 1
        ensures Nth(x / 2, i) <==> Nth(y / 2, i)
      {
        assert Nth(x, i + 1) <==> Nth(y, i + 1);
      }
      BitsDetermine(x / 2, y / 2, k - 1);
    }
  }

  // ---------- definitions ----------

  datatype DataTypeDefinition = DataTypeDefinition(dataType: nat, counter: u64, period: u64)

  datatype TableDef = TableDef(
    name: bytes, dataTypes: seq<DataTypeDefinition>, keyType: i64, stickTableID: u64, keyLength: u64, expiry: u64)
  {
    /** What the receiver can rebuild: known types in ascending order, parameters only on delay types. */
    predicate Canonical() {
      && GoLength(name)
      && Ascending(dataTypes)
      && KnownTypes(dataTypes)
    }

    function Encode(): bytes {
      Enc(stickTableID) + EncBytes(name) + EncAll(Shape()) + EncAll(Params(dataTypes))
    }

    /** The four numbers after the name. */
    function Shape(): (ns: seq<u64>)
      ensures |ns| == 4
    {
      [ToU64(keyType), keyLength, Mask(dataTypes), expiry]
    }
  }

  predicate Ascending(ds: seq<DataTypeDefinition>) {
    forall i, j :: 0 <= i < j < |ds| ==> ds[i].dataType < ds[j].dataType
  }

  predicate KnownTypes(ds: seq<DataTypeDefinition>) {
    forall d <- ds :: d.dataType <= 26 && (IsDelay(d.dataType) || d.counter == d.period == 0)
  }

  function Mask(ds: seq<DataTypeDefinition>): (m: u64) {
    if ds == [] then 0
    else
      var m := Mask(ds[..|ds| - 1]);
      MaskStep(m, ds[|ds| - 1].dataType);
      OrBit(m, ds[|ds| - 1].dataType)
  }

  lemma MaskStep(m: u64, t: nat)
    ensures OrBit(m, t) < TWO_64
  {
    Pow2Of64();
    if t < 64 {
      SetNthBound(m, t, 64);
    }
  }

  lemma {:induction false} MaskBits(ds: seq<DataTypeDefinition>, i: nat)
    requires i < 64
    ensures Nth(Mask(ds), i) <==> exists d <- ds :: d.dataType == i
  {
    hide Nth, SetNth;
    if ds == [] {
      NoBits(i);
    } else {
      var n := |ds| - 1;
      var t := ds[n].dataType;
      MaskBits(ds[..n], i);
      assert ds == ds[..n] + [ds[n]];
      if t < 64 {
        SetNthBits(Mask(ds[..n]), t, i);
      }
    }
  }

  function ParamsOf(d: DataTypeDefinition): seq<u64> {
    if IsDelay(d.dataType) then [d.counter, d.period] else []
  }

  /** Counter and period of every delay type, in slice order. */
  function Params(ds: seq<DataTypeDefinition>): seq<u64> {
    if ds == [] then []
    else ParamsOf(ds[0]) + Params(ds[1..])
  }

  // ---------- reading ----------

  /** The data types of the mask from bit i on, with their parameters. */
  function ParseTypes(mask: u64, i: nat, b: bytes, exact: bool): (r: Outcome<(seq<DataTypeDefinition>, bytes)>)
    ensures !r.Panic?
    ensures r.Ok? ==> |r.value.1| <= |b|
    decreases 64 - i
  {
    if i >= 64 then Ok(([], b))
    else if !Nth(mask, i) then ParseTypes(mask, i + 1, b, exact)
    else if DataKindOf(i).None? then Error
    else
      var (d, b1) :- ParseType(i, b, exact);
      var (ds, rest) :- ParseTypes(mask, i + 1, b1, exact);
      Ok(([d] + ds, rest))
  }

  function ParseType(i: nat, b: bytes, exact: bool): (r: Outcome<(DataTypeDefinition, bytes)>)
    ensures !r.Panic?
    ensures r.Ok? ==> r.value.0.dataType == i && |r.value.1| <= |b|
  {
    if IsDelay(i) then
      var (ps, rest) :- ParseNumbers(b, 2, exact);
      Ok((DataTypeDefinition(i, ps[0], ps[1]), rest))
    else Ok((DataTypeDefinition(i, 0, 0), b))
  }

  /**
   * Unmarshal into a fresh Definition: the definition and the unread rest. A name that is cut
   * short uses up the input, so that the next number is missing. With exact set, numbers
   * that overflow 64 bits are refused; the source reads them modulo 2^64.
   */
  function ParseDef(b: bytes, exact: bool): (r: Outcome<(TableDef, bytes)>)
    ensures r.Ok? ==> |r.value.1| <= |b|
  {
    var (id, b1) :- ParseNumber(b, exact);
    var (nameLength, b2) :- ParseNumber(b1, exact);
    if nameLength > MAX_ALLOC then Panic
    else if nameLength > |b2| then Error
    else
      var (shape, b3) :- ParseNumbers(b2[nameLength..], 4, exact);
      var (ds, rest) :- ParseTypes(shape[2], 0, b3, exact);
      Ok((TableDef(b2[..nameLength], ds, ToI64(shape[0]), id, shape[1], shape[3]), rest))
  }

  // ---------- round trips ----------

  lemma TypeRoundTrip(d: DataTypeDefinition, rest: bytes, exact: bool)
    requires IsDelay(d.dataType) || d.counter == d.period == 0
    ensures ParseType(d.dataType, EncAll(Params([d])) + rest, exact) == Ok((d, rest))
  {
    hide EncAll, ParseNumbers;
    ParamsOne(d);
    if IsDelay(d.dataType) {
      NumbersRoundTrip([d.counter, d.period], rest, exact);
    } else {
      EncAllNone();
      assert [] + rest == rest;
    }
  }

  lemma ParamsOne(d: DataTypeDefinition)
    ensures Params([d]) == ParamsOf(d)
  {
    assert Params([d]) == ParamsOf(d) + Params([]);
  }

  lemma EncAllNone()
    ensures EncAll([]) == []
  {
  }

  lemma ParamsCons(ds: seq<DataTypeDefinition>)
    requires ds != []
    ensures EncAll(Params(ds)) == EncAll(Params([ds[0]])) + EncAll(Params(ds[1..]))
  {
    ParamsOne(ds[0]);
    EncAllAppend(Params([ds[0]]), Params(ds[1..]));
  }

  /** From bit i on, the mask has exactly the bits of ds, all of which are at least i. */
  ghost predicate MaskFrom(mask: u64, i: nat, ds: seq<DataTypeDefinition>) {
    && (forall j :: i <= j < 64 ==> (Nth(mask, j) <==> exists d <- ds :: d.dataType == j))
    && (forall d <- ds :: i <= d.dataType <= 26)
  }

  /** The next bit says whether the first of an ascending list is the next type. */
  lemma MaskFromStep(mask: u64, i: nat, ds: seq<DataTypeDefinition>)
    requires MaskFrom(mask, i, ds) && Ascending(ds) && KnownTypes(ds) && i <= 64
    ensures i == 64 ==> ds == []
    ensures i < 64 && Nth(mask, i) ==>
              ds != [] && ds[0].dataType == i <= 26 && MaskFrom(mask, i + 1, ds[1..]) && Ascending(ds[1..]) && KnownTypes(ds[1..])
    ensures i < 64 && !Nth(mask, i) ==> MaskFrom(mask, i + 1, ds)
  {
    hide Nth, IsDelay;
    assert |ds| > 0 ==> ds[0] in ds;
    if i < 64 && Nth(mask, i) {
      var d :| d in ds && d.dataType == i;
      assert ds[0].dataType == i;
      assert forall x <- ds :: x == ds[0] || x in ds[1..];
    }
  }

  lemma {:induction false} TypesRoundTrip(mask: u64, i: nat, ds: seq<DataTypeDefinition>, rest: bytes, exact: bool)
    requires MaskFrom(mask, i, ds) && Ascending(ds) && KnownTypes(ds) && i <= 64
    ensures ParseTypes(mask, i, EncAll(Params(ds)) + rest, exact) == Ok((ds, rest))
    decreases 64 - i
  {
    hide Nth, EncAll, Params, ParseType, MaskFrom, Ascending;
    MaskFromStep(mask, i, ds);
    if i == 64 {
      ParamsNone();
      assert EncAll(Params(ds)) + rest == rest;
    } else if Nth(mask, i) {
      var tail := EncAll(Params(ds[1..])) + rest;
      ParamsCons(ds);
      assert EncAll(Params(ds)) + rest == EncAll(Params([ds[0]])) + tail;
      TypeRoundTrip(ds[0], tail, exact);
      TypesRoundTrip(mask, i + 1, ds[1..], rest, exact);
      assert [ds[0]] + ds[1..] == ds;
    } else {
      TypesRoundTrip(mask, i + 1, ds, rest, exact);
    }
  }

  lemma ParamsNone()
    ensures EncAll(Params([])) == []
  {
  }

  /** Marshal then Unmarshal is the identity on canonical definitions and uses exactly the bytes written. */
  lemma DefRoundTrip(d: TableDef, rest: bytes, exact: bool)
    requires d.Canonical()
    ensures ParseDef(d.Encode() + rest, exact) == Ok((d, rest))
  {
    hide Enc, EncAll, ParseNumber, ParseNumbers, ParseTypes, Mask, Nth, Params, ToI64, ToU64, Ascending, KnownTypes, MaskFrom;
    var e1 := EncAll(Params(d.dataTypes)) + rest;
    var e2 := EncAll(d.Shape()) + e1;
    var n := |d.name|;
    EncBytesParts(d.name);
    assert d.Encode() + rest == Enc(d.stickTableID) + (Enc(n) + (d.name + e2));
    NumberRoundTrip(d.stickTableID, Enc(n) + (d.name + e2), exact);
    NumberRoundTrip(n, d.name + e2, exact);
    DropPrefix(d.name, e2);
    NumbersRoundTrip(d.Shape(), e1, exact);
    CanonicalMask(d);
    TypesRoundTrip(d.Shape()[2], 0, d.dataTypes, rest, exact);
    KeyTypeSurvives(d.keyType);
  }

  lemma KeyTypeSurvives(k: i64)
    ensures ToI64(ToU64(k)) == k
  {
  }

  lemma CanonicalMask(d: TableDef)
    requires d.Canonical()
    ensures MaskFrom(Mask(d.dataTypes), 0, d.dataTypes)
  {
    hide Nth, Mask;
    forall j | 0 <= j < 64
      ensures Nth(Mask(d.dataTypes), j) <==> exists x <- d.dataTypes :: x.dataType == j
    {
      MaskBits(d.dataTypes, j);
    }
  }

  // ---------- every accepted definition is canonical, and re-marshals exactly unless a number overflowed ----------

  lemma {:induction false} TypesParsed(mask: u64, i: nat, b: bytes, exact: bool)
    requires i <= 64
    ensures match ParseTypes(mask, i, b, exact)
            case Ok((ds, rest)) =>
              && MaskFrom(mask, i, ds) && Ascending(ds) && KnownTypes(ds)
              && (exact ==> b == EncAll(Params(ds)) + rest)
            case _ => true
    decreases 64 - i
  {
    hide Nth, EncAll, Params, ParseNumbers, IsDelay;
    if i == 64 {
      ParamsNone();
      assert b == [] + b;
    } else if !Nth(mask, i) {
      TypesParsed(mask, i + 1, b, exact);
    } else if DataKindOf(i).Some? {
      match ParseType(i, b, exact)
      case Ok((d, b1)) =>
        TypesParsed(mask, i + 1, b1, exact);
        match ParseTypes(mask, i + 1, b1, exact) {
          case Ok((ds, rest)) =>
            TypeParsed(i, b, exact);
            ParamsCons([d] + ds);
            assert ([d] + ds)[1..] == ds;
            MaskFromExtend(mask, i, d, ds);
            assert exact ==> b == EncAll(Params([d])) + (EncAll(Params(ds)) + rest);
          case _ =>
        }
      case _ =>
    }
  }

  lemma TypeParsed(i: nat, b: bytes, exact: bool)
    requires ParseType(i, b, exact).Ok? && i <= 26
    ensures var (d, rest) := ParseType(i, b, exact).value;
            KnownTypes([d]) && (exact ==> b == EncAll(Params([d])) + rest)
  {
    hide EncAll, ParseNumbers;
    var (d, rest) := ParseType(i, b, exact).value;
    ParamsOne(d);
    EncAllNone();
    if IsDelay(i) {
      NumbersParsed(b, 2, exact);
      assert ParseNumbers(b, 2, exact).value.0 == [d.counter, d.period];
    } else {
      assert b == [] + rest;
    }
  }

  lemma MaskFromExtend(mask: u64, i: nat, d: DataTypeDefinition, ds: seq<DataTypeDefinition>)
    requires MaskFrom(mask, i + 1, ds) && Ascending(ds) && KnownTypes(ds) && KnownTypes([d])
    requires d.dataType == i <= 26 && Nth(mask, i)
    ensures MaskFrom(mask, i, [d] + ds) && Ascending([d] + ds) && KnownTypes([d] + ds)
  {
    hide Nth, IsDelay;
    var all := [d] + ds;
    assert forall x <- all :: x == d || x in ds;
    assert d in [d] && all[0] == d;
    assert forall x <- ds :: x in all;
    forall j, k | 0 <= j < k < |all|
      ensures all[j].dataType < all[k].dataType
    {
      assert all[k] == ds[k - 1];
    }
  }

  lemma MaskRebuilt(mask: u64, ds: seq<DataTypeDefinition>)
    requires MaskFrom(mask, 0, ds)
    ensures Mask(ds) == mask
  {
    hide Nth, Mask;
    Pow2Of64();
    forall i | 0 <= i < 64
      ensures Nth(mask, i) <==> Nth(Mask(ds), i)
    {
      MaskBits(ds, i);
    }
    BitsDetermine(mask, Mask(ds), 64);
  }

  lemma DefParsed(b: bytes, exact: bool)
    requires ParseDef(b, exact).Ok?
    ensures var (d, rest) := ParseDef(b, exact).value;
            d.Canonical() && (exact ==> b == d.Encode() + rest)
  {
    hide Enc, EncAll, ParseNumber, ParseNumbers, ParseTypes, Mask, MaskFrom, Ascending, KnownTypes, Params, ToI64, ToU64;
    var (d, rest) := ParseDef(b, exact).value;
    NumberParsed(b, exact);
    var b1 := ParseNumber(b, exact).value.1;
    NumberParsed(b1, exact);
    var (n, b2) := ParseNumber(b1, exact).value;
    NumbersParsed(b2[n..], 4, exact);
    var (shape, b3) := ParseNumbers(b2[n..], 4, exact).value;
    TypesParsed(shape[2], 0, b3, exact);
    MaskRebuilt(shape[2], d.dataTypes);
    KeyNumberSurvives(shape[0]);
    assert d.Shape() == shape;
    EncBytesParts(d.name);
    assert b2 == b2[..n] + b2[n..];
    assert exact ==> b == Enc(d.stickTableID) + (Enc(n) + (d.name + (EncAll(shape) + (EncAll(Params(d.dataTypes)) + rest))));
  }

  lemma KeyNumberSurvives(k: u64)
    ensures ToU64(ToI64(k)) == k
  {
  }

  /** What the strict reader accepts, the source's reader accepts with the same result. */
  lemma ExactAgrees(b: bytes)
    requires ParseDef(b, true).Ok?
    ensures ParseDef(b, false) == ParseDef(b, true)
  {
    hide Enc, EncAll, ParseDef;
    DefParsed(b, true);
    var (d, rest) := ParseDef(b, true).value;
    DefRoundTrip(d, rest, false);
  }

  /**
   * Bytes accepted by Unmarshal re-marshal to exactly the bytes consumed if and only if no
   * number in them overflows 64 bits.
   */
  lemma RemarshalIffNoOverflow(b: bytes)
    requires ParseDef(b, false).Ok?
    ensures var (d, rest) := ParseDef(b, false).value;
            b == d.Encode() + rest <==> ParseDef(b, true).Ok?
  {
    hide ParseDef, TableDef.Encode;
    var (d, rest) := ParseDef(b, false).value;
    DefParsed(b, false);
    if ParseDef(b, true).Ok? {
      ExactAgrees(b);
      DefParsed(b, true);
    }
    if b == d.Encode() + rest {
      DefRoundTrip(d, rest, true);
    }
  }

  // ---------- cut-short definitions ----------

  lemma {:induction false} TypesStable(mask: u64, i: nat, b: bytes, more: bytes)
    requires i <= 64
    ensures match ParseTypes(mask, i, b, false)
            case Ok((ds, rest)) => ParseTypes(mask, i, b + more, false) == Ok((ds, rest + more))
            case _ => true
    decreases 64 - i
  {
    hide Nth, ParseNumbers, DataKindOf;
    if i < 64 {
      if !Nth(mask, i) {
        TypesStable(mask, i + 1, b, more);
      } else if IsDelay(i) && ParseNumbers(b, 2, false).Ok? {
        NumbersStable(b, 2, more);
        TypesStable(mask, i + 1, ParseNumbers(b, 2, false).value.1, more);
      } else {
        TypesStable(mask, i + 1, b, more);
      }
    }
  }

  /** More input after an accepted definition, or after a name too long to allocate, changes nothing. */
  lemma DefStable(b: bytes, more: bytes)
    ensures match ParseDef(b, false)
            case Ok((d, rest)) => ParseDef(b + more, false) == Ok((d, rest + more))
            case Panic => ParseDef(b + more, false) == Panic
            case Error => true
  {
    hide ParseNumber, ParseNumbers, ParseTypes, ToI64;
    NumberStable(b, more);
    if ParseNumber(b, false).Ok? {
      var b1 := ParseNumber(b, false).value.1;
      NumberStable(b1, more);
      if ParseNumber(b1, false).Ok? {
        var (n, b2) := ParseNumber(b1, false).value;
        if n <= |b2| {
          assert (b2 + more)[n..] == b2[n..] + more && (b2 + more)[..n] == b2[..n];
          NumbersStable(b2[n..], 4, more);
          if ParseNumbers(b2[n..], 4, false).Ok? {
            var (shape, b3) := ParseNumbers(b2[n..], 4, false).value;
            TypesStable(shape[2], 0, b3, more);
          }
        }
      }
    }
  }

  /** Unmarshal refuses every strict prefix of an encoded definition with an error. */
  lemma StrictPrefixRefused(d: TableDef, k: nat)
    requires d.Canonical() && k < |d.Encode()|
    ensures ParseDef(d.Encode()[..k], false) == Error
  {
    hide ParseDef, TableDef.Encode;
    var e := d.Encode();
    DefRoundTrip(d, [], false);
    assert e + [] == e && e == e[..k] + e[k..];
    DefStable(e[..k], e[k..]);
  }

  // ---------- the Go methods ----------

  class Definition {
    var name: bytes
    var dataTypes: seq<DataTypeDefinition>
    var keyType: i64
    var stickTableID: u64
    var keyLength: u64
    var expiry: u64

    /** A zero Definition, as `var std sticktable.Definition` makes it. */
    constructor ()
      ensures View() == TableDef([], [], 0, 0, 0, 0)
    {
      name, dataTypes, keyType, stickTableID, keyLength, expiry := [], [], 0, 0, 0, 0;
    }

    constructor Of(d: TableDef)
      ensures View() == d
    {
      name, dataTypes, keyType := d.name, d.dataTypes, d.keyType;
      stickTableID, keyLength, expiry := d.stickTableID, d.keyLength, d.expiry;
    }

    function View(): TableDef
      reads this
    {
      TableDef(name, dataTypes, keyType, stickTableID, keyLength, expiry)
    }

    /**
     * Marshal into b[off..]: it succeeds exactly when the whole encoding fits. A name that is
     * cut short leaves no room at all, so the next number fails.
     */
    method Marshal(b: array<byte>, off: nat) returns (r: Outcome<nat>)
      requires off <= b.Length && GoLength(name)
      modifies b
      ensures var e := View().Encode();
              && r == (if |e| <= b.Length - off then Ok(|e|) else Error)
              && (r.Ok? ==> b[..off + r.value] == old(b[..off]) + e)
      ensures b[..off] == old(b[..off])
    {
      hide Enc, EncAll, EncBytes, TableDef.Encode, TableDef.Shape, Params, Mask;
      ghost var prefix, d := b[..off], View();
      EncodeParts(d);
      var n :- MarshalName(b, off);
      var offset := off + n;
      ghost var w1 := b[..offset];

      var types := DataTypeMask();
      ShapeIs(d, types);
      n :- PutVarints(b, offset, [ToU64(keyType), keyLength, types, expiry]);
      offset := offset + n;
      ghost var w2 := b[..offset];
      Extended(w1, w2, prefix, Head(d), EncAll(d.Shape()));

      n :- MarshalParams(b, offset);
      offset := offset + n;
      Extended(w2, b[..offset], prefix, Head(d) + EncAll(d.Shape()), EncAll(Params(d.dataTypes)));
      return Ok(offset - off);
    }

    /** Table ID, name length and as much of the name as fits. */
    method MarshalName(b: array<byte>, off: nat) returns (r: Outcome<nat>)
      requires off <= b.Length && GoLength(name)
      modifies b
      ensures !r.Panic? && b[..off] == old(b[..off])
      ensures r.Ok? ==> off + r.value <= b.Length
      ensures |Head(View())| <= b.Length - off ==>
                r == Ok(|Head(View())|) && b[..off + r.value] == old(b[..off]) + Head(View())
      ensures |Head(View())| > b.Length - off ==> r == Error || off + r.value == b.Length
    {
      hide Enc, EncAll, EncBytes;
      ghost var prefix := b[..off];
      HeadIs(View());
      TwoNumbers(stickTableID, |name|);
      var n :- PutVarints(b, off, [stickTableID, |name|]);
      ghost var w1 := b[..off + n];
      var copied := Copy(b, off + n, name);
      Extended(w1, b[..off + n + copied], prefix, EncAll([stickTableID, |name|]), name[..copied]);
      assert copied == |name| ==> name[..copied] == name;
      return Ok(n + copied);
    }

    method DataTypeMask() returns (m: u64)
      ensures m == Mask(dataTypes)
    {
      m := 0;
      for i := 0 to |dataTypes|
        invariant m == Mask(dataTypes[..i])
      {
        assert dataTypes[..i + 1][..i] == dataTypes[..i];
        MaskStep(m, dataTypes[i].dataType);
        m := OrBit(m, dataTypes[i].dataType);
      }
      assert dataTypes[..|dataTypes|] == dataTypes;
    }

    method MarshalParams(b: array<byte>, off: nat) returns (r: Outcome<nat>)
      requires off <= b.Length
      modifies b
      ensures var e := EncAll(Params(dataTypes));
              && r == (if |e| <= b.Length - off then Ok(|e|) else Error)
              && (r.Ok? ==> b[..off + r.value] == old(b[..off]) + e)
      ensures b[..off] == old(b[..off])
    {
      hide Enc, EncAll, Params, ParamsOf;
      ghost var prefix, done := b[..off], [];
      var offset := off;
      for i := 0 to |dataTypes|
        invariant off <= offset <= b.Length && |prefix| == off
        invariant EncAll(Params(dataTypes)) == done + EncAll(Params(dataTypes[i..]))
        invariant b[..offset] == prefix + done
      {
        ghost var w, piece := b[..offset], EncAll(ParamsOf(dataTypes[i]));
        ParamsTurn(dataTypes, i, done);
        var n := MarshalParam(dataTypes[i], b, offset);
        if n.IsFailure() {
          PrefixOf(b[..offset], prefix, done);
          assert b[..off] == b[..offset][..off];
          return n.PropagateFailure();
        }
        offset := offset + n.value;
        Extended(w, b[..offset], prefix, done, piece);
        done := done + piece;
      }
      assert dataTypes[|dataTypes|..] == [];
      ParamsNone();
      assert done + [] == done;
      PrefixOf(b[..offset], prefix, done);
      assert b[..off] == b[..offset][..off];
      return Ok(offset - off);
    }

    /** Counter and period of one data type, if it is a delay type. */
    static method MarshalParam(d: DataTypeDefinition, b: array<byte>, off: nat) returns (r: Outcome<nat>)
      requires off <= b.Length
      modifies b
      ensures var e := EncAll(ParamsOf(d));
              && r == (if |e| <= b.Length - off then Ok(|e|) else Error)
              && (r.Ok? ==> b[..off + r.value] == old(b[..off]) + e)
      ensures b[..off] == old(b[..off])
    {
      hide Enc, EncAll;
      if IsDelay(d.dataType) {
        r := PutVarints(b, off, [d.counter, d.period]);
      } else {
        EncAllNone();
        assert b[..off] + [] == b[..off];
        return Ok(0);
      }
    }

    /**
     * Unmarshal from the front of b. The data types are appended to those the receiver had;
     * after an error or a panic the fields are unspecified.
     */
    method Unmarshal(b: bytes) returns (r: Outcome<nat>)
      modifies this
      ensures match ParseDef(b, false)
              case Ok((d, rest)) =>
                && r.Ok? && r.value <= |b| && b[r.value..] == rest
                && View() == d.(dataTypes := old(dataTypes) + d.dataTypes)
              case Error => r == Error
              case Panic => r == Panic
    {
      hide ParseNumber, ParseNumbers, ParseTypes, ReadPadded;
      assert b[0..] == b;
      var id :- VarintAt(b, 0);
      stickTableID := id.0;
      var nameLength :- VarintAt(b, id.1);
      var offset := nameLength.1;
      if nameLength.0 > MAX_ALLOC {
        return Panic;
      }
      var (text, n) := ReadPadded(b[offset..], nameLength.0);
      assert b[offset..][n..] == b[offset + n..];
      offset := offset + n;
      name := text;
      NothingToRead();
      var shape :- VarintsAt(b, offset, 4);
      keyType, keyLength, expiry := ToI64(shape.0[0]), shape.0[1], shape.0[3];
      r := UnmarshalTypes(b, shape.1, shape.0[2]);
    }

    /** The loop over the 64 bits of the mask. */
    method UnmarshalTypes(b: bytes, off: nat, types: u64) returns (r: Outcome<nat>)
      requires off <= |b|
      modifies this`dataTypes
      ensures match ParseTypes(types, 0, b[off..], false)
              case Ok((ds, rest)) => r.Ok? && r.value <= |b| && b[r.value..] == rest && dataTypes == old(dataTypes) + ds
              case _ => r == Error
    {
      hide Nth, ParseNumbers, ParseTypes;
      var offset := off;
      ghost var found: seq<DataTypeDefinition> := [];
      ghost var whole := ParseTypes(types, 0, b[off..], false);
      PrependLaws(whole, [], []);
      for i := 0 to 64
        invariant off <= offset <= |b| && dataTypes == old(dataTypes) + found
        invariant whole == Prepend(found, ParseTypes(types, i, b[offset..], false))
      {
        ParseTypesStep(types, i, b[offset..]);
        if Nth(types, i) {
          if DataKindOf(i).None? {
            return Error;
          }
          var d := DataTypeDefinition(i, 0, 0);
          ghost var here := b[offset..];
          if IsDelay(i) {
            var ps :- VarintsAt(b, offset, 2);
            d := DataTypeDefinition(i, ps.0[0], ps.0[1]);
            offset := ps.1;
          }
          dataTypes := dataTypes + [d];
          PrependLaws(ParseTypes(types, i + 1, b[offset..], false), found, [d]);
          found := found + [d];
        }
      }
      ParseTypesEnd(types, b[offset..]);
      return Ok(offset);
    }
  }

  /** A parse result with ds put in front of its types. */
  function Prepend(ds: seq<DataTypeDefinition>, r: Outcome<(seq<DataTypeDefinition>, bytes)>): Outcome<(seq<DataTypeDefinition>, bytes)> {
    match r
    case Ok((found, rest)) => Ok((ds + found, rest))
    case _ => r
  }

  lemma PrependLaws(r: Outcome<(seq<DataTypeDefinition>, bytes)>, a: seq<DataTypeDefinition>, b: seq<DataTypeDefinition>)
    ensures Prepend([], r) == r
    ensures Prepend(a, Prepend(b, r)) == Prepend(a + b, r)
  {
    match r
    case Ok((found, rest)) =>
      assert [] + found == found && a + (b + found) == a + b + found;
    case _ =>
  }

  lemma ParseTypesStep(mask: u64, i: nat, b: bytes)
    requires i < 64
    ensures ParseTypes(mask, i, b, false) ==
            if !Nth(mask, i) then ParseTypes(mask, i + 1, b, false)
            else if DataKindOf(i).None? then Error
            else
              match ParseType(i, b, false)
              case Ok((d, b1)) => Prepend([d], ParseTypes(mask, i + 1, b1, false))
              case _ => Error
  {
    hide Nth, DataKindOf, ParseType;
  }

  lemma ParseTypesEnd(mask: u64, b: bytes)
    ensures ParseTypes(mask, 64, b, false) == Ok(([], b))
  {
  }

  function Head(d: TableDef): bytes {
    Enc(d.stickTableID) + EncBytes(d.name)
  }

  lemma HeadIs(d: TableDef)
    requires GoLength(d.name)
    ensures Head(d) == EncAll([d.stickTableID, |d.name|]) + d.name
  {
    hide Enc, EncAll;
    EncBytesParts(d.name);
    TwoNumbers(d.stickTableID, |d.name|);
  }

  lemma ParamsStep(ds: seq<DataTypeDefinition>, i: nat)
    requires i < |ds|
    ensures EncAll(Params(ds[i..])) == EncAll(ParamsOf(ds[i])) + EncAll(Params(ds[i + 1..]))
  {
    hide EncAll, IsDelay;
    ParamsCons(ds[i..]);
    ParamsOne(ds[i]);
    assert ds[i..][1..] == ds[i + 1..];
  }

  lemma ParamsTurn(ds: seq<DataTypeDefinition>, i: nat, done: bytes)
    requires i < |ds|
    ensures var piece := EncAll(ParamsOf(ds[i]));
            && done + EncAll(Params(ds[i..])) == done + piece + EncAll(Params(ds[i + 1..]))
            && |EncAll(Params(ds[i..]))| >= |piece|
  {
    hide EncAll, Params, ParamsOf;
    ParamsStep(ds, i);
    Regroup(done, EncAll(ParamsOf(ds[i])), EncAll(Params(ds[i + 1..])));
  }

  lemma PrefixOf(now: bytes, prefix: bytes, done: bytes)
    requires now == prefix + done
    ensures now[..|prefix|] == prefix
  {
  }

  lemma Regroup(a: bytes, b: bytes, c: bytes)
    ensures a + (b + c) == a + b + c
  {
  }

  lemma TwoNumbers(x: u64, y: u64)
    ensures EncAll([x, y]) == Enc(x) + Enc(y)
  {
    hide Enc;
    assert EncAll([y]) == Enc(y) + EncAll([]);
  }

  lemma EncodeParts(d: TableDef)
    ensures d.Encode() == Head(d) + EncAll(d.Shape()) + EncAll(Params(d.dataTypes))
    ensures |EncAll(d.Shape())| > 0
  {
    hide Enc, EncBytes, Params;
  }

  lemma ShapeIs(d: TableDef, types: u64)
    requires types == Mask(d.dataTypes)
    ensures d.Shape() == [ToU64(d.keyType), d.keyLength, types, d.expiry]
  {
  }

  lemma NothingToRead()
    ensures ParseNumbers([], 4, false) == Error
  {
  }
}
