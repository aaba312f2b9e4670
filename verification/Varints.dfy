/**
 * HAProxy's variable-length integer (pkg/encoding/varint.go): an offset
 * numeration whose first byte holds four payload bits and whose later bytes
 * hold seven each.
 */
module Varints {
  import opened Common
  import opened Streams

  // ---------- specification ----------

  /** The code of a 64-bit value. */
  function Enc(v: u64): (s: bytes)
    ensures s != []
  {
    if v < 240 then [v] else [Low4(v)] + EncTail(High4(v))
  }

  function EncTail(i: nat): (s: bytes)
    ensures s != []
  {
    if i < 128 then [i] else [Low7(i)] + EncTail(High7(i))
  }

  /** byte(v) | 240 and (v - 240) >> 4: the first digit and what it leaves. */
  function Low4(v: nat): (d: byte)
    ensures d >= 240
  {
    240 + v % 16
  }

  function High4(v: nat): (h: nat) {
    if v < 240 then 0 else (v - 240) / 16
  }

  /** byte(i) | 128 and (i - 128) >> 7: a later digit and what it leaves. */
  function Low7(i: nat): (d: byte)
    ensures d >= 128
  {
    128 + i % 128
  }

  function High7(i: nat): (h: nat)
    ensures i >= 128 ==> h < i
  {
    if i < 128 then 0 else (i - 128) / 128
  }

  lemma FirstDigit(v: nat)
    requires v >= 240
    ensures Low4(v) + 16 * High4(v) == v
  {
  }

  lemma LaterDigit(i: nat)
    requires i >= 128
    ensures Low7(i) + 128 * High7(i) == i
  {
  }

  lemma FirstDigitUnique(d: byte, h: nat)
    requires d >= 240
    ensures Low4(d + 16 * h) == d && High4(d + 16 * h) == h
  {
    ModIs(d + 16 * h, 16, 15 + h, d - 240);
  }

  lemma LaterDigitUnique(d: byte, h: nat)
    requires d >= 128
    ensures Low7(d + 128 * h) == d && High7(d + 128 * h) == h
  {
    ModIs(d + 128 * h, 128, 1 + h, d - 128);
  }

  /** The unbounded number a byte string denotes, each byte weighted by its place. */
  function Value(s: bytes): nat
    requires s != []
  {
    s[0] + 16 * TailValue(s[1..])
  }

  function TailValue(s: bytes): nat {
    if s == [] then 0 else s[0] + 128 * TailValue(s[1..])
  }

  /** Length of the terminated code at the front of b, 0 when there is none. */
  function CodeLength(b: bytes): (n: nat)
    ensures n <= |b|
  {
    if b == [] then 0
    else if b[0] < 240 then 1
    else if TailLength(b[1..]) == 0 then 0 else 1 + TailLength(b[1..])
  }

  function TailLength(b: bytes): (n: nat)
    ensures n <= |b|
  {
    if b == [] then 0
    else if b[0] < 128 then 1
    else if TailLength(b[1..]) == 0 then 0 else 1 + TailLength(b[1..])
  }

  predicate Terminated(s: bytes) {
    s != [] && CodeLength(s) == |s|
  }

  /** What a decoder returns: the denoted number modulo 2^64 and the bytes used. */
  function Dec(b: bytes): (r: Outcome<(u64, nat)>)
    ensures r.Ok? ==> 1 <= r.value.1 <= |b|
    ensures !r.Panic?
  {
    var n := CodeLength(b);
    if n == 0 then Error else Ok((Value(b[..n]) % TWO_64, n))
  }

  /** The decoder at the front of b does not lose bits above the 64th. */
  predicate NoOverflow(b: bytes) {
    CodeLength(b) > 0 ==> Value(b[..CodeLength(b)]) < TWO_64
  }

  // ---------- the two halves of the bijection ----------

  lemma {:induction false} EncTailDecodes(i: nat, rest: bytes)
    ensures TailLength(EncTail(i) + rest) == |EncTail(i)|
    ensures TailValue(EncTail(i)) == i
  {
    hide Low7, High7;
    var s := EncTail(i);
    assert (s + rest)[0] == s[0];
    if i < 128 {
      assert TailValue(s[1..]) == 0;
    } else {
      EncTailDecodes(High7(i), rest);
      assert (s + rest)[1..] == EncTail(High7(i)) + rest;
      assert s[1..] == EncTail(High7(i));
      LaterDigit(i);
    }
  }

  lemma EncDecodes(v: u64, rest: bytes)
    ensures CodeLength(Enc(v) + rest) == |Enc(v)|
    ensures Value(Enc(v)) == v
  {
    hide Low4, High4, TailLength;
    var s := Enc(v);
    assert (s + rest)[0] == s[0];
    if v < 240 {
      assert TailValue(s[1..]) == 0;
    } else {
      EncTailDecodes(High4(v), rest);
      assert (s + rest)[1..] == EncTail(High4(v)) + rest;
      assert s[1..] == EncTail(High4(v));
      FirstDigit(v);
    }
  }

  /** Decoding inverts encoding, whatever follows the code. */
  lemma RoundTrip(v: u64, rest: bytes)
    ensures Dec(Enc(v) + rest) == Ok((v, |Enc(v)|))
    ensures Terminated(Enc(v)) && Value(Enc(v)) == v
    ensures NoOverflow(Enc(v) + rest)
  {
    hide Enc, CodeLength, Value;
    var s := Enc(v);
    EncDecodes(v, rest);
    EncDecodes(v, []);
    assert s + [] == s;
    assert (s + rest)[..|s|] == s;
  }

  lemma {:induction false} EncTailOfValue(s: bytes)
    requires s != [] && TailLength(s) == |s|
    ensures EncTail(TailValue(s)) == s
  {
    hide Low7, High7;
    if s[0] < 128 {
      assert s == [s[0]];
    } else {
      EncTailOfValue(s[1..]);
      LaterDigitUnique(s[0], TailValue(s[1..]));
    }
  }

  /** Encoding inverts decoding: no number has a second, redundant code. */
  lemma Canonical(s: bytes)
    requires Terminated(s) && Value(s) < TWO_64
    ensures Enc(Value(s)) == s
  {
    hide Low4, High4;
    if s[0] < 240 {
      assert s == [s[0]];
    } else {
      EncTailOfValue(s[1..]);
      FirstDigitUnique(s[0], TailValue(s[1..]));
    }
  }

  /** A terminated code survives decode-then-encode exactly when its number fits 64 bits. */
  lemma ReencodeIffNoOverflow(s: bytes)
    requires Terminated(s)
    ensures Enc(Value(s) % TWO_64) == s <==> Value(s) < TWO_64
  {
    if Value(s) < TWO_64 {
      Canonical(s);
    } else {
      RoundTrip(Value(s) % TWO_64, []);
    }
  }

  /** The smallest over-long code: it decodes to 0 although 0 has a one-byte code. */
  lemma OverflowExample()
    ensures var s := [240, 241, 254, 254, 254, 254, 254, 254, 254, 14];
            Terminated(s) && Value(s) == TWO_64 && Dec(s) == Ok((0, 10)) && Enc(0) != s
  {
    var s: bytes := [240, 241, 254, 254, 254, 254, 254, 254, 254, 14];
    var c := [s, s[1..], s[2..], s[3..], s[4..], s[5..], s[6..], s[7..], s[8..], s[9..], s[10..]];
    assert c[10] == [] && TailValue(c[9]) == 14 && TailLength(c[9]) == 1;
    assert TailValue(c[8]) == 254 + 128 * 14 && TailLength(c[8]) == 2;
    assert TailLength(c[7]) == 3 && TailLength(c[6]) == 4 && TailLength(c[5]) == 5;
    assert TailLength(c[4]) == 6 && TailLength(c[3]) == 7 && TailLength(c[2]) == 8 && TailLength(c[1]) == 9;
    assert s[..10] == s;
  }

  lemma {:induction false} TailLengthStable(a: bytes, b: bytes)
    requires TailLength(a) > 0
    ensures TailLength(a + b) == TailLength(a)
  {
    assert (a + b)[1..] == a[1..] + b;
    if a[0] >= 128 {
      TailLengthStable(a[1..], b);
    }
  }

  lemma CodeLengthStable(a: bytes, b: bytes)
    requires CodeLength(a) > 0
    ensures CodeLength(a + b) == CodeLength(a)
    ensures Dec(a + b) == Dec(a)
    ensures NoOverflow(a + b) == NoOverflow(a)
  {
    assert (a + b)[1..] == a[1..] + b;
    if a[0] >= 240 {
      TailLengthStable(a[1..], b);
    }
    assert (a + b)[..CodeLength(a)] == a[..CodeLength(a)];
  }

  /** No code is a proper prefix of another. */
  lemma PrefixFree(s: bytes, t: bytes)
    requires Terminated(s) && Terminated(t) && s <= t
    ensures s == t
  {
    assert t == s + t[|s|..];
    CodeLengthStable(s, t[|s|..]);
  }

  /** A code that is cut short decodes to nothing. */
  lemma CutCode(v: u64, k: nat)
    requires k < |Enc(v)|
    ensures Dec(Enc(v)[..k]) == Error
  {
    hide Enc;
    var s := Enc(v);
    RoundTrip(v, []);
    assert s == s[..k] + s[k..];
    if CodeLength(s[..k]) > 0 {
      CodeLengthStable(s[..k], s[k..]);
    }
  }

  /** Together: Enc is a bijection from 64-bit values onto the terminated codes that do not overflow. */
  lemma Bijection(s: bytes)
    ensures (exists v: u64 :: Enc(v) == s) <==> (Terminated(s) && Value(s) < TWO_64)
    ensures forall v: u64, w: u64 | Enc(v) == Enc(w) :: v == w
  {
    if Terminated(s) && Value(s) < TWO_64 {
      Canonical(s);
    }
    forall v: u64 | Enc(v) == s
      ensures Terminated(s) && Value(s) == v
    {
      RoundTrip(v, []);
    }
    forall v: u64, w: u64 | Enc(v) == Enc(w)
      ensures v == w
    {
      RoundTrip(v, []);
      RoundTrip(w, []);
    }
  }

  // ---------- lengths ----------

  lemma {:induction false} EncTailLength(i: nat, k: nat)
    requires i < Pow2(7 * k + 7)
    ensures |EncTail(i)| <= k + 1
    decreases k
  {
    Pow2Add(7 * k, 7);
    if i >= 128 {
      LaterDigit(i);
      if k > 0 {
        assert 7 * k == 7 * (k - 1) + 7;
        EncTailLength(High7(i), k - 1);
      }
    }
  }

  /** Ten bytes always hold a code. */
  lemma LengthBound(v: u64)
    ensures 1 <= |Enc(v)| <= 10
    ensures v < 240 <==> |Enc(v)| == 1
  {
    hide Low4, Pow2;
    if v >= 240 {
      FirstDigit(v);
      Pow2Of64();
      EncTailLength(High4(v), 8);
    }
  }

  // ---------- powers of two ----------

  function Pow2(k: nat): (p: nat)
    ensures p > 0
  {
    if k == 0 then 1 else 2 * Pow2(k - 1)
  }

  lemma {:induction false} Pow2Add(j: nat, k: nat)
    ensures Pow2(j + k) == Pow2(j) * Pow2(k)
    ensures Pow2(7) == 128
    decreases k
  {
    assert Pow2(7) == 2 * Pow2(6) == 4 * Pow2(5) == 8 * Pow2(4) == 16 * Pow2(3) == 128;
    if k > 0 {
      Pow2Add(j, k - 1);
    }
  }

  // ---------- the Go loops ----------

  /** Go's v << r on a uint64: bits past the 64th are lost. */
  function Shl64(v: u64, r: nat): u64 {
    if r >= 64 then 0 else v * Pow2(r) % TWO_64
  }

  lemma Shl64IsModular(v: u64, r: nat)
    ensures Shl64(v, r) == v * Pow2(r) % TWO_64
  {
    if r >= 64 {
      Pow2Add(r - 64, 64);
      Pow2Of64();
      MulAssoc(v, Pow2(r - 64), TWO_64);
      MultipleOfModulus(v * Pow2(r - 64));
    }
  }

  lemma Pow2Of64()
    ensures Pow2(64) == TWO_64 && Pow2(63) == TWO_63
  {
    assert Pow2(4) == 16;
    Pow2Add(4, 4);
    Pow2Add(8, 8);
    Pow2Add(16, 16);
    Pow2Add(32, 32);
  }

  lemma MulAssoc(a: int, b: int, c: int)
    ensures a * (b * c) == (a * b) * c
  {
  }

  lemma MultipleOfModulus(k: nat)
    ensures k * TWO_64 % TWO_64 == 0
  {
  }

  lemma {:induction false} TailValueAppend(s: bytes, x: byte)
    ensures TailValue(s + [x]) == TailValue(s) + x * Pow2(7 * |s|)
  {
    if s == [] {
      assert (s + [x])[1..] == [];
    } else {
      assert (s + [x])[1..] == s[1..] + [x];
      TailValueAppend(s[1..], x);
      Pow2Add(7 * (|s| - 1), 7);
      assert 7 * |s| == 7 * (|s| - 1) + 7;
      assert 128 * (x * Pow2(7 * (|s| - 1))) == x * Pow2(7 * |s|);
    }
  }

  /** One turn of either decoding loop. */
  lemma AccumulateByte(val: u64, head: byte, s: bytes, x: byte, r: nat)
    requires val == Partial(head, s)
    requires r == 4 + 7 * |s|
    ensures (val + Shl64(x, r)) % TWO_64 == Partial(head, s + [x])
  {
    var p, q := Pow2(7 * |s|), Pow2(r);
    assert q == 16 * p by {
      Pow2Add(4, 7 * |s|);
      assert Pow2(4) == 16;
    }
    var shifted := Shl64(x, r);
    assert shifted == x * q % TWO_64 by {
      Shl64IsModular(x, r);
    }
    TailValueAppend(s, x);
    Accumulate(head, TailValue(s), x, p, q, shifted, TailValue(s + [x]));
  }

  /** The running value of a decoding loop after the bytes [head] + s. */
  function Partial(head: byte, s: bytes): u64 {
    (head as int + 16 * TailValue(s)) % TWO_64
  }

  lemma Accumulate(head: nat, t: nat, x: nat, p: nat, q: nat, shifted: nat, next: nat)
    requires q == 16 * p && shifted == x * q % TWO_64 && next == t + x * p
    ensures ((head + 16 * t) % TWO_64 + shifted) % TWO_64 == (head + 16 * next) % TWO_64
  {
    MulAssoc(x, 16, p);
    MulAssoc(16, x, p);
    AddModular(head + 16 * t, x * q);
    assert head + 16 * next == head + 16 * t + x * q;
  }

  lemma AddModular(a: nat, b: nat)
    ensures (a % TWO_64 + b % TWO_64) % TWO_64 == (a + b) % TWO_64
  {
  }

  lemma {:induction false} TailLengthWhenTerminated(s: bytes, rest: bytes)
    requires forall j :: 0 <= j < |s| - 1 ==> s[j] >= 128
    ensures s != [] && s[|s| - 1] < 128 ==> TailLength(s + rest) == |s|
    ensures s != [] && s[|s| - 1] >= 128 ==> TailLength(s) == 0
    ensures s == [] ==> TailLength(s) == 0
  {
    if |s| > 1 {
      assert (s + rest)[1..] == s[1..] + rest;
      TailLengthWhenTerminated(s[1..], rest);
    }
  }

  lemma CodeLengthWhenTerminated(b: bytes, off: nat)
    requires 2 <= off <= |b| && b[0] >= 240
    requires forall j :: 1 <= j < off - 1 ==> b[j] >= 128
    requires b[off - 1] < 128
    ensures CodeLength(b) == off
  {
    assert b[1..] == b[1..off] + b[off..];
    TailLengthWhenTerminated(b[1..off], b[off..]);
  }

  lemma CodeLengthWhenCut(b: bytes)
    requires b != [] && b[0] >= 240
    requires forall j :: 1 <= j < |b| ==> b[j] >= 128
    ensures CodeLength(b) == 0
  {
    TailLengthWhenTerminated(b[1..], []);
  }

  /** Varint: decoding from a slice. */
  method Varint(b: bytes) returns (r: Outcome<(u64, nat)>)
    ensures r == Dec(b)
  {
    if |b| == 0 {
      return Error;
    }
    var val: u64 := b[0];
    var off := 1;
    if val < 240 {
      assert b[..1][1..] == [];
      return Ok((val, 1));
    }
    var shift := 4;
    while true
      invariant 1 <= off <= |b| && shift == 4 + 7 * (off - 1)
      invariant forall j :: 1 <= j < off ==> b[j] >= 128
      invariant val == Partial(b[0], b[1..off])
      decreases |b| - off
    {
      if off > |b| - 1 {
        CodeLengthWhenCut(b);
        return Error;
      }
      var v := b[off];
      AccumulateByte(val, b[0], b[1..off], v, shift);
      assert b[1..off + 1] == b[1..off] + [v];
      val := (val + Shl64(v, shift)) % TWO_64;
      off := off + 1;
      shift := shift + 7;
      if v < 128 {
        break;
      }
    }
    CodeLengthWhenTerminated(b, off);
    assert b[..off][1..] == b[1..off];
    return Ok((val, off));
  }

  /** ReadVarint: decoding byte by byte from a reader. */
  method ReadVarint(rd: ByteReader) returns (r: Outcome<u64>)
    modifies rd
    ensures match Dec(old(rd.data)) {
              case Ok((v, n)) => r == Ok(v) && rd.data == old(rd.data)[n..]
              case _ => r == Error && rd.data == []
            }
  {
    ghost var b := rd.data;
    var first := rd.ReadByte();
    if !first.Ok? {
      return Error;
    }
    var val: u64 := first.value;
    if val < 240 {
      assert b[..1][1..] == [];
      return Ok(val);
    }
    var shift := 4;
    ghost var off := 1;
    while true
      invariant 1 <= off <= |b| && shift == 4 + 7 * (off - 1)
      invariant rd.data == b[off..]
      invariant forall j :: 1 <= j < off ==> b[j] >= 128
      invariant val == Partial(b[0], b[1..off])
      decreases |b| - off
    {
      var next := rd.ReadByte();
      if !next.Ok? {
        CodeLengthWhenCut(b);
        return Error;
      }
      var v := next.value;
      AccumulateByte(val, b[0], b[1..off], v, shift);
      assert b[1..off + 1] == b[1..off] + [v];
      val := (val + Shl64(v, shift)) % TWO_64;
      off := off + 1;
      shift := shift + 7;
      if v < 128 {
        break;
      }
    }
    CodeLengthWhenTerminated(b, off);
    assert b[..off][1..] == b[1..off];
    return Ok(val);
  }

  /** byte(i) | 240 */
  method HeadByte(i: nat) returns (x: byte)
    ensures x == Low4(i)
  {
    LowBits(i);
    x := OrF0(i % 256);
  }

  /** byte(i) | 128 */
  method TailByte(i: nat) returns (x: byte)
    ensures x == Low7(i)
  {
    LowBits(i);
    x := Or80(i % 256);
  }

  lemma LowBits(i: nat)
    ensures i % 256 % 128 == i % 128 && i % 256 % 16 == i % 16
  {
    var q, r := i / 256, i % 256;
    ModIs(i, 128, 2 * q + r / 128, r % 128);
    ModIs(i, 16, 16 * q + r / 16, r % 16);
  }

  /** PutVarint into b[off..]: it succeeds exactly when the code fits there. */
  method PutVarint(b: array<byte>, off: nat, v: u64) returns (r: Outcome<nat>)
    requires off <= b.Length
    modifies b
    ensures r == if |Enc(v)| <= b.Length - off then Ok(|Enc(v)|) else Error
    ensures r.Ok? ==> b[..off + r.value] == old(b[..off]) + Enc(v)
    ensures b[..off] == old(b[..off])
  {
    hide Enc, Low4, High4;
    EncCases(v);
    ghost var prefix := b[..off];
    if b.Length - off == 0 {
      return Error;
    }
    if v < 240 {
      b[off] := v;
      assert b[..off + 1] == prefix + [v];
      return Ok(1);
    }
    var n := 0;
    var head := HeadByte(v);
    b[off + n] := head;
    n := n + 1;
    ghost var before := b[..off + n];
    assert before == prefix + [head];
    r := PutTail(b, off + n, High4(v));
    assert b[..off] == b[..off + n][..off];
    if r.Ok? {
      Extended(before, b[..off + n + r.value], prefix, [head], EncTail(High4(v)));
      r := Ok(n + r.value);
    }
  }

  lemma EncCases(v: u64)
    ensures Enc(v) == if v < 240 then [v] else [Low4(v)] + EncTail(High4(v))
  {
  }

  /** The loop of PutVarint over the seven-bit groups. */
  method PutTail(b: array<byte>, off: nat, v: nat) returns (r: Outcome<nat>)
    requires off <= b.Length
    modifies b
    ensures r == if |EncTail(v)| <= b.Length - off then Ok(|EncTail(v)|) else Error
    ensures r.Ok? ==> b[..off + r.value] == old(b[..off]) + EncTail(v)
    ensures b[..off] == old(b[..off])
  {
    hide Low7;
    var n, i := 0, v;
    ghost var done: bytes := [];
    while i >= 128
      invariant n == |done| <= b.Length - off
      invariant EncTail(v) == done + EncTail(i)
      invariant b[..off + n] == old(b[..off]) + done
      decreases i
    {
      if n > b.Length - off - 1 {
        assert b[..off] == old(b[..off]);
        return Error;
      }
      var next := TailByte(i);
      b[off + n] := next;
      done := done + [next];
      n := n + 1;
      i := High7(i);
    }
    assert b[..off] == b[..off + n][..off];
    if n > b.Length - off - 1 {
      return Error;
    }
    b[off + n] := i;
    n := n + 1;
    return Ok(n);
  }

  /** varintLen: the length computed by the action writer before it grows. */
  method VarintLen(v: u64) returns (n: nat)
    ensures n == |Enc(v)|
  {
    if v < 240 {
      return 1;
    }
    n := 2;
    var w: nat := High4(v);
    while w >= 128
      invariant |Enc(v)| == n - 1 + |EncTail(w)|
      decreases w
    {
      w := High7(w);
      n := n + 1;
    }
  }

  // ---------- numbers in a row ----------

  function EncAll(ns: seq<u64>): bytes {
    if ns == [] then [] else Enc(ns[0]) + EncAll(ns[1..])
  }

  /** A number and the unread rest. With exact set, a code that overflows 64 bits is refused. */
  function ParseNumber(b: bytes, exact: bool): (r: Outcome<(u64, bytes)>)
    ensures r.Ok? ==> |r.value.1| < |b|
    ensures !r.Panic?
  {
    match Dec(b)
    case Ok((v, n)) => if exact && !NoOverflow(b) then Error else Ok((v, b[n..]))
    case _ => Error
  }

  lemma NumberRoundTrip(v: u64, rest: bytes, exact: bool)
    ensures ParseNumber(Enc(v) + rest, exact) == Ok((v, rest))
  {
    hide Enc, Dec, NoOverflow;
    RoundTrip(v, rest);
    DropPrefix(Enc(v), rest);
  }

  /** k numbers in a row and the unread rest. */
  function ParseNumbers(b: bytes, k: nat, exact: bool): (r: Outcome<(seq<u64>, bytes)>)
    ensures r.Ok? ==> |r.value.0| == k && |r.value.1| <= |b|
    ensures !r.Panic?
  {
    if k == 0 then Ok(([], b))
    else
      var (v, b1) :- ParseNumber(b, exact);
      var (vs, rest) :- ParseNumbers(b1, k - 1, exact);
      Ok(([v] + vs, rest))
  }

  lemma {:induction false} NumbersRoundTrip(ns: seq<u64>, rest: bytes, exact: bool)
    ensures ParseNumbers(EncAll(ns) + rest, |ns|, exact) == Ok((ns, rest))
  {
    hide Enc, ParseNumber;
    if ns == [] {
      assert EncAll(ns) + rest == rest;
    } else {
      var tail := EncAll(ns[1..]) + rest;
      assert EncAll(ns) + rest == Enc(ns[0]) + tail;
      NumberRoundTrip(ns[0], tail, exact);
      NumbersRoundTrip(ns[1..], rest, exact);
      assert [ns[0]] + ns[1..] == ns;
    }
  }

  /** What a strict read accepts is exactly the code of the number it returns. */
  lemma NumberParsed(b: bytes, exact: bool)
    requires ParseNumber(b, exact).Ok?
    ensures exact ==> b == Enc(ParseNumber(b, exact).value.0) + ParseNumber(b, exact).value.1
  {
    hide Enc, Value;
    if exact {
      var n := CodeLength(b);
      assert b == b[..n] + b[n..];
      CodePrefix(b);
      Canonical(b[..n]);
    }
  }

  lemma {:induction false} TailPrefix(b: bytes)
    requires TailLength(b) > 0
    ensures TailLength(b[..TailLength(b)]) == TailLength(b)
  {
    var n := TailLength(b);
    if b[0] >= 128 {
      TailPrefix(b[1..]);
      assert b[..n][1..] == b[1..][..n - 1];
    }
  }

  /** The code found at the front of b is itself a terminated code. */
  lemma CodePrefix(b: bytes)
    requires CodeLength(b) > 0
    ensures Terminated(b[..CodeLength(b)])
  {
    var n := CodeLength(b);
    if b[0] >= 240 {
      TailPrefix(b[1..]);
      assert b[..n][1..] == b[1..][..n - 1];
    }
  }

  lemma {:induction false} NumbersParsed(b: bytes, k: nat, exact: bool)
    requires ParseNumbers(b, k, exact).Ok?
    ensures exact ==> b == EncAll(ParseNumbers(b, k, exact).value.0) + ParseNumbers(b, k, exact).value.1
    decreases k
  {
    hide Enc, ParseNumber;
    if k == 0 {
      assert b == [] + b;
    } else {
      NumberParsed(b, exact);
      var (v, b1) := ParseNumber(b, exact).value;
      NumbersParsed(b1, k - 1, exact);
      var vs := ParseNumbers(b1, k - 1, exact).value.0;
      assert ([v] + vs)[1..] == vs;
    }
  }

  /** More input after a number does not change it. */
  lemma NumberStable(b: bytes, more: bytes)
    ensures match ParseNumber(b, false)
            case Ok((v, rest)) => ParseNumber(b + more, false) == Ok((v, rest + more))
            case _ => true
  {
    hide Value;
    if CodeLength(b) > 0 {
      CodeLengthStable(b, more);
      assert (b + more)[CodeLength(b)..] == b[CodeLength(b)..] + more;
    }
  }

  lemma {:induction false} NumbersStable(b: bytes, k: nat, more: bytes)
    ensures match ParseNumbers(b, k, false)
            case Ok((vs, rest)) => ParseNumbers(b + more, k, false) == Ok((vs, rest + more))
            case _ => true
    decreases k
  {
    hide ParseNumber;
    if k > 0 {
      NumberStable(b, more);
      if ParseNumber(b, false).Ok? {
        NumbersStable(ParseNumber(b, false).value.1, k - 1, more);
      }
    }
  }

  lemma {:induction false} EncAllAppend(ns: seq<u64>, ms: seq<u64>)
    ensures EncAll(ns + ms) == EncAll(ns) + EncAll(ms)
  {
    hide Enc;
    if ns == [] {
      assert ns + ms == ms;
    } else {
      assert (ns + ms)[1..] == ns[1..] + ms;
      EncAllAppend(ns[1..], ms);
    }
  }

  lemma EncAllThree(x: u64, y: u64, z: u64)
    ensures EncAll([x, y, z]) == Enc(x) + Enc(y) + Enc(z)
  {
    hide Enc;
    assert EncAll([z]) == Enc(z) + EncAll([]);
  }

  /** PutVarint once for each number, stopping at the first error. */
  method PutVarints(b: array<byte>, off: nat, ns: seq<u64>) returns (r: Outcome<nat>)
    requires off <= b.Length
    modifies b
    ensures r == if |EncAll(ns)| <= b.Length - off then Ok(|EncAll(ns)|) else Error
    ensures r.Ok? ==> b[..off + r.value] == old(b[..off]) + EncAll(ns)
    ensures b[..off] == old(b[..off])
  {
    hide Enc;
    ghost var prefix, done := b[..off], [];
    var offset := off;
    for i := 0 to |ns|
      invariant off <= offset <= b.Length && |prefix| == off
      invariant EncAll(ns) == done + EncAll(ns[i..])
      invariant b[..offset] == prefix + done
    {
      ghost var before := b[..offset];
      var n := PutVarint(b, offset, ns[i]);
      if n.IsFailure() {
        assert b[..off] == b[..offset][..off];
        return n.PropagateFailure();
      }
      offset := offset + n.value;
      Extended(before, b[..offset], prefix, done, Enc(ns[i]));
      assert done + EncAll(ns[i..]) == done + Enc(ns[i]) + EncAll(ns[i..][1..]);
      assert ns[i..][1..] == ns[i + 1..];
      done := done + Enc(ns[i]);
    }
    assert done + EncAll([]) == done;
    assert b[..off] == b[..offset][..off];
    return Ok(offset - off);
  }

  /** Varint(b[offset:]): the number and the offset after it. */
  method VarintAt(b: bytes, offset: nat) returns (r: Outcome<(u64, nat)>)
    requires offset <= |b|
    ensures match ParseNumber(b[offset..], false)
            case Ok((v, rest)) => r.Ok? && r.value.0 == v && offset <= r.value.1 <= |b| && b[r.value.1..] == rest
            case _ => r == Error
  {
    hide Dec;
    var d :- Varint(b[offset..]);
    assert b[offset..][d.1..] == b[offset + d.1..];
    return Ok((d.0, offset + d.1));
  }

  /** Varint k times in a row from b[offset:]: the numbers and the offset after them. */
  method VarintsAt(b: bytes, offset: nat, k: nat) returns (r: Outcome<(seq<u64>, nat)>)
    requires offset <= |b|
    ensures match ParseNumbers(b[offset..], k, false)
            case Ok((ns, rest)) => r.Ok? && r.value.0 == ns && offset <= r.value.1 <= |b| && b[r.value.1..] == rest
            case _ => r == Error
    decreases k
  {
    hide ParseNumber;
    if k == 0 {
      return Ok(([], offset));
    }
    var v :- VarintAt(b, offset);
    var vs :- VarintsAt(b, v.1, k - 1);
    return Ok(([v.0] + vs.0, vs.1));
  }
}
