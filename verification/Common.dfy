/** Machine words, byte strings and results shared by all modules. */
module Common {
  type byte = x: int | 0 <= x < 0x100
  type u32 = x: int | 0 <= x < 0x1_0000_0000
  type i32 = x: int | -0x8000_0000 <= x < 0x8000_0000
  type u64 = x: int | 0 <= x < 0x1_0000_0000_0000_0000
  type i64 = x: int | -0x8000_0000_0000_0000 <= x < 0x8000_0000_0000_0000

  const TWO_31: nat := 0x8000_0000
  const TWO_32: nat := 0x1_0000_0000
  const TWO_63: nat := 0x8000_0000_0000_0000
  const TWO_64: nat := 0x1_0000_0000_0000_0000

  type bytes = seq<byte>

  datatype Option<+T> = None | Some(value: T)

  /** How a Go call ends: with a value, with a non-nil error, or with a run-time panic. */
  datatype Outcome<+T> = Ok(value: T) | Error | Panic {
    predicate IsFailure() {
      !Ok?
    }

    function PropagateFailure<U>(): Outcome<U>
      requires IsFailure()
    {
      if Error? then Error else Panic
    }

    function Extract(): T
      requires Ok?
    {
      value
    }

    function GetOr(default: T): T {
      if Ok? then value else default
    }
  }

  // ---------- conversions between integer widths ----------

  function ToU64(v: int): u64 {
    v % TWO_64
  }

  function ToI64(v: u64): i64 {
    if v < TWO_63 then v else v - TWO_64
  }

  function ToU32(v: int): u32 {
    v % TWO_32
  }

  function ToI32(v: int): i32 {
    var w := v % TWO_32;
    if w < TWO_31 then w else w - TWO_32
  }

  // ---------- bit operations ----------

  /** x | w where w is a power of two. */
  function SetBit(x: nat, w: nat): nat
    requires w > 0
  {
    if x / w % 2 == 1 then x else x + w
  }

  /** (x & w) > 0 where w is a power of two. */
  predicate HasBit(x: nat, w: nat)
    requires w > 0
  {
    x / w % 2 == 1
  }

  /** x | 0xF0: the high nibble becomes all ones, the low one stays. */
  function OrF0(x: byte): byte {
    240 + x % 16
  }

  /** x | 0x80: the top bit becomes one, the other seven stay. */
  function Or80(x: byte): byte {
    128 + x % 128
  }

  lemma ModIs(x: int, d: int, q: int, r: int)
    requires d > 0 && 0 <= r < d && x == q * d + r
    ensures x / d == q && x % d == r
  {
    var e := x / d - q;
    assert e * d == r - x % d;
    assert e >= 1 ==> e * d >= d;
    assert e <= -1 ==> e * d <= -d;
  }

  // ---------- big-endian 32-bit words ----------

  function BE32(v: u32): (s: bytes)
    ensures |s| == 4
  {
    [v / 256 / 256 / 256, v / 256 / 256 % 256, v / 256 % 256, v % 256]
  }

  function FromBE32(s: bytes): u32
    requires |s| >= 4
  {
    256 * (256 * (256 * (s[0] as int) + s[1]) + s[2]) + s[3]
  }

  lemma BE32RoundTrip(v: u32, rest: bytes)
    ensures FromBE32(BE32(v) + rest) == v
    ensures (BE32(v) + rest)[4..] == rest
  {
    var s := BE32(v) + rest;
    assert s[0] == BE32(v)[0] && s[1] == BE32(v)[1] && s[2] == BE32(v)[2] && s[3] == BE32(v)[3];
    var a := v / 256;
    var b := a / 256;
    assert v == 256 * a + v % 256 && a == 256 * b + a % 256 && b == 256 * (b / 256) + b % 256;
  }

  method PutUint32(b: array<byte>, off: nat, v: u32)
    requires off + 4 <= b.Length
    modifies b
    ensures b[..off + 4] == old(b[..off]) + BE32(v)
  {
    var s := BE32(v);
    b[off], b[off + 1], b[off + 2], b[off + 3] := s[0], s[1], s[2], s[3];
  }

  // ---------- byte strings ----------

  /** Go's copy(b[off:], s): writes what fits and reports how much that was. */
  method Copy(b: array<byte>, off: nat, s: bytes) returns (n: nat)
    requires off <= b.Length
    modifies b
    ensures n == Min(|s|, b.Length - off)
    ensures b[..off + n] == old(b[..off]) + s[..n]
  {
    n := Min(|s|, b.Length - off);
    forall i | 0 <= i < n {
      b[off + i] := s[i];
    }
  }

  function Min(x: int, y: int): int {
    if x < y then x else y
  }

  function Concat(parts: seq<bytes>): bytes {
    if parts == [] then [] else parts[0] + Concat(parts[1..])
  }

  lemma {:induction false} ConcatAppend(a: seq<bytes>, b: seq<bytes>)
    ensures Concat(a + b) == Concat(a) + Concat(b)
  {
    if a == [] {
      assert a + b == b;
    } else {
      assert (a + b)[1..] == a[1..] + b;
      ConcatAppend(a[1..], b);
    }
  }

  /** What is left of a + b after dropping a. */
  lemma DropPrefix(a: bytes, b: bytes)
    ensures (a + b)[|a|..] == b && (a + b)[..|a|] == a
  {
  }

  /** Appending to an array: what is now before the write position, and what was there before. */
  lemma Extended(before: bytes, now: bytes, prefix: bytes, done: bytes, piece: bytes)
    requires before == prefix + done && now == before + piece
    ensures now == prefix + (done + piece) && now[..|prefix|] == prefix
  {
  }
}
