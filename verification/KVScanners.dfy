/** The key/value parser as the source's mutable scanner (pkg/encoding/kvscanner.go). */
module KVScanners {
  import opened Common
  import opened Varints
  import opened Encoding
  import opened KeyValue

  class KVEntry {
    var name: bytes
    var byteVal: bytes
    var intVal: i64
    var dataType: byte
    var boolVar: bool

    constructor ()
      ensures View() == EMPTY_ENTRY
    {
      name, byteVal, intVal, dataType, boolVar := [], [], 0, 0, false;
    }

    function View(): Entry
      reads this
    {
      Entry(name, dataType, byteVal, intVal, boolVar)
    }

    method Reset()
      modifies this
      ensures View() == EMPTY_ENTRY
    {
      name, byteVal, intVal, dataType, boolVar := [], [], 0, 0, false;
    }

    /** Byte-by-byte comparison of the name with s. */
    method NameEquals(s: bytes) returns (eq: bool)
      ensures eq <==> name == s
    {
      var n := |name|;
      if n != |s| {
        return false;
      }
      for i := 0 to n
        invariant name[..i] == s[..i]
      {
        if name[i] != s[i] {
          return false;
        }
      }
      assert name[..n] == name && s[..n] == s;
      return true;
    }
  }

  /**
   * One call of Next on a scanner with this buffer and error flag: an integer entry clears an
   * earlier error. None when the call panics.
   */
  function NextTurn(buf: bytes, err: bool): (r: Option<(bytes, bool)>)
    ensures r.Some? ==> |r.value.0| <= |buf|
  {
    match ScanStep(buf)
    case Scanned(x, rest) => Some((rest, err && !x.IsInteger()))
    case Exhausted => Some(([], err))
    case Failed(rest) => Some((rest, true))
    case Crash => None
  }

  /** The error flag at the end of a `for Next(e)` loop. */
  function DrainFlag(buf: bytes, err: bool): Outcome<bool>
    decreases |buf|
  {
    match ScanStep(buf)
    case Scanned(x, rest) => DrainFlag(rest, err && !x.IsInteger())
    case Exhausted => Ok(err)
    case Failed(_) => Ok(true)
    case Crash => Panic
  }

  /** DrainFlag by the kind of its first step. */
  lemma DrainFlagCases(buf: bytes, err: bool)
    ensures match ScanStep(buf)
            case Scanned(x, rest) => DrainFlag(buf, err) == DrainFlag(rest, err && !x.IsInteger())
            case Exhausted => DrainFlag(buf, err) == Ok(err)
            case Failed(_) => DrainFlag(buf, err) == Ok(true)
            case Crash => DrainFlag(buf, err) == Panic
  {
  }

  /** Without an earlier error the loop ends well exactly when everything scans. */
  lemma {:induction false} DrainFlagClean(buf: bytes)
    ensures DrainFlag(buf, false) ==
            match ScanAll(buf).1
            case Exhausted => Ok(false)
            case Crash => Panic
            case _ => Ok(true)
    decreases |buf|
  {
    hide ScanStep;
    if ScanStep(buf).Scanned? {
      DrainFlagClean(ScanStep(buf).rest);
    }
  }

  /** After an earlier error it ends well exactly when everything scans and an integer entry comes up. */
  lemma {:induction false} DrainFlagAfterError(buf: bytes)
    ensures DrainFlag(buf, true) == Ok(false) <==> ScanAll(buf).1.Exhausted? && HasInteger(ScanAll(buf).0)
    decreases |buf|
  {
    hide ScanStep;
    match ScanStep(buf)
    case Scanned(x, rest) =>
      if x.IsInteger() {
        DrainFlagClean(rest);
      } else {
        DrainFlagAfterError(rest);
      }
      IntegerCons(x, ScanAll(rest).0);
    case _ =>
  }

  predicate HasInteger(es: seq<Entry>) {
    exists e <- es :: e.IsInteger()
  }

  lemma IntegerCons(x: Entry, es: seq<Entry>)
    ensures HasInteger([x] + es) <==> x.IsInteger() || HasInteger(es)
  {
    assert x in [x] + es && forall e <- es :: e in [x] + es;
  }

  /** A number of calls of Next; None when one of them panics. */
  function ReadTurns(buf: bytes, err: bool, asks: nat): Option<(bytes, bool)>
    decreases asks
  {
    if asks == 0 then Some((buf, err))
    else
      match ReadTurns(buf, err, asks - 1)
      case None => None
      case Some((b, e)) => NextTurn(b, e)
  }

  /** The same, taking the first call first. */
  lemma {:induction false} ReadTurnsFirst(buf: bytes, err: bool, asks: nat)
    requires asks > 0
    ensures ReadTurns(buf, err, asks) ==
            match NextTurn(buf, err)
            case None => None
            case Some((b, e)) => ReadTurns(b, e, asks - 1)
    decreases asks
  {
    hide NextTurn;
    if asks > 1 {
      ReadTurnsFirst(buf, err, asks - 1);
    } else {
      assert ReadTurns(buf, err, 0) == Some((buf, err));
    }
  }

  /**
   * After any number of reads, failing ones included, the scanner holds a suffix of what it was
   * given, so that cutting the outer buffer by remaining length, as MessageScanner.Next does,
   * resumes exactly at the unread bytes.
   */
  lemma {:induction false} ReadTurnsLeaveSuffix(buf: bytes, err: bool, asks: nat)
    ensures match ReadTurns(buf, err, asks)
            case Some((b, _)) => IsSuffix(b, buf)
            case None => true
    decreases asks
  {
    hide NextTurn, IsSuffix;
    if asks == 0 {
      SuffixLaws(buf, buf, buf);
    } else {
      ReadTurnsLeaveSuffix(buf, err, asks - 1);
      match ReadTurns(buf, err, asks - 1) {
        case Some((b, e)) =>
          TurnLeavesSuffix(b, e);
          match NextTurn(b, e) {
            case Some((c, _)) => SuffixLaws(c, b, buf);
            case None =>
          }
        case None =>
      }
    }
  }

  predicate IsSuffix(b: bytes, buf: bytes) {
    |b| <= |buf| && b == buf[|buf| - |b|..]
  }

  lemma SuffixLaws(c: bytes, b: bytes, buf: bytes)
    ensures IsSuffix(buf, buf)
    ensures IsSuffix(c, b) && IsSuffix(b, buf) ==> IsSuffix(c, buf)
  {
  }

  lemma TurnLeavesSuffix(buf: bytes, err: bool)
    ensures match NextTurn(buf, err)
            case Some((b, _)) => IsSuffix(b, buf)
            case None => true
  {
    hide DecBytes, ScanValue;
  }

  class KVScanner {
    var lastErr: bool
    var buf: bytes
    var left: int

    constructor (b: bytes, count: int)
      ensures buf == b && left == count && !lastErr
    {
      buf, left, lastErr := b, count, false;
    }

    function RemainingBuf(): nat
      reads this
    {
      |buf|
    }

    /**
     * One step, whatever the declared count: left is decremented and never tested.
     * A successful integer entry also clears an earlier error.
     */
    method Next(e: KVEntry) returns (r: Outcome<bool>)
      modifies this, e
      ensures match ScanStep(old(buf))
              case Scanned(x, rest) => r == Ok(true) && e.View() == x
              case Exhausted => r == Ok(false) && e.View() == old(e.View())
              case Failed(_) => r == Ok(false)
              case Crash => r == Panic
      ensures match NextTurn(old(buf), old(lastErr))
              case Some((rest, err)) => !r.Panic? && buf == rest && lastErr == err
              case None => r == Panic
      ensures left == old(left) - if old(buf) == [] then 0 else 1
    {
      hide DecBytes, ScanValue;
      if |buf| == 0 {
        return Ok(false);
      }
      e.Reset();
      left := left - 1;

      ghost var start := buf;
      var name := TakeBytes(buf);
      if !name.Ok? {
        lastErr := name.Error? || lastErr;
        return if name.Error? then Ok(false) else Panic;
      }
      e.name, buf := name.value.0, name.value.1;
      if |buf| == 0 {
        return Panic;
      }
      ghost var t := buf[0];
      e.dataType := buf[0] % 16;
      e.boolVar := HasBit(buf[0], FLAG_TRUE);
      buf := buf[1..];
      assert ScanStep(start) == ScanValue(e.name, t, buf);
      r := NextValue(e, t);
    }

    /** The switch over the data type in Next. */
    method NextValue(e: KVEntry, ghost t: byte) returns (r: Outcome<bool>)
      requires e.View() == Entry(e.name, t % 16, [], 0, t / 16 % 2 == 1)
      modifies this, e
      ensures match ScanValue(old(e.name), t, old(buf))
              case Scanned(x, rest) => r == Ok(true) && buf == rest && e.View() == x && lastErr == (old(lastErr) && !x.IsInteger())
              case Failed(rest) => r == Ok(false) && buf == rest && lastErr
              case _ => r == Panic
      ensures left == old(left)
    {
      hide Dec, DecBytes;
      if e.dataType == TYPE_NULL || e.dataType == TYPE_BOOL {
      } else if e.dataType == TYPE_INT32 || e.dataType == TYPE_INT64 || e.dataType == TYPE_UINT32 || e.dataType == TYPE_UINT64 {
        var d := Varint(buf);
        lastErr := !d.Ok?;
        if lastErr {
          return Ok(false);
        }
        e.intVal := ToI64(d.value.0);
        buf := buf[d.value.1..];
      } else if e.dataType == TYPE_IPV4 {
        if |buf| < 4 {
          return Panic;
        }
        e.byteVal := buf[..4];
        buf := buf[4..];
      } else if e.dataType == TYPE_IPV6 {
        if |buf| < 16 {
          return Panic;
        }
        e.byteVal := buf[..16];
        buf := buf[16..];
      } else if e.dataType == TYPE_STRING || e.dataType == TYPE_BINARY {
        var v := TakeBytes(buf);
        if !v.Ok? {
          lastErr := v.Error? || lastErr;
          return if v.Error? then Ok(false) else Panic;
        }
        e.byteVal, buf := v.value.0, v.value.1;
      } else {
        lastErr := true;
        return Ok(false);
      }
      return Ok(true);
    }

    /**
     * Reads to the end of the buffer, not to the end of the declared entries: success means that
     * nothing at all is left. With nothing left to read, an earlier error goes unreported. The
     * loop terminates because every entry shrinks the buffer.
     */
    method Discard() returns (r: Outcome<()>)
      modifies this
      ensures r.Ok? ==> buf == []
      ensures r == if old(buf) == [] then Ok(()) else
                match DrainFlag(old(buf), old(lastErr))
                case Ok(false) => Ok(())
                case Panic => Panic
                case _ => Error
    {
      hide ScanStep;
      if RemainingBuf() == 0 {
        return Ok(());
      }
      var e := new KVEntry();
      while true
        invariant DrainFlag(buf, lastErr) == DrainFlag(old(buf), old(lastErr))
        decreases |buf|
      {
        var more := Next(e);
        if more.Panic? {
          return Panic;
        }
        if more == Ok(false) {
          break;
        }
      }
      return if lastErr then Error else Ok(());
    }
  }
}
