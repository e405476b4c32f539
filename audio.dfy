/** The in-memory byte cursor that feeds sounds to the decoder
    (`SoundReader` in jmge/src/audio.rs).

    A reader shares the bytes of a loaded sound and keeps an `i64` position
    into them. `seek` moves the position and clamps it into [0, len]; `read`
    copies bytes from the position into the caller's buffer and advances it.
    Rust's `+` and `-` on `i64` panic on overflow in a debug build, and the
    model follows that; `copy_from_slice` panics when the two slices differ
    in length. */
module Audio {

  import opened Wrappers

  const I64Max := 0x7FFF_FFFF_FFFF_FFFF

  datatype SeekFrom = Start(offset: u64) | End(delta: i64) | Current(delta: i64)

  /** The position `seek` computes before clamping, in unbounded integers:
      `x as i64`, `len - x` or `pos + x`. */
  function SeekTarget(pos: int, len: nat, p: SeekFrom): int
  {
    match p
    case Start(x) => AsI64(x)
    case End(x) => len - x
    case Current(x) => pos + x
  }

  /** The new position clamped into [0, len]. */
  function Clamp(x: int, len: nat): (r: nat)
    ensures r <= len
    ensures 0 <= x <= len ==> r == x
    ensures x < 0 ==> r == 0
    ensures x > len ==> r == len
  {
    if x < 0 then 0 else if x > len then len else x
  }

  /** What `seek` returns from position pos in len bytes: a panic when the
      `i64` arithmetic overflows, and otherwise the clamped target. */
  function SeekOutcome(pos: int, len: nat, p: SeekFrom): (r: Outcome<nat>)
    requires len <= I64Max
  {
    var x := SeekTarget(pos, len, p);
    if p.End? && x > I64Max then Panic("attempt to subtract with overflow")
    else if p.Current? && x > I64Max then Panic("attempt to add with overflow")
    else Done(Clamp(x, len))
  }

  /** `seek` always lands inside the data and, from inside the data,
      panics only on an offset that overflows: `Start` and `End` with
      in-range arguments never do. */
  lemma SeekInside(pos: int, len: nat, p: SeekFrom)
    requires len <= I64Max && 0 <= pos <= len
    ensures SeekOutcome(pos, len, p).Done? ==> SeekOutcome(pos, len, p).value <= len
    ensures p.Start? ==> SeekOutcome(pos, len, p).Done?
    ensures p.End? && p.delta >= 0 ==> SeekOutcome(pos, len, p).Done?
    ensures p.Current? && p.delta <= 0 ==> SeekOutcome(pos, len, p).Done?
  {
  }

  /** Seeking to an offset inside the data goes exactly there, wherever
      the reader was; seeking to the end reaches len; and seeking by 0 from
      the current position stays put. */
  lemma SeekExact(pos: int, len: nat, x: nat)
    requires len <= I64Max && 0 <= pos <= len && x <= len
    ensures SeekOutcome(pos, len, Start(x)) == Done(x)
    ensures SeekOutcome(pos, len, End(0)) == Done(len)
    ensures SeekOutcome(pos, len, End(x)) == Done(len - x)
    ensures SeekOutcome(pos, len, Current(0)) == Done(pos)
  {
  }

  /** Seeking relative to the current position composes: two forward moves
      that stay inside the data are one move by their sum. */
  lemma SeekCurrentTwice(pos: int, len: nat, a: nat, b: nat)
    requires len <= I64Max && 0 <= pos && pos + a + b <= len
    ensures SeekOutcome(pos, len, Current(a)) == Done(pos + a)
    ensures SeekOutcome(pos + a, len, Current(b)) == SeekOutcome(pos, len, Current(a + b))
  {
  }

  /** An offset past the end is clamped to the end, and a negative target
      to the start. */
  lemma SeekClamps(pos: int, len: nat, p: SeekFrom)
    requires len <= I64Max && 0 <= pos <= len && SeekOutcome(pos, len, p).Done?
    ensures SeekTarget(pos, len, p) > len ==> SeekOutcome(pos, len, p).value == len
    ensures SeekTarget(pos, len, p) < 0 ==> SeekOutcome(pos, len, p).value == 0
  {
  }

  /** What `read` returns, as written, from position pos in len bytes into
      a buffer of bufLen bytes: 0 at the end or for an empty buffer; a panic
      from `copy_from_slice` when fewer than bufLen bytes remain (the copy
      length is cut to the bytes left, the buffer's is not); otherwise
      bufLen. */
  function ReadOutcome(pos: nat, len: nat, bufLen: nat): (r: Outcome<nat>)
    requires pos <= len
  {
    if pos == len || bufLen == 0 then Done(0)
    else if pos + bufLen > len then Panic("source slice length does not match destination slice length")
    else Done(bufLen)
  }

  /** As written, `read` panics exactly when some, but fewer than the
      buffer's length, bytes remain. */
  lemma ReadPanicsNearEnd(pos: nat, len: nat, bufLen: nat)
    requires pos <= len
    ensures ReadOutcome(pos, len, bufLen).Panic? <==> pos < len && len - pos < bufLen
    ensures ReadOutcome(pos, len, bufLen).Done? ==> ReadOutcome(pos, len, bufLen).value <= len - pos
  {
  }

  /** The input that shows it: three bytes, the reader at byte 1, a
      four-byte buffer. */
  lemma ReadPanicExample()
    ensures ReadOutcome(1, 3, 4).Panic?
    ensures ReadCount(1, 3, 4) == 2
  {
  }

  /** What `read` evidently intends (and what `std::io::Read` asks of it):
      as many bytes as fit, never more than remain. */
  function ReadCount(pos: nat, len: nat, bufLen: nat): (n: nat)
    requires pos <= len
    ensures n <= bufLen && pos + n <= len
    ensures n == 0 <==> pos == len || bufLen == 0
    ensures n == bufLen || pos + n == len
  {
    if pos == len || bufLen == 0 then 0
    else if pos + bufLen > len then len - pos
    else bufLen
  }

  /** The corrected `read` agrees with the one as written wherever that one
      does not panic. */
  lemma ReadCountAgrees(pos: nat, len: nat, bufLen: nat)
    requires pos <= len
    ensures ReadOutcome(pos, len, bufLen).Done? ==> ReadOutcome(pos, len, bufLen).value == ReadCount(pos, len, bufLen)
  {
  }

  /** The bytes that repeated corrected reads with a bufLen-byte buffer
      return, in order, until one returns 0. */
  function ReadAll(data: seq<u8>, pos: nat, bufLen: nat): (r: seq<u8>)
    requires pos <= |data| && bufLen > 0
    decreases |data| - pos
  {
    var n := ReadCount(pos, |data|, bufLen);
    if n == 0 then [] else data[pos..pos + n] + ReadAll(data, pos + n, bufLen)
  }

  /** Reading to the end with the corrected `read` yields exactly the rest
      of the data: nothing skipped, nothing repeated. */
  lemma {:induction false} ReadAllIsRest(data: seq<u8>, pos: nat, bufLen: nat)
    requires pos <= |data| && bufLen > 0
    ensures ReadAll(data, pos, bufLen) == data[pos..]
    decreases |data| - pos
  {
    var n := ReadCount(pos, |data|, bufLen);
    if n == 0 {
      assert pos == |data|;
    } else {
      var rest := ReadAll(data, pos + n, bufLen);
      assert ReadAll(data, pos, bufLen) == data[pos..pos + n] + rest;
      ReadAllIsRest(data, pos + n, bufLen);
      assert data[pos..] == data[pos..pos + n] + data[pos + n..];
    }
  }

  class SoundReader {
    /** The sound's bytes, shared with the `Sound` (an `Arc<Vec<u8>>`). */
    const data: seq<u8>
    var pos: int

    /** A `Vec` holds at most `isize::MAX` bytes, so the length fits an i64;
        the position stays inside the data. */
    ghost predicate Valid()
      reads this
    {
      |data| <= I64Max && 0 <= pos <= |data|
    }

    /** `SoundReader::new`: at the start of the data. */
    constructor (data: seq<u8>)
      requires |data| <= I64Max
      ensures this.data == data && pos == 0 && Valid()
    {
      this.data := data;
      pos := 0;
    }

    /** `seek`: the position computed from `p`, clamped into [0, len]. */
    method Seek(p: SeekFrom) returns (r: Outcome<u64>)
      requires Valid()
      modifies this
      ensures Valid()
      ensures r.Panic? <==> SeekOutcome(old(pos), |data|, p).Panic?
      ensures r.Panic? ==> r.msg == SeekOutcome(old(pos), |data|, p).msg
      ensures r.Done? ==> r.value == pos && Done(pos) == SeekOutcome(old(pos), |data|, p)
      ensures r.Panic? ==> pos == old(pos)
    {
      var len := |data|;
      var np: int;
      match p {
        case Start(x) =>
          np := AsI64(x);
        case End(x) =>
          np := len - x;
          if np > I64Max {
            return Panic("attempt to subtract with overflow");
          }
        case Current(x) =>
          np := pos + x;
          if np > I64Max {
            return Panic("attempt to add with overflow");
          }
      }
      pos := np;
      if pos < 0 {
        pos := 0;
      }
      if pos > len {
        pos := len;
      }
      return Done(pos);
    }

    /** `read`, as written: copies `buf.len()` bytes from the position and
        advances past them, or panics when fewer than that remain. */
    method Read(buf: array<u8>) returns (r: Outcome<nat>)
      requires Valid()
      modifies this, buf
      ensures Valid()
      ensures r == ReadOutcome(old(pos), |data|, buf.Length)
      ensures r.Done? && r.value > 0 ==>
                buf[..] == data[old(pos)..old(pos) + r.value] && pos == old(pos) + r.value
      ensures r.Done? && r.value == 0 ==> buf[..] == old(buf[..]) && pos == old(pos)
      ensures r.Panic? ==> buf[..] == old(buf[..]) && pos == old(pos)
    {
      var want := buf.Length;
      var len := |data|;
      if pos == len || want == 0 {
        return Done(0);
      }
      if pos + want > len {
        want := len - pos;
      }
      if buf.Length != want {
        return Panic("source slice length does not match destination slice length");
      }
      CopyInto(buf, data[pos..pos + want]);
      pos := pos + want;
      return Done(want);
    }

    /** `read` as evidently intended: the bytes that fit go to the front of
        the buffer, the rest of it is left alone, and the position advances
        past them. */
    method ReadFixed(buf: array<u8>) returns (n: nat)
      requires Valid()
      modifies this, buf
      ensures Valid()
      ensures n == ReadCount(old(pos), |data|, buf.Length) && pos == old(pos) + n
      ensures buf[..n] == data[old(pos)..pos] && buf[n..] == old(buf[n..])
    {
      var want := buf.Length;
      var len := |data|;
      if pos == len || want == 0 {
        return 0;
      }
      if pos + want > len {
        want := len - pos;
      }
      CopyInto(buf, data[pos..pos + want]);
      pos := pos + want;
      return want;
    }
  }

  /** `buf[..|src|].copy_from_slice(src)`: the front of the buffer becomes
      src, the rest is left alone. */
  method CopyInto(buf: array<u8>, src: seq<u8>)
    requires |src| <= buf.Length
    modifies buf
    ensures buf[..|src|] == src && buf[|src|..] == old(buf[|src|..])
  {
    var i := 0;
    while i < |src|
      invariant 0 <= i <= |src|
      invariant buf[..i] == src[..i] && buf[|src|..] == old(buf[|src|..])
    {
      buf[i] := src[i];
      i := i + 1;
      assert buf[..i] == buf[..i - 1] + [src[i - 1]];
    }
  }
}
