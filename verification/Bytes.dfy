/** Machine integers, little-endian fields and the reads that consume them. */
module Bytes {
  type byte = x: int | 0 <= x < 0x100
  type u16 = x: int | 0 <= x < 0x1_0000
  type u32 = x: int | 0 <= x < U32_RANGE

  const U32_RANGE := 0x1_0000_0000

  datatype Option<+T> = None | Some(value: T) {
    predicate IsFailure() {
      None?
    }

    function PropagateFailure<U>(): Option<U>
      requires None?
    {
      None
    }

    function Extract(): T
      requires Some?
    {
      value
    }
  }

  function LE16(n: u16): (b: seq<byte>)
    ensures |b| == 2 && FromLE16(b) == n
  {
    [n % 0x100, n / 0x100]
  }

  function FromLE16(b: seq<byte>): (n: u16)
    requires |b| == 2
  {
    var (lo: int, hi: int) := (b[0], b[1]);
    lo + 0x100 * hi
  }

  function LE32(n: u32): (b: seq<byte>)
    ensures |b| == 4 && FromLE32(b) == n
  {
    var b := LE16(n % 0x1_0000) + LE16(n / 0x1_0000);
    assert b[..2] == LE16(n % 0x1_0000) && b[2..] == LE16(n / 0x1_0000);
    b
  }

  function FromLE32(b: seq<byte>): (n: u32)
    requires |b| == 4
  {
    var hi: int := FromLE16(b[2..]);
    FromLE16(b[..2]) + 0x1_0000 * hi
  }

  /** The lowest byte comes first. */
  lemma LowestFirst(b: seq<byte>)
    requires |b| == 4
    ensures var (b0: int, b1: int, b2: int, b3: int) := (b[0], b[1], b[2], b[3]);
            FromLE32(b) == b0 + 0x100 * b1 + 0x1_0000 * b2 + 0x100_0000 * b3
    ensures LE32(FromLE32(b)) == b
  {
    LE32OfFrom(b);
  }

  lemma LE16OfFrom(b: seq<byte>)
    requires |b| == 2
    ensures LE16(FromLE16(b)) == b
  {
  }

  lemma LE32OfFrom(b: seq<byte>)
    requires |b| == 4
    ensures LE32(FromLE32(b)) == b
  {
    LE16OfFrom(b[..2]);
    LE16OfFrom(b[2..]);
    var (lo: int, hi: int) := (FromLE16(b[..2]), FromLE16(b[2..]));
    assert FromLE32(b) % 0x1_0000 == lo && FromLE32(b) / 0x1_0000 == hi;
    assert b == b[..2] + b[2..];
  }

  /** What a fixed-width read leaves: the value and the bytes after it, or nothing when too few bytes remain. */
  function ReadU16(b: seq<byte>): Option<(u16, seq<byte>)> {
    if |b| >= 2 then Some((FromLE16(b[..2]), b[2..])) else None
  }

  function ReadU32(b: seq<byte>): Option<(u32, seq<byte>)> {
    if |b| >= 4 then Some((FromLE32(b[..4]), b[4..])) else None
  }

  lemma SliceOfSlice(b: seq<byte>, at: nat, n: nat, i: nat, j: nat)
    requires i <= j <= n && at + n <= |b|
    ensures b[at..at + n][i..j] == b[at + i..at + j]
  {
    var (x, y) := (b[at..at + n][i..j], b[at + i..at + j]);
    forall k | 0 <= k < |x|
      ensures x[k] == y[k]
    {
      assert b[at..at + n][i + k] == b[at + (i + k)];
    }
  }

  lemma ReadU16Of(n: u16, rest: seq<byte>)
    ensures ReadU16(LE16(n) + rest) == Some((n, rest))
  {
    assert (LE16(n) + rest)[..2] == LE16(n);
    assert (LE16(n) + rest)[2..] == rest;
  }

  lemma ReadU32Of(n: u32, rest: seq<byte>)
    ensures ReadU32(LE32(n) + rest) == Some((n, rest))
  {
    assert (LE32(n) + rest)[..4] == LE32(n);
    assert (LE32(n) + rest)[4..] == rest;
  }

  lemma WroteU16(b: seq<byte>)
    requires |b| >= 2
    ensures b == LE16(ReadU16(b).value.0) + ReadU16(b).value.1
  {
    LE16OfFrom(b[..2]);
  }

  lemma WroteU32(b: seq<byte>)
    requires |b| >= 4
    ensures b == LE32(ReadU32(b).value.0) + ReadU32(b).value.1
  {
    LE32OfFrom(b[..4]);
  }
}
