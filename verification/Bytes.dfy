/** Bytes, fixed-width integers and the little-endian layout that every wire
    format of the runtime uses. */
module Bytes {
  type byte = x: int | 0 <= x < 0x100
  type u16 = x: int | 0 <= x < 0x1_0000
  type u32 = x: int | 0 <= x < 0x1_0000_0000
  type u64 = x: int | 0 <= x < 0x1_0000_0000_0000_0000

  datatype Option<+T> = None | Some(value: T)

  /** The `width` low-order bytes of `value`, least significant first. */
  function LeBytes(value: nat, width: nat): (r: seq<byte>)
    ensures |r| == width
  {
    if width == 0 then [] else [value % 0x100] + LeBytes(value / 0x100, width - 1)
  }

  /** The number a little-endian byte string denotes. */
  function LeValue(bytes: seq<byte>): nat {
    if bytes == [] then 0 else bytes[0] + 0x100 * LeValue(bytes[1..])
  }

  function Pow256(width: nat): (r: nat)
    ensures r > 0
  {
    if width == 0 then 1 else 0x100 * Pow256(width - 1)
  }

  lemma Pow256Widths()
    ensures Pow256(1) == 0x100 && Pow256(2) == 0x1_0000 && Pow256(4) == 0x1_0000_0000
    ensures Pow256(8) == 0x1_0000_0000_0000_0000
  {
    assert Pow256(3) == 0x100_0000;
    assert Pow256(5) == 0x100_0000_0000;
    assert Pow256(6) == 0x1_0000_0000_0000;
    assert Pow256(7) == 0x100_0000_0000_0000;
  }

  lemma {:induction false} LeValueBound(bytes: seq<byte>)
    ensures LeValue(bytes) < Pow256(|bytes|)
  {
    if bytes != [] {
      LeValueBound(bytes[1..]);
    }
  }

  /** Reading back what was written gives the number, as long as it fits the width. */
  lemma {:induction false} LeValueOfBytes(value: nat, width: nat)
    requires value < Pow256(width)
    ensures LeValue(LeBytes(value, width)) == value
  {
    if width > 0 {
      LeValueOfBytes(value / 0x100, width - 1);
      assert LeBytes(value, width)[1..] == LeBytes(value / 0x100, width - 1);
    }
  }

  /** Writing back what was read gives the bytes. */
  lemma {:induction false} LeBytesOfValue(bytes: seq<byte>)
    ensures LeBytes(LeValue(bytes), |bytes|) == bytes
  {
    if bytes != [] {
      LeBytesOfValue(bytes[1..]);
      assert bytes == [bytes[0]] + bytes[1..];
    }
  }

  /** Reads a two-, four- or eight-byte field; the width keeps the value in range. */
  function ReadU16(bytes: seq<byte>): (r: u16)
    requires |bytes| == 2
  {
    LeValueBound(bytes); Pow256Widths(); LeValue(bytes)
  }

  function ReadU32(bytes: seq<byte>): (r: u32)
    requires |bytes| == 4
  {
    LeValueBound(bytes); Pow256Widths(); LeValue(bytes)
  }

  function ReadU64(bytes: seq<byte>): (r: u64)
    requires |bytes| == 8
  {
    LeValueBound(bytes); Pow256Widths(); LeValue(bytes)
  }

  lemma U16RoundTrip(value: u16)
    ensures ReadU16(LeBytes(value, 2)) == value
  {
    Pow256Widths(); LeValueOfBytes(value, 2);
  }

  lemma U32RoundTrip(value: u32)
    ensures ReadU32(LeBytes(value, 4)) == value
  {
    Pow256Widths(); LeValueOfBytes(value, 4);
  }

  lemma U64RoundTrip(value: u64)
    ensures ReadU64(LeBytes(value, 8)) == value
  {
    Pow256Widths(); LeValueOfBytes(value, 8);
  }

  /** Copies `source` into `out` from index `at` on, as `memcpy` does. */
  method CopyInto(out: array<byte>, at: nat, source: seq<byte>)
    requires at + |source| <= out.Length
    modifies out
    ensures out[..] == old(out[..at]) + source + old(out[at + |source|..])
  {
    forall k | 0 <= k < |source| {
      out[at + k] := source[k];
    }
  }

  /** Writes the `width` low bytes of `value` at `at`, one shifted byte at a time. */
  method WriteLe(out: array<byte>, at: nat, value: nat, width: nat)
    requires at + width <= out.Length
    modifies out
    ensures out[..] == old(out[..at]) + LeBytes(value, width) + old(out[at + width..])
  {
    ghost var was := out[..];
    var rest := value;
    var i := 0;
    while i < width
      invariant 0 <= i <= width
      invariant rest >= 0
      invariant LeBytes(value, width) == out[at..at + i] + LeBytes(rest, width - i)
      invariant out[..at] == was[..at] && out[at + i..] == was[at + i..]
    {
      ghost var before := out[at..at + i];
      out[at + i] := rest % 0x100;
      assert out[at..at + i] == before;
      assert out[at..at + i + 1] == before + [rest % 0x100];
      rest := rest / 0x100;
      i := i + 1;
    }
    assert out[..] == out[..at] + out[at..at + width] + out[at + width..];
  }
}
