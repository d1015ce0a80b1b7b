/**
 Fixed-width unsigned and signed integers as they appear in UBX payloads and
 in the aggregated datapoint, together with the little-endian field readers the
 message handlers use in place of the C code's packed-struct overlays.
 */
module Bytes {

  type uint8 = x: int | 0 <= x < 0x100
  type uint16 = x: int | 0 <= x < 0x1_0000
  type uint32 = x: int | 0 <= x < 0x1_0000_0000
  type uint64 = x: int | 0 <= x < 0x1_0000_0000_0000_0000
  type int32 = x: int | -0x8000_0000 <= x < 0x8000_0000

  /** Little-endian unsigned 16-bit value at offset `off`. */
  function ReadU16(s: seq<uint8>, off: nat): uint16
    requires off + 2 <= |s|
  {
    s[off] as int + s[off + 1] as int * 0x100
  }

  /** Little-endian unsigned 32-bit value at offset `off`. */
  function ReadU32(s: seq<uint8>, off: nat): uint32
    requires off + 4 <= |s|
  {
    ReadU16(s, off) as int + ReadU16(s, off + 2) as int * 0x1_0000
  }

  /** Two's-complement reinterpretation of a 32-bit word, as the C cast to int32_t does. */
  function AsInt32(w: uint32): int32
  {
    if w < 0x8000_0000 then w else w - 0x1_0000_0000
  }

  /** Little-endian signed 32-bit value at offset `off`. */
  function ReadI32(s: seq<uint8>, off: nat): int32
    requires off + 4 <= |s|
  {
    AsInt32(ReadU32(s, off))
  }

  /** The two bytes of a 16-bit value, low byte first. */
  function U16Bytes(v: uint16): (r: seq<uint8>)
    ensures |r| == 2
  {
    [v % 0x100, v / 0x100]
  }

  /** The four bytes of a 32-bit value, low byte first. */
  function U32Bytes(v: uint32): (r: seq<uint8>)
    ensures |r| == 4
  {
    U16Bytes(v % 0x1_0000) + U16Bytes(v / 0x1_0000)
  }

  /** The 32-bit word whose two's-complement reading is `x`. */
  function Int32Word(x: int32): uint32
  {
    if x >= 0 then x else x + 0x1_0000_0000
  }

  function I32Bytes(x: int32): (r: seq<uint8>)
    ensures |r| == 4
  {
    U32Bytes(Int32Word(x))
  }

  /** `n` zero bytes, used for reserved fields. */
  function Zeros(n: nat): (r: seq<uint8>)
    ensures |r| == n
    ensures forall i :: 0 <= i < n ==> r[i] == 0
  {
    seq(n, i => 0)
  }

  lemma U16RoundTrip(v: uint16, pre: seq<uint8>, post: seq<uint8>)
    ensures ReadU16(pre + U16Bytes(v) + post, |pre|) == v
  {
  }

  lemma U16Encodes(s: seq<uint8>, off: nat)
    requires off + 2 <= |s|
    ensures U16Bytes(ReadU16(s, off)) == s[off..off + 2]
  {
  }

  lemma U32RoundTrip(v: uint32, pre: seq<uint8>, post: seq<uint8>)
    ensures ReadU32(pre + U32Bytes(v) + post, |pre|) == v
  {
    var s := pre + U32Bytes(v) + post;
    var k := |pre|;
    assert s[k] == v % 0x1_0000 % 0x100;
    assert s[k + 1] == v % 0x1_0000 / 0x100;
    assert s[k + 2] == v / 0x1_0000 % 0x100;
    assert s[k + 3] == v / 0x1_0000 / 0x100;
  }

  lemma U32Encodes(s: seq<uint8>, off: nat)
    requires off + 4 <= |s|
    ensures U32Bytes(ReadU32(s, off)) == s[off..off + 4]
  {
    var lo: int := ReadU16(s, off);
    var hi: int := ReadU16(s, off + 2);
    assert (lo + hi * 0x1_0000) % 0x1_0000 == lo;
    assert (lo + hi * 0x1_0000) / 0x1_0000 == hi;
  }

  lemma I32RoundTrip(x: int32, pre: seq<uint8>, post: seq<uint8>)
    ensures ReadI32(pre + I32Bytes(x) + post, |pre|) == x
  {
    U32RoundTrip(Int32Word(x), pre, post);
  }

  /** A 32-bit field reads back as the value whose bytes sit at its offset. */
  lemma U32At(s: seq<uint8>, off: nat, v: uint32)
    requires off + 4 <= |s| && s[off..off + 4] == U32Bytes(v)
    ensures ReadU32(s, off) == v
  {
    assert s == s[..off] + U32Bytes(v) + s[off + 4..];
    U32RoundTrip(v, s[..off], s[off + 4..]);
  }

  lemma I32At(s: seq<uint8>, off: nat, x: int32)
    requires off + 4 <= |s| && s[off..off + 4] == I32Bytes(x)
    ensures ReadI32(s, off) == x
  {
    U32At(s, off, Int32Word(x));
  }

  /** A field inside a block is the corresponding slice of the block. */
  lemma SliceOfSlice(s: seq<uint8>, off: nat, n: nat, a: nat, b: nat)
    requires off + n <= |s| && a <= b <= n
    ensures s[off + a..off + b] == s[off..off + n][a..b]
  {
    var t := s[off + a..off + b];
    var u := s[off..off + n][a..b];
    forall i | 0 <= i < |t|
      ensures t[i] == u[i]
    {
    }
  }
}
