/**
 The UBX frame layout and its 8-bit Fletcher checksum (the "UBX checksum"
 subsection of u-blox's UBX protocol description).

 A frame is `B5 62 class id lenLo lenHi payload.. ckA ckB`; the checksum runs
 over every byte from `class` to the end of the payload.
 */
module Ubx {
  import opened Bytes

  const Sync1: uint8 := 0xB5
  const Sync2: uint8 := 0x62

  /** Bytes before the payload: two sync bytes, class, id and the 16-bit length. */
  const HeaderSize: nat := 6
  /** Header plus the two checksum bytes. */
  const Overhead: nat := 8

  /**
   Where the checksummed span of `f` ends. `ubx_verify_checksum` iterates
   `i` from 2 while `i < n - 2`, so for frames shorter than four bytes the span
   is empty.
   */
  function SpanEnd(f: seq<uint8>): (e: nat)
    requires |f| >= 2
    ensures 2 <= e <= |f|
  {
    if |f| >= 4 then |f| - 2 else 2
  }

  /** `ck_a` after the loop has consumed `f[2..i]`: the plain sum of those bytes. */
  function RunA(f: seq<uint8>, i: nat): nat
    requires i <= |f|
  {
    if i <= 2 then 0 else RunA(f, i - 1) + f[i - 1]
  }

  /** `ck_b` after the loop has consumed `f[2..i]`: the sum of every running `ck_a`. */
  function RunB(f: seq<uint8>, i: nat): nat
    requires i <= |f|
  {
    if i <= 2 then 0 else RunB(f, i - 1) + RunA(f, i)
  }

  /** The acceptance condition of `ubx_verify_checksum`, over unbounded sums reduced mod 256. */
  predicate ChecksumMatches(f: seq<uint8>)
    requires |f| >= 2
  {
    && f[|f| - 2] == RunA(f, SpanEnd(f)) % 0x100
    && f[|f| - 1] == RunB(f, SpanEnd(f)) % 0x100
  }

  /** The little-endian payload length carried in bytes 4 and 5. */
  function DeclaredLength(f: seq<uint8>): uint16
    requires |f| >= HeaderSize
  {
    ReadU16(f, 4)
  }

  /** A complete UBX frame: sync pattern, consistent length field and valid checksum. */
  predicate WellFormed(f: seq<uint8>)
  {
    && |f| >= Overhead
    && f[0] == Sync1 && f[1] == Sync2
    && DeclaredLength(f) as int == |f| - Overhead
    && ChecksumMatches(f)
  }

  function Payload(f: seq<uint8>): (p: seq<uint8>)
    requires WellFormed(f)
    ensures |p| == DeclaredLength(f)
  {
    f[HeaderSize..|f| - 2]
  }

  /** Reducing the left operand before adding does not change the residue. */
  lemma AddMod8(a: nat, b: nat)
    ensures (a % 0x100 + b) % 0x100 == (a + b) % 0x100
  {
  }

  lemma AddMod32(a: nat, b: nat)
    ensures (a % 0x1_0000_0000 + b) % 0x1_0000_0000 == (a + b) % 0x1_0000_0000
  {
  }

  /** Masking a wrapped 32-bit accumulator with 0xFF gives the unbounded sum mod 256. */
  lemma ModOfWrapped(x: nat)
    ensures x % 0x1_0000_0000 % 0x100 == x % 0x100
  {
  }

  /**
   The loop of `ubx_verify_checksum`, with the 32-bit accumulators wrapping
   explicitly; the result agrees with the unbounded reference sums.
   */
  method VerifyChecksum(f: seq<uint8>) returns (ok: bool)
    requires |f| >= 2
    ensures ok <==> ChecksumMatches(f)
  {
    var ckA: uint32 := 0;
    var ckB: uint32 := 0;
    var i := 2;
    while i < |f| - 2
      invariant 2 <= i <= SpanEnd(f)
      invariant ckA == RunA(f, i) % 0x1_0000_0000
      invariant ckB == RunB(f, i) % 0x1_0000_0000
    {
      AddMod32(RunA(f, i), f[i]);
      ckA := (ckA + f[i]) % 0x1_0000_0000;
      AddMod32(RunB(f, i), RunA(f, i + 1));
      AddMod32(RunA(f, i + 1), ckB);
      ckB := (ckB + ckA) % 0x1_0000_0000;
      i := i + 1;
    }
    ModOfWrapped(RunA(f, i));
    ModOfWrapped(RunB(f, i));
    ok := ckA % 0x100 == f[|f| - 2] && ckB % 0x100 == f[|f| - 1];
  }

  /** `CK_A` as the protocol description states it: an 8-bit running sum. */
  function Fletcher8A(f: seq<uint8>, i: nat): uint8
    requires i <= |f|
  {
    if i <= 2 then 0 else (Fletcher8A(f, i - 1) + f[i - 1]) % 0x100
  }

  /** `CK_B` as the protocol description states it: an 8-bit sum of every `CK_A`. */
  function Fletcher8B(f: seq<uint8>, i: nat): uint8
    requires i <= |f|
  {
    if i <= 2 then 0 else (Fletcher8B(f, i - 1) + Fletcher8A(f, i)) % 0x100
  }

  /** The 8-bit running form of the protocol description and the code's wide sums agree. */
  lemma {:induction false} Fletcher8Agrees(f: seq<uint8>, i: nat)
    requires i <= |f|
    ensures Fletcher8A(f, i) == RunA(f, i) % 0x100
    ensures Fletcher8B(f, i) == RunB(f, i) % 0x100
  {
    if i > 2 {
      Fletcher8Agrees(f, i - 1);
      AddMod8(RunA(f, i - 1), f[i - 1]);
      AddMod8(RunB(f, i - 1), RunA(f, i));
      AddMod8(RunA(f, i), Fletcher8B(f, i - 1));
    }
  }

  /** The sums over a prefix do not see what follows it. */
  lemma {:induction false} RunPrefix(f: seq<uint8>, g: seq<uint8>, i: nat)
    requires i <= |f|
    ensures RunA(f + g, i) == RunA(f, i)
    ensures RunB(f + g, i) == RunB(f, i)
  {
    if i > 2 {
      RunPrefix(f, g, i - 1);
    }
  }

  /** The sums over `f` agree with those over any `g` that has the same bytes below `i`. */
  lemma {:induction false} RunSame(f: seq<uint8>, g: seq<uint8>, i: nat)
    requires i <= |f| && i <= |g|
    requires f[..i] == g[..i]
    ensures RunA(f, i) == RunA(g, i)
    ensures RunB(f, i) == RunB(g, i)
  {
    if i > 2 {
      assert f[..i - 1] == f[..i][..i - 1];
      assert g[..i - 1] == g[..i][..i - 1];
      assert f[i - 1] == f[..i][i - 1];
      assert g[i - 1] == g[..i][i - 1];
      RunSame(f, g, i - 1);
    }
  }

  /** Plain sum of the first `k` bytes of a free-standing chunk. */
  function Sum(c: seq<uint8>, k: nat): nat
    requires k <= |c|
  {
    if k == 0 then 0 else Sum(c, k - 1) + c[k - 1]
  }

  /** Sum of the running sums of the first `k` bytes of a chunk. */
  function Tri(c: seq<uint8>, k: nat): nat
    requires k <= |c|
  {
    if k == 0 then 0 else Tri(c, k - 1) + Sum(c, k)
  }

  /**
   Appending a chunk to a span: `ck_a` grows by the chunk's sum, `ck_b` by the
   old `ck_a` once per appended byte plus the chunk's own running sums.
   */
  lemma {:induction false} RunAppend(a: seq<uint8>, c: seq<uint8>, k: nat)
    requires |a| >= 2 && k <= |c|
    ensures RunA(a + c, |a| + k) == RunA(a, |a|) + Sum(c, k)
    ensures RunB(a + c, |a| + k) == RunB(a, |a|) + k * RunA(a, |a|) + Tri(c, k)
  {
    if k == 0 {
      RunPrefix(a, c, |a|);
    } else {
      RunAppend(a, c, k - 1);
      assert (a + c)[|a| + k - 1] == c[k - 1];
    }
  }

  /** A run of zero bytes leaves both sums of a chunk at zero. */
  lemma {:induction false} ZeroSums(n: nat, k: nat)
    requires k <= n
    ensures Sum(Zeros(n), k) == 0 && Tri(Zeros(n), k) == 0
  {
    if k > 0 {
      ZeroSums(n, k - 1);
    }
  }

  /** Replacing byte `j` of the span moves `ck_a` by exactly the difference. */
  lemma {:induction false} RunAChange(f: seq<uint8>, j: nat, x: uint8, i: nat)
    requires 2 <= j < i <= |f|
    ensures RunA(f[j := x], i) == RunA(f, i) - f[j] + x
  {
    if i - 1 == j {
      RunSame(f, f[j := x], j);
    } else {
      RunAChange(f, j, x, i - 1);
    }
  }

  lemma ModDiffers(a: int, d: int)
    requires 0 < d < 0x100 || -0x100 < d < 0
    ensures (a + d) % 0x100 != a % 0x100
  {
  }

  /**
   Changing any single byte covered by the checksum, or either checksum byte,
   makes verification fail: an 8-bit Fletcher sum always detects a one-byte error.
   */
  lemma SingleByteErrorDetected(f: seq<uint8>, j: nat, x: uint8)
    requires |f| >= 4 && ChecksumMatches(f)
    requires 2 <= j < |f| && x != f[j]
    ensures !ChecksumMatches(f[j := x])
  {
    var g := f[j := x];
    var e := SpanEnd(f);
    if j < e {
      RunAChange(f, j, x, e);
      ModDiffers(RunA(f, e), x - f[j]);
    } else {
      RunSame(f, g, e);
    }
  }

  /** The frame `ubx_*` constants and the device's replies have: header, payload, checksum. */
  function MakeFrame(cls: uint8, id: uint8, payload: seq<uint8>): (f: seq<uint8>)
    requires |payload| < 0x1_0000
    ensures WellFormed(f)
    ensures |f| == |payload| + Overhead
    ensures f[2] == cls && f[3] == id && Payload(f) == payload
  {
    var h := [Sync1, Sync2, cls, id] + U16Bytes(|payload|) + payload;
    var f := h + [RunA(h, |h|) % 0x100, RunB(h, |h|) % 0x100];
    RunPrefix(h, [RunA(h, |h|) % 0x100, RunB(h, |h|) % 0x100], |h|);
    assert f[HeaderSize..|f| - 2] == payload;
    f
  }
}
