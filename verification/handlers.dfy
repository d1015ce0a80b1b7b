/**
 The message handlers inlined in `main()`: each takes the payload of an
 accepted frame and the time it arrived and yields the updated datapoint, or
 `None` where the source skips the rest of the loop body (`continue`).

 Payload fields are read little-endian at the offsets of the source's packed
 structs. No handler checks the payload length, so each states how many bytes
 it reads as a precondition.
 */
module Handlers {
  import opened Bytes
  import opened Datapoint

  /** Bytes before the first block of MON-RF, MON-SPAN, NAV-SAT and NAV-SIG payloads. */
  const MonHeaderSize: nat := 4
  const NavHeaderSize: nat := 8
  const RfBlockSize: nat := 24
  const SpanBlockSize: nat := 272
  const SatBlockSize: nat := 12
  const SigBlockSize: nat := 16
  /** NAV-PVT bytes up to and including `vAcc`. */
  const PvtReadSize: nat := 48

  /** RF blocks expected in MON-RF and MON-SPAN: one per band. */
  function ExpectedBlocks(multiband: bool): nat
  {
    if multiband then 2 else 1
  }

  // ---------------------------------------------------------------- MON-RF

  /** The fields of one MON-RF block that the handler uses. */
  datatype RfReport = RfReport(flags: uint8, noise: uint16, agc: uint16, jamInd: uint8)

  function ReadRfBlock(p: seq<uint8>, off: nat): RfReport
    requires off + RfBlockSize <= |p|
  {
    RfReport(p[off + 1], ReadU16(p, off + 12), ReadU16(p, off + 14), p[off + 16])
  }

  /**
   The band record for one block. Single-band receivers compute the broadband
   indicator as `(flags & 3) >> 2`, multi-band receivers as `flags & 3`.
   */
  function Band(b: RfReport, multiband: bool): RfBand
  {
    RfBand(b.agc, b.noise, b.jamInd, if multiband then b.flags % 4 else b.flags % 4 / 4)
  }

  predicate MonRfReadable(multiband: bool, p: seq<uint8>)
  {
    |p| >= 2 && (p[0] == 0 && p[1] == ExpectedBlocks(multiband) ==>
      |p| >= MonHeaderSize + RfBlockSize * ExpectedBlocks(multiband))
  }

  /** Only the MON-RF group and its timestamp differ between `dp` and `r`. */
  predicate OnlyRf(dp: Datapoint, r: Datapoint)
  {
    r.(rf1 := dp.rf1, rf2 := dp.rf2, monRfAt := dp.monRfAt) == dp
  }

  /** MON-RF: version must be 0 and the block count must match the band mode. */
  function MonRf(dp: Datapoint, p: seq<uint8>, now: uint64): (r: Option<Datapoint>)
    requires MonRfReadable(dp.multiband, p)
    ensures r.None? <==> p[0] != 0 || p[1] != ExpectedBlocks(dp.multiband)
    ensures r.Some? ==> OnlyRf(dp, r.value) && r.value.monRfAt == now
    ensures r.Some? ==> r.value.rf1.jamBb <= 3 && (dp.multiband ==> r.value.rf2.jamBb <= 3)
    ensures r.Some? && !dp.multiband ==> r.value.rf2 == dp.rf2
  {
    if p[0] != 0 || p[1] != ExpectedBlocks(dp.multiband) then
      None
    else if !dp.multiband then
      Some(dp.(rf1 := Band(ReadRfBlock(p, MonHeaderSize), false), monRfAt := now))
    else
      Some(dp.(rf1 := Band(ReadRfBlock(p, MonHeaderSize), true),
               rf2 := Band(ReadRfBlock(p, MonHeaderSize + RfBlockSize), true),
               monRfAt := now))
  }

  /** The single-band broadband jamming indicator is always 0 ("unknown"). */
  lemma SingleBandBroadbandAlwaysZero(dp: Datapoint, p: seq<uint8>, now: uint64)
    requires !dp.multiband && MonRfReadable(dp.multiband, p)
    requires MonRf(dp, p, now).Some?
    ensures MonRf(dp, p, now).value.rf1.jamBb == 0
  {
  }

  // -------------------------------------------------------------- MON-SPAN

  /** The fields of one MON-SPAN block that the handler uses. */
  function ReadSpanBlock(p: seq<uint8>, off: nat): SpanBand
    requires off + SpanBlockSize <= |p|
  {
    SpanBand(p[off..off + SpectrumBins], ReadU32(p, off + 256), ReadU32(p, off + 260), ReadU32(p, off + 264), p[off + 268])
  }

  predicate MonSpanReadable(multiband: bool, p: seq<uint8>)
  {
    |p| >= 2 && (p[0] == 0 && p[1] == ExpectedBlocks(multiband) ==>
      |p| >= MonHeaderSize + SpanBlockSize * ExpectedBlocks(multiband))
  }

  predicate OnlySpan(dp: Datapoint, r: Datapoint)
  {
    r.(span1 := dp.span1, span2 := dp.span2, monSpanAt := dp.monSpanAt) == dp
  }

  /** MON-SPAN: the same version and block-count checks as MON-RF. */
  function MonSpan(dp: Datapoint, p: seq<uint8>, now: uint64): (r: Option<Datapoint>)
    requires MonSpanReadable(dp.multiband, p)
    ensures r.None? <==> p[0] != 0 || p[1] != ExpectedBlocks(dp.multiband)
    ensures r.Some? ==> OnlySpan(dp, r.value) && r.value.monSpanAt == now
    ensures r.Some? && !dp.multiband ==> r.value.span2 == dp.span2
  {
    if p[0] != 0 || p[1] != ExpectedBlocks(dp.multiband) then
      None
    else if !dp.multiband then
      Some(dp.(span1 := ReadSpanBlock(p, MonHeaderSize), monSpanAt := now))
    else
      Some(dp.(span1 := ReadSpanBlock(p, MonHeaderSize),
               span2 := ReadSpanBlock(p, MonHeaderSize + SpanBlockSize),
               monSpanAt := now))
  }

  // --------------------------------------------------------------- NAV-PVT

  /** The calendar fields NAV-PVT carries, handed to the time conversion. */
  datatype CalendarTime = CalendarTime(year: uint16, month: uint8, day: uint8, hour: uint8, minute: uint8, second: uint8)

  predicate OnlyPvt(dp: Datapoint, r: Datapoint)
  {
    r.(timeValid := dp.timeValid, gnssTimestamp := dp.gnssTimestamp, lat := dp.lat, lon := dp.lon,
       alt := dp.alt, hAcc := dp.hAcc, vAcc := dp.vAcc, navPvtAt := dp.navPvtAt) == dp
  }

  /**
   NAV-PVT, never skipped. `toEpoch` stands for the C library's `mktime`,
   which depends on the local time zone.
   */
  function NavPvt(dp: Datapoint, p: seq<uint8>, now: uint64, toEpoch: CalendarTime -> uint64): (r: Datapoint)
    requires |p| >= PvtReadSize
    ensures OnlyPvt(dp, r) && r.navPvtAt == now
    ensures r.timeValid <==> p[11] % 2 == 1 && p[11] / 2 % 2 == 1
  {
    dp.(timeValid := p[11] % 4 == 3,
        gnssTimestamp := toEpoch(CalendarTime(ReadU16(p, 4), p[6], p[7], p[8], p[9], p[10])),
        lat := ReadI32(p, 28), lon := ReadI32(p, 24), alt := ReadI32(p, 32),
        hAcc := ReadU32(p, 40), vAcc := ReadU32(p, 44),
        navPvtAt := now)
  }

  // --------------------------------------------------------------- NAV-SAT

  /** Bit 3 of a NAV-SAT satellite's flags: used in the navigation solution. */
  predicate UsedInNav(flags: uint32)
  {
    flags / 8 % 2 == 1
  }

  predicate NavSatReadable(p: seq<uint8>)
  {
    |p| >= NavHeaderSize && |p| >= NavHeaderSize + SatBlockSize * p[5]
  }

  /** Satellites among the first `k` blocks whose flags mark them used in navigation. */
  function SatUsed(p: seq<uint8>, k: nat): (n: nat)
    requires |p| >= NavHeaderSize + SatBlockSize * k
    ensures n <= k
  {
    if k == 0 then 0
    else SatUsed(p, k - 1) + (if UsedInNav(ReadU32(p, NavHeaderSize + SatBlockSize * (k - 1) + 8)) then 1 else 0)
  }

  predicate OnlySat(dp: Datapoint, r: Datapoint)
  {
    r.(svsNav := dp.svsNav, navSatAt := dp.navSatAt) == dp
  }

  /** NAV-SAT: counts the satellites used in navigation over `num_svs` blocks. */
  function NavSat(dp: Datapoint, p: seq<uint8>, now: uint64): (r: Datapoint)
    requires NavSatReadable(p)
    ensures OnlySat(dp, r) && r.navSatAt == now
    ensures r.svsNav <= p[5]
  {
    dp.(svsNav := SatUsed(p, p[5]), navSatAt := now)
  }

  /** Whole blocks of `size` bytes that a payload holds after its 8-byte header (none without a header). */
  function BlocksHeld(p: seq<uint8>, size: nat): (n: nat)
    requires size > 0
    ensures n > 0 ==> NavHeaderSize + size * n <= |p|
    ensures |p| >= NavHeaderSize ==> NavHeaderSize + size * (n + 1) > |p|
  {
    if |p| < NavHeaderSize then 0 else (|p| - NavHeaderSize) / size
  }

  /** How many blocks the corrected loops visit: `num_svs`, but no more than the payload holds. */
  function BlocksVisited(p: seq<uint8>, size: nat): (n: nat)
    requires size > 0
    ensures n <= BlocksHeld(p, size)
    ensures n > 0 ==> |p| > 5 && n <= p[5] as nat
    ensures |p| >= NavHeaderSize + size * (if |p| > 5 then p[5] as nat else 0) ==> n == (if |p| > 5 then p[5] as nat else 0)
  {
    var held := BlocksHeld(p, size);
    if held == 0 then 0
    else if p[5] as nat <= held then p[5] as nat
    else held
  }

  /**
   NAV-SAT with the loop bounded by the blocks the payload holds as well as by
   `num_svs`. Like the source it always resets the count and stamps the
   group; a payload without blocks, even one shorter than its header, counts
   no satellites. On every payload the source can read in full it agrees with
   `NavSat`.
   */
  function NavSatChecked(dp: Datapoint, p: seq<uint8>, now: uint64): (r: Datapoint)
    ensures OnlySat(dp, r) && r.navSatAt == now
    ensures r.svsNav as nat <= BlocksHeld(p, SatBlockSize)
    ensures |p| > 5 ==> r.svsNav <= p[5]
    ensures NavSatReadable(p) ==> r == NavSat(dp, p, now)
  {
    var n := BlocksVisited(p, SatBlockSize);
    dp.(svsNav := if n == 0 then 0 else SatUsed(p, n), navSatAt := now)
  }

  // --------------------------------------------------------------- NAV-SIG

  /** Signal counts per band: acquired (quality 2 or more) and locked (quality 4 or more). */
  datatype SigCounts = SigCounts(acqL1: nat, acqL2: nat, lockL1: nat, lockL2: nat)

  /** Signal ids 0 and 1 are L1 signals; every other id counts as L2. */
  predicate IsL1(sigId: uint8)
  {
    sigId == 0 || sigId == 1
  }

  /** One signal added to the counts: quality 4 or more is both acquired and locked. */
  function Tally(c: SigCounts, sigId: uint8, quality: uint8): SigCounts
  {
    var acquired := quality >= 2;
    var locked := quality >= 4;
    SigCounts(
      c.acqL1 + (if acquired && IsL1(sigId) then 1 else 0),
      c.acqL2 + (if acquired && !IsL1(sigId) then 1 else 0),
      c.lockL1 + (if locked && IsL1(sigId) then 1 else 0),
      c.lockL2 + (if locked && !IsL1(sigId) then 1 else 0))
  }

  predicate NavSigReadable(p: seq<uint8>)
  {
    |p| >= NavHeaderSize && |p| >= NavHeaderSize + SigBlockSize * p[5]
  }

  /** The counts over the first `k` signal blocks. */
  function SigTally(p: seq<uint8>, k: nat): (c: SigCounts)
    requires |p| >= NavHeaderSize + SigBlockSize * k
    ensures c.lockL1 <= c.acqL1 && c.lockL2 <= c.acqL2
    ensures c.acqL1 + c.acqL2 <= k
  {
    if k == 0 then SigCounts(0, 0, 0, 0)
    else
      var off := NavHeaderSize + SigBlockSize * (k - 1);
      Tally(SigTally(p, k - 1), p[off + 2], p[off + 7])
  }

  predicate OnlySig(dp: Datapoint, r: Datapoint)
  {
    r.(acqL1 := dp.acqL1, acqL2 := dp.acqL2, lockL1 := dp.lockL1, lockL2 := dp.lockL2, navSigAt := dp.navSigAt) == dp
  }

  /** NAV-SIG: counts acquired and locked signals per band over `num_svs` blocks. */
  function NavSig(dp: Datapoint, p: seq<uint8>, now: uint64): (r: Datapoint)
    requires NavSigReadable(p)
    ensures OnlySig(dp, r) && r.navSigAt == now
    ensures r.lockL1 <= r.acqL1 && r.lockL2 <= r.acqL2
    ensures r.acqL1 + r.acqL2 <= p[5]
  {
    var c := SigTally(p, p[5]);
    dp.(acqL1 := c.acqL1, acqL2 := c.acqL2, lockL1 := c.lockL1, lockL2 := c.lockL2, navSigAt := now)
  }

  /**
   NAV-SIG with the loop bounded by the blocks the payload holds as well as
   by `num_svs`. Like the source it always resets the counts and stamps the
   group; a payload without blocks, even one shorter than its header, counts
   no signals. On every payload the source can read in full it agrees with
   `NavSig`.
   */
  function NavSigChecked(dp: Datapoint, p: seq<uint8>, now: uint64): (r: Datapoint)
    ensures OnlySig(dp, r) && r.navSigAt == now
    ensures r.lockL1 <= r.acqL1 && r.lockL2 <= r.acqL2
    ensures r.acqL1 as nat + r.acqL2 as nat <= BlocksHeld(p, SigBlockSize)
    ensures |p| > 5 ==> r.acqL1 as nat + r.acqL2 as nat <= p[5] as nat
    ensures NavSigReadable(p) ==> r == NavSig(dp, p, now)
  {
    var n := BlocksVisited(p, SigBlockSize);
    var c := if n == 0 then SigCounts(0, 0, 0, 0) else SigTally(p, n);
    dp.(acqL1 := c.acqL1, acqL2 := c.acqL2, lockL1 := c.lockL1, lockL2 := c.lockL2, navSigAt := now)
  }
}
