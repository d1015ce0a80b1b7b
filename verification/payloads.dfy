/**
 Payload builders for the five monitored messages, laid out as the UBX protocol
 description and the source's packed structs place the fields, and the proofs
 that each handler reads back exactly what was placed there.
 */
module Payloads {
  import opened Bytes
  import opened Datapoint
  import opened Handlers

  /** The blocks of a message, encoded one after the other. */
  function Concat<T>(items: seq<T>, enc: T -> seq<uint8>): seq<uint8>
  {
    if items == [] then [] else Concat(items[..|items| - 1], enc) + enc(items[|items| - 1])
  }

  /** How many of `xs` satisfy `keep`; the reference count the handlers are compared with. */
  function Count<T>(xs: seq<T>, keep: T -> bool): (n: nat)
    ensures n <= |xs|
  {
    if xs == [] then 0 else Count(xs[..|xs| - 1], keep) + (if keep(xs[|xs| - 1]) then 1 else 0)
  }

  /** Counting a prefix one element longer adds that element's verdict. */
  lemma CountLast<T>(xs: seq<T>, k: nat, keep: T -> bool)
    requires 0 < k <= |xs|
    ensures Count(xs[..k], keep) == Count(xs[..k - 1], keep) + (if keep(xs[k - 1]) then 1 else 0)
  {
    assert xs[..k][..k - 1] == xs[..k - 1];
  }

  lemma {:induction false} ConcatLength<T>(items: seq<T>, enc: T -> seq<uint8>, size: nat)
    requires forall x :: |enc(x)| == size
    ensures |Concat(items, enc)| == size * |items|
  {
    if items != [] {
      var front := items[..|items| - 1];
      ConcatLength(front, enc, size);
      assert size * |items| == size * |front| + size;
    }
  }

  lemma {:induction false} ConcatAppend<T>(a: seq<T>, b: seq<T>, enc: T -> seq<uint8>)
    ensures Concat(a + b, enc) == Concat(a, enc) + Concat(b, enc)
  {
    if b != [] {
      var n := |b|;
      assert (a + b)[..|a + b| - 1] == a + b[..n - 1];
      ConcatAppend(a, b[..n - 1], enc);
    } else {
      assert a + b == a;
    }
  }

  /** The encoding of a list is the encoding of the blocks before `i`, block `i`, then the rest. */
  lemma ConcatSplit<T>(items: seq<T>, enc: T -> seq<uint8>, i: nat)
    requires i < |items|
    ensures Concat(items, enc) == Concat(items[..i], enc) + enc(items[i]) + Concat(items[i + 1..], enc)
  {
    var front := items[..i];
    var back := items[i + 1..];
    assert items == front + [items[i]] + back;
    ConcatAppend(front + [items[i]], back, enc);
    ConcatAppend(front, [items[i]], enc);
    assert [items[i]][..0] == [];
  }

  lemma SliceMiddle(a: seq<uint8>, b: seq<uint8>, c: seq<uint8>)
    ensures (a + b + c)[|a|..|a| + |b|] == b
  {
  }

  /** Block `i` of a header followed by encoded blocks sits at `|header| + size * i`. */
  lemma BlockAt<T>(header: seq<uint8>, items: seq<T>, enc: T -> seq<uint8>, size: nat, i: nat)
    requires forall x :: |enc(x)| == size
    requires i < |items|
    ensures |header + Concat(items, enc)| == |header| + size * |items|
    ensures |header| + size * i + size <= |header| + size * |items|
    ensures (header + Concat(items, enc))[|header| + size * i..|header| + size * i + size] == enc(items[i])
  {
    ConcatLength(items, enc, size);
    ConcatLength(items[..i], enc, size);
    ConcatSplit(items, enc, i);
    var a := header + Concat(items[..i], enc);
    assert header + Concat(items, enc) == a + enc(items[i]) + Concat(items[i + 1..], enc);
    SliceMiddle(a, enc(items[i]), Concat(items[i + 1..], enc));
    assert size * i + size <= size * |items| by {
      assert size * |items| == size * i + size * (|items| - i);
    }
  }

  // ---------------------------------------------------------------- MON-RF

  /** One MON-RF block with every field the handler ignores set to zero. */
  function EncodeRf(b: RfReport): (s: seq<uint8>)
    ensures |s| == RfBlockSize
  {
    [0, b.flags] + Zeros(10) + U16Bytes(b.noise) + U16Bytes(b.agc) + [b.jamInd] + Zeros(7)
  }

  lemma RfBlockRoundTrip(p: seq<uint8>, off: nat, b: RfReport)
    requires off + RfBlockSize <= |p| && p[off..off + RfBlockSize] == EncodeRf(b)
    ensures ReadRfBlock(p, off) == b
  {
    var e := EncodeRf(b);
    assert p[off + 1] == e[1] && p[off + 16] == e[16];
    assert p[off + 12] == e[12] && p[off + 13] == e[13];
    assert p[off + 14] == e[14] && p[off + 15] == e[15];
  }

  function MonRfPayload(version: uint8, blocks: seq<RfReport>): seq<uint8>
    requires |blocks| < 0x100
  {
    [version, |blocks|, 0, 0] + Concat(blocks, EncodeRf)
  }

  /** A single-band receiver takes CW jamming, AGC and noise from its one block; broadband reads 0. */
  lemma MonRfSingleBand(dp: Datapoint, b: RfReport, now: uint64)
    requires !dp.multiband
    ensures MonRfReadable(dp.multiband, MonRfPayload(0, [b]))
    ensures MonRf(dp, MonRfPayload(0, [b]), now) ==
      Some(dp.(rf1 := RfBand(b.agc, b.noise, b.jamInd, 0), monRfAt := now))
  {
    var p := MonRfPayload(0, [b]);
    BlockAt([0, 1, 0, 0], [b], EncodeRf, RfBlockSize, 0);
    RfBlockRoundTrip(p, MonHeaderSize, b);
  }

  /** A multi-band receiver fills both bands, broadband indicators from the low two flag bits. */
  lemma MonRfMultiBand(dp: Datapoint, b1: RfReport, b2: RfReport, now: uint64)
    requires dp.multiband
    ensures MonRfReadable(dp.multiband, MonRfPayload(0, [b1, b2]))
    ensures MonRf(dp, MonRfPayload(0, [b1, b2]), now) ==
      Some(dp.(rf1 := RfBand(b1.agc, b1.noise, b1.jamInd, b1.flags % 4),
               rf2 := RfBand(b2.agc, b2.noise, b2.jamInd, b2.flags % 4),
               monRfAt := now))
  {
    var p := MonRfPayload(0, [b1, b2]);
    BlockAt([0, 2, 0, 0], [b1, b2], EncodeRf, RfBlockSize, 0);
    BlockAt([0, 2, 0, 0], [b1, b2], EncodeRf, RfBlockSize, 1);
    RfBlockRoundTrip(p, MonHeaderSize, b1);
    RfBlockRoundTrip(p, MonHeaderSize + RfBlockSize, b2);
  }

  // -------------------------------------------------------------- MON-SPAN

  /** One MON-SPAN block: spectrum, span, resolution, centre, PGA gain and three reserved bytes. */
  function EncodeSpan(b: SpanBand): (s: seq<uint8>)
    ensures |s| == SpanBlockSize
  {
    b.spectrum + U32Bytes(b.span) + U32Bytes(b.res) + U32Bytes(b.center) + [b.pga, 0, 0, 0]
  }

  lemma SpanBlockRoundTrip(p: seq<uint8>, off: nat, b: SpanBand)
    requires off + SpanBlockSize <= |p| && p[off..off + SpanBlockSize] == EncodeSpan(b)
    ensures ReadSpanBlock(p, off) == b
  {
    var e := EncodeSpan(b);
    assert e[..256] == b.spectrum && e[256..260] == U32Bytes(b.span);
    assert e[260..264] == U32Bytes(b.res) && e[264..268] == U32Bytes(b.center);
    SliceOfSlice(p, off, SpanBlockSize, 0, 256);
    SliceOfSlice(p, off, SpanBlockSize, 256, 260);
    SliceOfSlice(p, off, SpanBlockSize, 260, 264);
    SliceOfSlice(p, off, SpanBlockSize, 264, 268);
    assert p[off + 268] == e[268];
    U32At(p, off + 256, b.span);
    U32At(p, off + 260, b.res);
    U32At(p, off + 264, b.center);
  }

  function MonSpanPayload(version: uint8, blocks: seq<SpanBand>): seq<uint8>
    requires |blocks| < 0x100
  {
    [version, |blocks|, 0, 0] + Concat(blocks, EncodeSpan)
  }

  lemma MonSpanSingleBand(dp: Datapoint, b: SpanBand, now: uint64)
    requires !dp.multiband
    ensures MonSpanReadable(dp.multiband, MonSpanPayload(0, [b]))
    ensures MonSpan(dp, MonSpanPayload(0, [b]), now) == Some(dp.(span1 := b, monSpanAt := now))
  {
    var p := MonSpanPayload(0, [b]);
    BlockAt([0, 1, 0, 0], [b], EncodeSpan, SpanBlockSize, 0);
    SpanBlockRoundTrip(p, MonHeaderSize, b);
  }

  lemma MonSpanMultiBand(dp: Datapoint, b1: SpanBand, b2: SpanBand, now: uint64)
    requires dp.multiband
    ensures MonSpanReadable(dp.multiband, MonSpanPayload(0, [b1, b2]))
    ensures MonSpan(dp, MonSpanPayload(0, [b1, b2]), now) == Some(dp.(span1 := b1, span2 := b2, monSpanAt := now))
  {
    var p := MonSpanPayload(0, [b1, b2]);
    BlockAt([0, 2, 0, 0], [b1, b2], EncodeSpan, SpanBlockSize, 0);
    BlockAt([0, 2, 0, 0], [b1, b2], EncodeSpan, SpanBlockSize, 1);
    SpanBlockRoundTrip(p, MonHeaderSize, b1);
    SpanBlockRoundTrip(p, MonHeaderSize + SpanBlockSize, b2);
  }

  // --------------------------------------------------------------- NAV-PVT

  /** The NAV-PVT fields the handler uses. */
  datatype PvtReport = PvtReport(time: CalendarTime, valid: uint8,
                                 lon: int32, lat: int32, height: int32, hAcc: uint32, vAcc: uint32)

  /** NAV-PVT up to `vAcc`, with iTOW, tAcc, nano, fix flags, satellite count and hMSL zero. */
  function EncodePvt(r: PvtReport): (s: seq<uint8>)
    ensures |s| == PvtReadSize
  {
    Zeros(4) + U16Bytes(r.time.year)
    + [r.time.month, r.time.day, r.time.hour, r.time.minute, r.time.second, r.valid]
    + Zeros(12)
    + I32Bytes(r.lon) + I32Bytes(r.lat) + I32Bytes(r.height) + Zeros(4)
    + U32Bytes(r.hAcc) + U32Bytes(r.vAcc)
  }

  /** Bytes 24..48 of the NAV-PVT encoding: position, hMSL and the two accuracies. */
  lemma PvtTail(r: PvtReport)
    ensures EncodePvt(r)[24..48] ==
      I32Bytes(r.lon) + I32Bytes(r.lat) + I32Bytes(r.height) + Zeros(4) + U32Bytes(r.hAcc) + U32Bytes(r.vAcc)
  {
    var head := Zeros(4) + U16Bytes(r.time.year)
      + [r.time.month, r.time.day, r.time.hour, r.time.minute, r.time.second, r.valid] + Zeros(12);
    var tail := I32Bytes(r.lon) + I32Bytes(r.lat) + I32Bytes(r.height) + Zeros(4) + U32Bytes(r.hAcc) + U32Bytes(r.vAcc);
    assert EncodePvt(r) == head + tail;
    assert |head| == 24;
  }

  /** Position and accuracies are read back from offsets 24, 28, 32, 40 and 44. */
  lemma PvtFields(r: PvtReport, rest: seq<uint8>)
    ensures var p := EncodePvt(r) + rest;
      && ReadI32(p, 24) == r.lon && ReadI32(p, 28) == r.lat && ReadI32(p, 32) == r.height
      && ReadU32(p, 40) == r.hAcc && ReadU32(p, 44) == r.vAcc
  {
    var p := EncodePvt(r) + rest;
    PvtTail(r);
    var t := p[24..48];
    assert t == EncodePvt(r)[24..48];
    I32RoundTrip(r.lon, [], I32Bytes(r.lat) + I32Bytes(r.height) + Zeros(4) + U32Bytes(r.hAcc) + U32Bytes(r.vAcc));
    I32RoundTrip(r.lat, I32Bytes(r.lon), I32Bytes(r.height) + Zeros(4) + U32Bytes(r.hAcc) + U32Bytes(r.vAcc));
    I32RoundTrip(r.height, I32Bytes(r.lon) + I32Bytes(r.lat), Zeros(4) + U32Bytes(r.hAcc) + U32Bytes(r.vAcc));
    U32RoundTrip(r.hAcc, I32Bytes(r.lon) + I32Bytes(r.lat) + I32Bytes(r.height) + Zeros(4), U32Bytes(r.vAcc));
    U32RoundTrip(r.vAcc, I32Bytes(r.lon) + I32Bytes(r.lat) + I32Bytes(r.height) + Zeros(4) + U32Bytes(r.hAcc), []);
    assert t == [] + I32Bytes(r.lon) + (I32Bytes(r.lat) + I32Bytes(r.height) + Zeros(4) + U32Bytes(r.hAcc) + U32Bytes(r.vAcc));
    assert ReadI32(t, 0) == r.lon;
    assert ReadI32(t, 4) == r.lat;
    assert ReadI32(t, 8) == r.height;
    assert ReadU32(t, 16) == r.hAcc;
    assert t == I32Bytes(r.lon) + I32Bytes(r.lat) + I32Bytes(r.height) + Zeros(4) + U32Bytes(r.hAcc) + U32Bytes(r.vAcc) + [];
    assert ReadU32(t, 20) == r.vAcc;
    forall i | 0 <= i < 24 ensures p[24 + i] == t[i] { }
  }

  /**
   Position, accuracies and calendar time are read back from their offsets;
   time is valid exactly when both the valid-date and valid-time bits are set.
   */
  lemma NavPvtRoundTrip(dp: Datapoint, r: PvtReport, rest: seq<uint8>, now: uint64, toEpoch: CalendarTime -> uint64)
    ensures NavPvt(dp, EncodePvt(r) + rest, now, toEpoch) ==
      dp.(timeValid := r.valid % 2 == 1 && r.valid / 2 % 2 == 1,
          gnssTimestamp := toEpoch(r.time),
          lat := r.lat, lon := r.lon, alt := r.height, hAcc := r.hAcc, vAcc := r.vAcc,
          navPvtAt := now)
  {
    var p := EncodePvt(r) + rest;
    PvtFields(r, rest);
    assert p[4] == r.time.year % 0x100 && p[5] == r.time.year / 0x100;
    assert p[6] == r.time.month && p[7] == r.time.day && p[8] == r.time.hour;
    assert p[9] == r.time.minute && p[10] == r.time.second && p[11] == r.valid;
  }

  // --------------------------------------------------------------- NAV-SAT

  /** One NAV-SAT satellite block with only its flags word set. */
  function EncodeSat(flags: uint32): (s: seq<uint8>)
    ensures |s| == SatBlockSize
  {
    Zeros(8) + U32Bytes(flags)
  }

  function NavSatPayload(version: uint8, flags: seq<uint32>): seq<uint8>
    requires |flags| < 0x100
  {
    [0, 0, 0, 0, version, |flags|, 0, 0] + Concat(flags, EncodeSat)
  }

  /** Satellite `i` of a built payload carries its flags word at +8. */
  lemma SatFlags(version: uint8, flags: seq<uint32>, i: nat)
    requires |flags| < 0x100 && i < |flags|
    ensures |NavSatPayload(version, flags)| == NavHeaderSize + SatBlockSize * |flags|
    ensures NavHeaderSize + SatBlockSize * i + SatBlockSize <= |NavSatPayload(version, flags)|
    ensures ReadU32(NavSatPayload(version, flags), NavHeaderSize + SatBlockSize * i + 8) == flags[i]
  {
    var h: seq<uint8> := [0, 0, 0, 0, version, |flags|, 0, 0];
    var p := NavSatPayload(version, flags);
    var off := NavHeaderSize + SatBlockSize * i;
    BlockAt(h, flags, EncodeSat, SatBlockSize, i);
    assert p[off..off + SatBlockSize] == EncodeSat(flags[i]);
    SliceOfSlice(p, off, SatBlockSize, 8, 12);
    assert EncodeSat(flags[i])[8..12] == U32Bytes(flags[i]);
    U32At(p, off + 8, flags[i]);
  }

  lemma {:induction false} SatUsedCounts(version: uint8, flags: seq<uint32>, k: nat)
    requires |flags| < 0x100 && k <= |flags|
    requires |NavSatPayload(version, flags)| == NavHeaderSize + SatBlockSize * |flags|
    ensures SatUsed(NavSatPayload(version, flags), k) == Count(flags[..k], UsedInNav)
  {
    if k > 0 {
      SatUsedCounts(version, flags, k - 1);
      SatFlags(version, flags, k - 1);
      CountLast(flags, k, UsedInNav);
    }
  }

  /** NAV-SAT's count is the number of satellites whose flags have bit 3 set. */
  lemma NavSatCountsUsed(dp: Datapoint, version: uint8, flags: seq<uint32>, now: uint64)
    requires |flags| < 0x100
    ensures NavSatReadable(NavSatPayload(version, flags))
    ensures NavSat(dp, NavSatPayload(version, flags), now).svsNav == Count(flags, UsedInNav)
  {
    var p := NavSatPayload(version, flags);
    ConcatLength(flags, EncodeSat, SatBlockSize);
    assert |p| == NavHeaderSize + SatBlockSize * |flags|;
    assert p[5] as int == |flags|;
    SatUsedCounts(version, flags, |flags|);
    assert flags[..|flags|] == flags;
    assert NavSat(dp, p, now).svsNav as int == SatUsed(p, |flags|);
  }

  // --------------------------------------------------------------- NAV-SIG

  /** The NAV-SIG signal fields the handler uses. */
  datatype SigReport = SigReport(sigId: uint8, quality: uint8)

  predicate AcquiredL1(s: SigReport) { s.quality >= 2 && IsL1(s.sigId) }
  predicate AcquiredL2(s: SigReport) { s.quality >= 2 && !IsL1(s.sigId) }
  predicate LockedL1(s: SigReport) { s.quality >= 4 && IsL1(s.sigId) }
  predicate LockedL2(s: SigReport) { s.quality >= 4 && !IsL1(s.sigId) }

  /** One NAV-SIG block with only the signal id and quality indicator set. */
  function EncodeSig(s: SigReport): (r: seq<uint8>)
    ensures |r| == SigBlockSize
  {
    [0, 0, s.sigId, 0, 0, 0, 0, s.quality] + Zeros(8)
  }

  function NavSigPayload(version: uint8, sigs: seq<SigReport>): seq<uint8>
    requires |sigs| < 0x100
  {
    [0, 0, 0, 0, version, |sigs|, 0, 0] + Concat(sigs, EncodeSig)
  }

  /** The four counts of a signal list, each by its own definition. */
  function Reference(sigs: seq<SigReport>): SigCounts
  {
    SigCounts(Count(sigs, AcquiredL1), Count(sigs, AcquiredL2), Count(sigs, LockedL1), Count(sigs, LockedL2))
  }

  /** Signal `i` of a built payload carries its id at +2 and its quality at +7. */
  lemma SigFields(version: uint8, sigs: seq<SigReport>, i: nat)
    requires |sigs| < 0x100 && i < |sigs|
    ensures |NavSigPayload(version, sigs)| == NavHeaderSize + SigBlockSize * |sigs|
    ensures NavHeaderSize + SigBlockSize * i + SigBlockSize <= |NavSigPayload(version, sigs)|
    ensures NavSigPayload(version, sigs)[NavHeaderSize + SigBlockSize * i + 2] == sigs[i].sigId
    ensures NavSigPayload(version, sigs)[NavHeaderSize + SigBlockSize * i + 7] == sigs[i].quality
  {
    var h: seq<uint8> := [0, 0, 0, 0, version, |sigs|, 0, 0];
    var p := NavSigPayload(version, sigs);
    var off := NavHeaderSize + SigBlockSize * i;
    BlockAt(h, sigs, EncodeSig, SigBlockSize, i);
    assert p[off..off + SigBlockSize] == EncodeSig(sigs[i]);
    assert p[off + 2] == EncodeSig(sigs[i])[2];
    assert p[off + 7] == EncodeSig(sigs[i])[7];
  }

  lemma {:induction false} SigTallyCounts(version: uint8, sigs: seq<SigReport>, k: nat)
    requires |sigs| < 0x100 && k <= |sigs|
    requires |NavSigPayload(version, sigs)| == NavHeaderSize + SigBlockSize * |sigs|
    ensures SigTally(NavSigPayload(version, sigs), k) == Reference(sigs[..k])
  {
    if k > 0 {
      SigTallyCounts(version, sigs, k - 1);
      SigFields(version, sigs, k - 1);
      CountLast(sigs, k, AcquiredL1);
      CountLast(sigs, k, AcquiredL2);
      CountLast(sigs, k, LockedL1);
      CountLast(sigs, k, LockedL2);
    }
  }

  /** NAV-SIG's counts agree with counting each category over the signal list. */
  lemma NavSigCountsSignals(dp: Datapoint, version: uint8, sigs: seq<SigReport>, now: uint64)
    requires |sigs| < 0x100
    ensures NavSigReadable(NavSigPayload(version, sigs))
    ensures var r := NavSig(dp, NavSigPayload(version, sigs), now);
      && r.acqL1 == Count(sigs, AcquiredL1) && r.acqL2 == Count(sigs, AcquiredL2)
      && r.lockL1 == Count(sigs, LockedL1) && r.lockL2 == Count(sigs, LockedL2)
  {
    var p := NavSigPayload(version, sigs);
    ConcatLength(sigs, EncodeSig, SigBlockSize);
    assert |p| == NavHeaderSize + SigBlockSize * |sigs|;
    assert p[5] as int == |sigs|;
    SigTallyCounts(version, sigs, |sigs|);
    assert sigs[..|sigs|] == sigs;
  }
}
