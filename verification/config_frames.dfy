/**
 The prebuilt configuration frames of `main.c`, byte for byte, grouped the way
 the source lays them out, and the order in which start-up sends them.
 */
module ConfigFrames {
  import opened Bytes
  import opened Ubx

  /** UBX-CFG-RST: hot start, hardware (watchdog) reset. */
  const CfgRst: seq<uint8> :=
    [0xb5, 0x62, 0x06, 0x04, 0x04, 0x00]
    + [0x00, 0x00, 0x04, 0x00]
    + [0x12, 0x6c]

  /** UBX-CFG-PRT for USB: UBX in, UBX out, NMEA disabled. */
  const DisableNmeaUsb: seq<uint8> :=
    [0xb5, 0x62, 0x06, 0x00, 0x14, 0x00]
    + [0x03, 0x00]
    + Zeros(10)
    + [0x03, 0x00, 0x01, 0x00]
    + Zeros(4)
    + [0x21, 0xa2]

  /** UBX-CFG-VALSET: enable interference monitoring and select the active antenna. */
  const EnableItfm: seq<uint8> :=
    [0xb5, 0x62, 0x06, 0x8a, 0x0e, 0x00]
    + [0x00, 0x01, 0x00, 0x00]
    + [0x0d, 0x00, 0x41, 0x10, 0x01]
    + [0x10, 0x00, 0x41, 0x20, 0x02]
    + [0x71, 0xd8]

  /**
   UBX-CFG-NAV5: apply-mask 1 (dynamic model only), dynamic model 4
   (automotive); fix type, altitudes, elevation, DOP and accuracy masks,
   static-hold, DGNSS, satellite and UTC settings are all zero.
   */
  const SetNavAutomotive: seq<uint8> :=
    [0xb5, 0x62, 0x06, 0x24, 0x24, 0x00]
    + [0x01, 0x00, 0x04, 0x00]
    + Zeros(32)
    + [0x53, 0x70]

  const CfgMsgHeader: seq<uint8> := [0xb5, 0x62, 0x06, 0x01, 0x08, 0x00]
  /** Output rates per port: only port 3 (USB), once per navigation epoch. */
  const CfgMsgRates: seq<uint8> := [0x00, 0x00, 0x00, 0x01, 0x00, 0x00]

  /** UBX-CFG-MSG enabling message `cls`/`id` on USB, with its checksum bytes as written in the source. */
  function EnableMessage(cls: uint8, id: uint8, ckA: uint8, ckB: uint8): seq<uint8>
  {
    CfgMsgHeader + [cls, id] + CfgMsgRates + [ckA, ckB]
  }

  const EnableNavPvt: seq<uint8> := EnableMessage(0x01, 0x07, 0x18, 0xdf)
  const EnableMonRf: seq<uint8> := EnableMessage(0x0a, 0x38, 0x52, 0x7e)
  const EnableMonSpan: seq<uint8> := EnableMessage(0x0a, 0x31, 0x4b, 0x4d)
  const EnableNavSat: seq<uint8> := EnableMessage(0x01, 0x35, 0x46, 0x21)
  const EnableNavSig: seq<uint8> := EnableMessage(0x01, 0x43, 0x54, 0x83)

  /** The commands start-up confirms one by one, in the order `main()` sends them. */
  const StartupSequence: seq<seq<uint8>> := [
    DisableNmeaUsb, EnableItfm, SetNavAutomotive,
    EnableNavPvt, EnableNavSat, EnableNavSig, EnableMonRf, EnableMonSpan]

  /** A header-plus-payload span followed by its two checksum bytes is a well-formed frame. */
  lemma Sealed(body: seq<uint8>, ckA: uint8, ckB: uint8)
    requires |body| >= HeaderSize && body[0] == Sync1 && body[1] == Sync2
    requires ReadU16(body, 4) as int == |body| - HeaderSize
    requires RunA(body, |body|) % 0x100 == ckA && RunB(body, |body|) % 0x100 == ckB
    ensures WellFormed(body + [ckA, ckB])
  {
    RunPrefix(body, [ckA, ckB], |body|);
  }

  lemma CfgRstWellFormed()
    ensures WellFormed(CfgRst)
  {
    var h: seq<uint8> := [0xb5, 0x62, 0x06, 0x04, 0x04, 0x00];
    var p: seq<uint8> := [0x00, 0x00, 0x04, 0x00];
    RunAppend(h, p, |p|);
    Sealed(h + p, 0x12, 0x6c);
  }

  lemma DisableNmeaUsbWellFormed()
    ensures WellFormed(DisableNmeaUsb)
  {
    var h: seq<uint8> := [0xb5, 0x62, 0x06, 0x00, 0x14, 0x00];
    var p1: seq<uint8> := [0x03, 0x00];
    var p3: seq<uint8> := [0x03, 0x00, 0x01, 0x00];
    RunAppend(h, p1, |p1|);
    RunAppend(h + p1, Zeros(10), 10);
    ZeroSums(10, 10);
    RunAppend(h + p1 + Zeros(10), p3, |p3|);
    RunAppend(h + p1 + Zeros(10) + p3, Zeros(4), 4);
    ZeroSums(4, 4);
    Sealed(h + p1 + Zeros(10) + p3 + Zeros(4), 0x21, 0xa2);
  }

  lemma EnableItfmWellFormed()
    ensures WellFormed(EnableItfm)
  {
    var h: seq<uint8> := [0xb5, 0x62, 0x06, 0x8a, 0x0e, 0x00];
    var p1: seq<uint8> := [0x00, 0x01, 0x00, 0x00];
    var p2: seq<uint8> := [0x0d, 0x00, 0x41, 0x10, 0x01];
    var p3: seq<uint8> := [0x10, 0x00, 0x41, 0x20, 0x02];
    RunAppend(h, p1, |p1|);
    RunAppend(h + p1, p2, |p2|);
    RunAppend(h + p1 + p2, p3, |p3|);
    Sealed(h + p1 + p2 + p3, 0x71, 0xd8);
  }

  lemma SetNavAutomotiveWellFormed()
    ensures WellFormed(SetNavAutomotive)
  {
    var h: seq<uint8> := [0xb5, 0x62, 0x06, 0x24, 0x24, 0x00];
    var p1: seq<uint8> := [0x01, 0x00, 0x04, 0x00];
    RunAppend(h, p1, |p1|);
    RunAppend(h + p1, Zeros(32), 32);
    ZeroSums(32, 32);
    Sealed(h + p1 + Zeros(32), 0x53, 0x70);
  }

  /** The checksum of any UBX-CFG-MSG enable frame, as a function of the target class and id. */
  lemma EnableMessageSums(cls: uint8, id: uint8)
    ensures RunA(CfgMsgHeader + [cls, id] + CfgMsgRates, 14) == 16 + cls + id
    ensures RunB(CfgMsgHeader + [cls, id] + CfgMsgRates, 14) == 43 + 2 * 15 + 2 * cls + id + 6 * (15 + cls + id) + 3
  {
    var h: seq<uint8> := [0xb5, 0x62, 0x06, 0x01, 0x08, 0x00];
    var rates: seq<uint8> := [0x00, 0x00, 0x00, 0x01, 0x00, 0x00];
    assert RunA(h, 6) == 15 && RunB(h, 6) == 43;
    assert Sum(rates, 6) == 1 && Tri(rates, 6) == 3;
    var ci: seq<uint8> := [cls, id];
    assert Sum(ci, 1) == cls;
    assert Sum(ci, 2) == cls + id;
    assert Tri(ci, 1) == cls;
    assert Tri(ci, 2) == 2 * cls + id;
    RunAppend(h, ci, 2);
    RunAppend(h + ci, rates, 6);
    assert CfgMsgHeader + [cls, id] + CfgMsgRates == h + ci + rates;
  }

  lemma EnableMessageWellFormed(cls: uint8, id: uint8, ckA: uint8, ckB: uint8)
    requires ckA == (16 + cls + id) % 0x100
    requires ckB == (43 + 2 * 15 + 2 * cls + id + 6 * (15 + cls + id) + 3) % 0x100
    ensures WellFormed(EnableMessage(cls, id, ckA, ckB))
  {
    EnableMessageSums(cls, id);
    Sealed(CfgMsgHeader + [cls, id] + CfgMsgRates, ckA, ckB);
  }

  lemma EnableNavPvtWellFormed() ensures WellFormed(EnableNavPvt) { EnableMessageWellFormed(0x01, 0x07, 0x18, 0xdf); }
  lemma EnableNavSatWellFormed() ensures WellFormed(EnableNavSat) { EnableMessageWellFormed(0x01, 0x35, 0x46, 0x21); }
  lemma EnableNavSigWellFormed() ensures WellFormed(EnableNavSig) { EnableMessageWellFormed(0x01, 0x43, 0x54, 0x83); }
  lemma EnableMonRfWellFormed() ensures WellFormed(EnableMonRf) { EnableMessageWellFormed(0x0a, 0x38, 0x52, 0x7e); }
  lemma EnableMonSpanWellFormed() ensures WellFormed(EnableMonSpan) { EnableMessageWellFormed(0x0a, 0x31, 0x4b, 0x4d); }

  /** Each start-up command is a well-formed frame, so its class and id sit at bytes 2 and 3. */
  lemma StartupSequenceWellFormed()
    ensures WellFormed(DisableNmeaUsb) && WellFormed(EnableItfm) && WellFormed(SetNavAutomotive)
    ensures WellFormed(EnableNavPvt) && WellFormed(EnableNavSat) && WellFormed(EnableNavSig)
    ensures WellFormed(EnableMonRf) && WellFormed(EnableMonSpan)
  {
    DisableNmeaUsbWellFormed();
    EnableItfmWellFormed();
    SetNavAutomotiveWellFormed();
    EnableNavPvtWellFormed();
    EnableNavSatWellFormed();
    EnableNavSigWellFormed();
    EnableMonRfWellFormed();
    EnableMonSpanWellFormed();
  }

  /** Every start-up command is a UBX-CFG command (class 06) of at least a frame's overhead in length. */
  lemma StartupClasses()
    ensures |StartupSequence| == 8
    ensures forall i :: 0 <= i < |StartupSequence| ==> |StartupSequence[i]| >= Overhead && StartupSequence[i][2] == 0x06
  {
    assert |DisableNmeaUsb| >= Overhead && DisableNmeaUsb[2] == 0x06;
    assert |EnableItfm| >= Overhead && EnableItfm[2] == 0x06;
    assert |SetNavAutomotive| >= Overhead && SetNavAutomotive[2] == 0x06;
    assert |EnableNavPvt| >= Overhead && EnableNavPvt[2] == 0x06;
    assert |EnableNavSat| >= Overhead && EnableNavSat[2] == 0x06;
    assert |EnableNavSig| >= Overhead && EnableNavSig[2] == 0x06;
    assert |EnableMonRf| >= Overhead && EnableMonRf[2] == 0x06;
    assert |EnableMonSpan| >= Overhead && EnableMonSpan[2] == 0x06;
  }
}
