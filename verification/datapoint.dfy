/**
 The aggregated jamming-monitor datapoint: one group of fields per UBX message
 type, each with the monotonic time (ms) at which its message last arrived.
 Bands 2 are only filled on multi-band receivers.
 */
module Datapoint {
  import opened Bytes

  datatype Option<T> = None | Some(value: T)

  /** Number of bins in a MON-SPAN spectrum. */
  const SpectrumBins: nat := 256

  /** Per-band RF monitor readings from MON-RF. */
  datatype RfBand = RfBand(agc: uint16, noise: uint16, jamCw: uint8, jamBb: uint8)

  /** A MON-SPAN spectrum: one power reading per bin. */
  type Spectrum = s: seq<uint8> | |s| == SpectrumBins witness Zeros(SpectrumBins)

  /** Per-band spectrum from MON-SPAN. */
  datatype SpanBand = SpanBand(spectrum: Spectrum, span: uint32, res: uint32, center: uint32, pga: uint8)

  /** The `jammon_datapoint` record of `main()`, grouped by the message that fills each field. */
  datatype Datapoint = Datapoint(
    multiband: bool,
    // MON-RF
    rf1: RfBand, rf2: RfBand, monRfAt: uint64,
    // MON-SPAN
    span1: SpanBand, span2: SpanBand, monSpanAt: uint64,
    // NAV-PVT
    timeValid: bool, gnssTimestamp: uint64,
    lat: int32, lon: int32, alt: int32, hAcc: uint32, vAcc: uint32, navPvtAt: uint64,
    // NAV-SAT
    svsNav: uint8, navSatAt: uint64,
    // NAV-SIG
    acqL1: uint8, acqL2: uint8, lockL1: uint8, lockL2: uint8, navSigAt: uint64)

  const NoRf := RfBand(0, 0, 0, 0)
  const NoSpan := SpanBand(Zeros(SpectrumBins), 0, 0, 0, 0)

  /** The zero-initialised datapoint `main()` starts from, with only the band mode set. */
  function Initial(multiband: bool): (dp: Datapoint)
    ensures dp.multiband == multiband
    ensures dp.monRfAt == 0 && dp.monSpanAt == 0 && dp.navPvtAt == 0 && dp.navSatAt == 0 && dp.navSigAt == 0
    ensures dp.rf1.agc == 0 && dp.rf1.noise == 0 && dp.rf1.jamCw == 0 && dp.rf1.jamBb == 0 && dp.rf2 == dp.rf1
    ensures dp.span1.span == 0 && dp.span1.res == 0 && dp.span1.center == 0 && dp.span1.pga == 0 && dp.span2 == dp.span1
    ensures forall i :: 0 <= i < SpectrumBins ==> dp.span1.spectrum[i] == 0
    ensures !dp.timeValid && dp.gnssTimestamp == 0
    ensures dp.lat == 0 && dp.lon == 0 && dp.alt == 0 && dp.hAcc == 0 && dp.vAcc == 0
    ensures dp.svsNav == 0 && dp.acqL1 == 0 && dp.acqL2 == 0 && dp.lockL1 == 0 && dp.lockL2 == 0
  {
    Datapoint(multiband,
      NoRf, NoRf, 0,
      NoSpan, NoSpan, 0,
      false, 0, 0, 0, 0, 0, 0, 0,
      0, 0,
      0, 0, 0, 0, 0)
  }
}
