/**
 The receive loop of `main()`: every frame the recogniser accepts is handed to
 the handler for its class and id, and the datapoint is then emitted when the
 last emission is more than 900 ms old and every message group has been
 refreshed within the last 900 ms. Arrival times stand for `monotonic_ms()`
 and are given with the frames.

 The handlers read the receive buffer at fixed offsets from byte 6 whatever
 the payload length, so each frame comes with `rest`, the bytes the 2048-byte
 buffer holds beyond it (left there by earlier frames and rejected attempts).
 Any contents are allowed.
 */
module Aggregator {
  import opened Bytes
  import opened Ubx
  import opened Datapoint
  import opened Handlers
  import FrameDecoder

  /** Minimum spacing of emissions and maximum age of every message group, in ms. */
  const EmitWindow: nat := 900

  const ClassNav: uint8 := 0x01
  const ClassMon: uint8 := 0x0a
  const IdNavPvt: uint8 := 0x07
  const IdNavSat: uint8 := 0x35
  const IdNavSig: uint8 := 0x43
  const IdMonSpan: uint8 := 0x31
  const IdMonRf: uint8 := 0x38

  /** Loop state: the datapoint and the time of the last emission (0 before the first). */
  datatype Aggregator = Aggregator(dp: Datapoint, lastSent: uint64)

  function Start(multiband: bool): Aggregator
  {
    Aggregator(Initial(multiband), 0)
  }

  /** `f` is an accepted frame at the start of the receive buffer, and `rest` the bytes after it. */
  predicate Buffered(f: seq<uint8>, rest: seq<uint8>)
  {
    WellFormed(f) && |f| + |rest| == FrameDecoder.BufferLength
  }

  /** The buffer from byte 6 on, as the handlers read it: payload, checksum, then the stale bytes. */
  function View(f: seq<uint8>, rest: seq<uint8>): seq<uint8>
    requires |f| >= HeaderSize
  {
    f[HeaderSize..] + rest
  }

  /**
   Whether the frame's payload holds every byte its handler reads, so that
   the bytes beyond it play no part. NAV-SAT and NAV-SIG use the
   payload-bounded handlers, which read within any payload.
   */
  predicate Readable(multiband: bool, f: seq<uint8>)
    requires WellFormed(f)
  {
    var p := Payload(f);
    if f[2] == ClassMon && f[3] == IdMonRf then MonRfReadable(multiband, p)
    else if f[2] == ClassMon && f[3] == IdMonSpan then MonSpanReadable(multiband, p)
    else if f[2] == ClassNav && f[3] == IdNavPvt then |p| >= PvtReadSize
    else true
  }

  predicate Known(f: seq<uint8>)
    requires |f| >= 4
  {
    (f[2] == ClassMon && (f[3] == IdMonRf || f[3] == IdMonSpan))
    || (f[2] == ClassNav && (f[3] == IdNavPvt || f[3] == IdNavSat || f[3] == IdNavSig))
  }

  /**
   The handler chain. `None` stands for a `continue`, which only a MON-RF or
   MON-SPAN frame with the wrong version or block count takes. MON-RF,
   MON-SPAN and NAV-PVT read the buffer from byte 6; NAV-SAT and NAV-SIG use
   the payload-bounded handlers. Other classes leave the datapoint as it is
   but still reach the emit check.
   */
  function Apply(dp: Datapoint, f: seq<uint8>, rest: seq<uint8>, now: uint64, toEpoch: CalendarTime -> uint64): (r: Option<Datapoint>)
    requires Buffered(f, rest)
    ensures !Known(f) ==> r == Some(dp)
    ensures r.Some? ==> r.value.multiband == dp.multiband
    ensures r.None? <==>
      && f[2] == ClassMon && (f[3] == IdMonRf || f[3] == IdMonSpan)
      && (View(f, rest)[0] != 0 || View(f, rest)[1] != ExpectedBlocks(dp.multiband))
  {
    var v := View(f, rest);
    if f[2] == ClassMon && f[3] == IdMonRf then MonRf(dp, v, now)
    else if f[2] == ClassMon && f[3] == IdMonSpan then MonSpan(dp, v, now)
    else if f[2] == ClassNav && f[3] == IdNavPvt then Some(NavPvt(dp, v, now, toEpoch))
    else if f[2] == ClassNav && f[3] == IdNavSat then Some(NavSatChecked(dp, Payload(f), now))
    else if f[2] == ClassNav && f[3] == IdNavSig then Some(NavSigChecked(dp, Payload(f), now))
    else Some(dp)
  }

  /**
   When the payload holds every byte its handler reads, the stale bytes play
   no part: the handler gives the same result as on the payload alone.
   */
  lemma PayloadSuffices(dp: Datapoint, f: seq<uint8>, rest: seq<uint8>, now: uint64, toEpoch: CalendarTime -> uint64)
    requires Buffered(f, rest) && Readable(dp.multiband, f)
    ensures f[2] == ClassMon && f[3] == IdMonRf ==> Apply(dp, f, rest, now, toEpoch) == MonRf(dp, Payload(f), now)
    ensures f[2] == ClassMon && f[3] == IdMonSpan ==> Apply(dp, f, rest, now, toEpoch) == MonSpan(dp, Payload(f), now)
    ensures f[2] == ClassNav && f[3] == IdNavPvt ==> Apply(dp, f, rest, now, toEpoch) == Some(NavPvt(dp, Payload(f), now, toEpoch))
  {
    var p := Payload(f);
    var v := View(f, rest);
    assert v[..|p|] == p;
    if f[2] == ClassMon && f[3] == IdMonRf {
      MonRfPrefix(dp, v, p, now);
    } else if f[2] == ClassMon && f[3] == IdMonSpan {
      MonSpanPrefix(dp, v, p, now);
    } else if f[2] == ClassNav && f[3] == IdNavPvt {
      NavPvtPrefix(dp, v, p, now, toEpoch);
    }
  }

  lemma MonRfPrefix(dp: Datapoint, v: seq<uint8>, p: seq<uint8>, now: uint64)
    requires MonRfReadable(dp.multiband, p) && MonRfReadable(dp.multiband, v)
    requires |p| <= |v| && v[..|p|] == p
    ensures MonRf(dp, v, now) == MonRf(dp, p, now)
  {
    assert forall i | 0 <= i < |p| :: v[i] == p[i];
  }

  lemma MonSpanPrefix(dp: Datapoint, v: seq<uint8>, p: seq<uint8>, now: uint64)
    requires MonSpanReadable(dp.multiband, p) && MonSpanReadable(dp.multiband, v)
    requires |p| <= |v| && v[..|p|] == p
    ensures MonSpan(dp, v, now) == MonSpan(dp, p, now)
  {
    if p[0] == 0 && p[1] == ExpectedBlocks(dp.multiband) {
      SpanBlockPrefix(v, p, MonHeaderSize);
      if dp.multiband {
        SpanBlockPrefix(v, p, MonHeaderSize + SpanBlockSize);
      }
    }
  }

  lemma SpanBlockPrefix(v: seq<uint8>, p: seq<uint8>, off: nat)
    requires off + SpanBlockSize <= |p| <= |v| && v[..|p|] == p
    ensures ReadSpanBlock(v, off) == ReadSpanBlock(p, off)
  {
    assert v[off..off + SpectrumBins] == v[..|p|][off..off + SpectrumBins];
    assert forall i | 0 <= i < |p| :: v[i] == p[i];
  }

  lemma NavPvtPrefix(dp: Datapoint, v: seq<uint8>, p: seq<uint8>, now: uint64, toEpoch: CalendarTime -> uint64)
    requires PvtReadSize <= |p| <= |v| && v[..|p|] == p
    ensures NavPvt(dp, v, now, toEpoch) == NavPvt(dp, p, now, toEpoch)
  {
    assert forall i | 0 <= i < |p| :: v[i] == p[i];
  }

  /** More than the window has passed since the last emission, or there has been none. */
  predicate GateOpen(lastSent: uint64, now: uint64)
  {
    lastSent == 0 || lastSent + EmitWindow < now
  }

  /** Every message group arrived less than the window before `now`. */
  predicate AllFresh(dp: Datapoint, now: uint64)
  {
    && dp.monRfAt + EmitWindow > now
    && dp.monSpanAt + EmitWindow > now
    && dp.navPvtAt + EmitWindow > now
    && dp.navSatAt + EmitWindow > now
    && dp.navSigAt + EmitWindow > now
  }

  datatype Outcome = Outcome(next: Aggregator, sent: Option<Datapoint>)

  /** One pass of the loop body for an accepted frame arriving at `now`. */
  function Step(a: Aggregator, f: seq<uint8>, rest: seq<uint8>, now: uint64, toEpoch: CalendarTime -> uint64): (o: Outcome)
    requires Buffered(f, rest)
    ensures Apply(a.dp, f, rest, now, toEpoch).None? ==> o == Outcome(a, None)
    ensures Apply(a.dp, f, rest, now, toEpoch).Some? ==> o.next.dp == Apply(a.dp, f, rest, now, toEpoch).value
    ensures o.sent.Some? <==>
      Apply(a.dp, f, rest, now, toEpoch).Some? && GateOpen(a.lastSent, now) && AllFresh(o.next.dp, now)
    ensures o.sent.Some? ==> o.sent.value == o.next.dp && o.next.lastSent == now
    ensures o.sent.None? ==> o.next.lastSent == a.lastSent
    ensures o.next.dp.multiband == a.dp.multiband
  {
    match Apply(a.dp, f, rest, now, toEpoch)
    case None => Outcome(a, None)
    case Some(dp) =>
      if GateOpen(a.lastSent, now) && AllFresh(dp, now) then Outcome(Aggregator(dp, now), Some(dp))
      else Outcome(Aggregator(dp, a.lastSent), None)
  }

  /** An emitted datapoint and the time it was sent. */
  datatype Sent = Sent(at: uint64, dp: Datapoint)

  datatype History = History(last: Aggregator, sent: seq<Sent>)

  /** Accepted frames, the buffer bytes beyond each, and their arrival times, index by index. */
  predicate Received(fs: seq<seq<uint8>>, rests: seq<seq<uint8>>, times: seq<uint64>)
  {
    && |rests| == |fs| && |times| == |fs|
    && forall i :: 0 <= i < |fs| ==> Buffered(fs[i], rests[i])
  }

  /** The loop over accepted frames `fs`, the i-th arriving at `times[i]` with `rests[i]` beyond it in the buffer. */
  function Run(a: Aggregator, fs: seq<seq<uint8>>, rests: seq<seq<uint8>>, times: seq<uint64>, toEpoch: CalendarTime -> uint64): (h: History)
    requires Received(fs, rests, times)
    ensures h.last.dp.multiband == a.dp.multiband
    ensures |h.sent| <= |fs|
    decreases |fs|
  {
    if fs == [] then History(a, [])
    else
      var o := Step(a, fs[0], rests[0], times[0], toEpoch);
      var h := Run(o.next, fs[1..], rests[1..], times[1..], toEpoch);
      match o.sent
      case None => h
      case Some(dp) => History(h.last, [Sent(times[0], dp)] + h.sent)
  }

  /** Emissions after one at a time above 0 come more than the window later. */
  predicate Spaced(lastSent: uint64, sent: seq<Sent>)
  {
    && (|sent| > 0 && lastSent > 0 ==> sent[0].at > lastSent + EmitWindow)
    && forall i :: 0 <= i < |sent| - 1 && sent[i].at > 0 ==> sent[i + 1].at > sent[i].at + EmitWindow
  }

  /**
   Emissions at times above 0 are more than 900 ms apart, whatever order the
   arrival times come in: each emission records its own time as the last one.
   */
  lemma {:induction false} RunSpaced(a: Aggregator, fs: seq<seq<uint8>>, rests: seq<seq<uint8>>, times: seq<uint64>, toEpoch: CalendarTime -> uint64)
    requires Received(fs, rests, times)
    ensures Spaced(a.lastSent, Run(a, fs, rests, times, toEpoch).sent)
    decreases |fs|
  {
    if fs != [] {
      var o := Step(a, fs[0], rests[0], times[0], toEpoch);
      RunSpaced(o.next, fs[1..], rests[1..], times[1..], toEpoch);
      var rest := Run(o.next, fs[1..], rests[1..], times[1..], toEpoch).sent;
      if o.sent.Some? {
        var sent := [Sent(times[0], o.sent.value)] + rest;
        assert Run(a, fs, rests, times, toEpoch).sent == sent;
        forall i | 0 <= i < |sent| - 1 && sent[i].at > 0
          ensures sent[i + 1].at > sent[i].at + EmitWindow
        {
          if i > 0 {
            assert sent[i] == rest[i - 1] && sent[i + 1] == rest[i];
          }
        }
      }
    }
  }

  /** Every emitted datapoint is one whose groups were all refreshed within the window before it was sent. */
  lemma {:induction false} RunSendsFresh(a: Aggregator, fs: seq<seq<uint8>>, rests: seq<seq<uint8>>, times: seq<uint64>, toEpoch: CalendarTime -> uint64)
    requires Received(fs, rests, times)
    ensures forall s :: s in Run(a, fs, rests, times, toEpoch).sent ==> AllFresh(s.dp, s.at)
    ensures forall s :: s in Run(a, fs, rests, times, toEpoch).sent ==> s.at in times
    decreases |fs|
  {
    if fs != [] {
      var o := Step(a, fs[0], rests[0], times[0], toEpoch);
      RunSendsFresh(o.next, fs[1..], rests[1..], times[1..], toEpoch);
      forall t | t in times[1..] ensures t in times {
      }
    }
  }

  /** The five message groups of the datapoint, each with its own arrival time. */
  datatype Group = MonRfGroup | MonSpanGroup | NavPvtGroup | NavSatGroup | NavSigGroup

  /** When `dp` last received group `g` (0 if never). */
  function Stamp(dp: Datapoint, g: Group): uint64
  {
    match g
    case MonRfGroup => dp.monRfAt
    case MonSpanGroup => dp.monSpanAt
    case NavPvtGroup => dp.navPvtAt
    case NavSatGroup => dp.navSatAt
    case NavSigGroup => dp.navSigAt
  }

  /** Frame `f` is of the class and id that fill group `g`. */
  predicate Carries(f: seq<uint8>, g: Group)
  {
    |f| >= 4 &&
    match g
    case MonRfGroup => f[2] == ClassMon && f[3] == IdMonRf
    case MonSpanGroup => f[2] == ClassMon && f[3] == IdMonSpan
    case NavPvtGroup => f[2] == ClassNav && f[3] == IdNavPvt
    case NavSatGroup => f[2] == ClassNav && f[3] == IdNavSat
    case NavSigGroup => f[2] == ClassNav && f[3] == IdNavSig
  }

  /** A frame changes the arrival time of group `g` only by carrying `g`, and then sets it to the frame's time. */
  lemma StepStamps(a: Aggregator, f: seq<uint8>, rest: seq<uint8>, now: uint64, toEpoch: CalendarTime -> uint64, g: Group)
    requires Buffered(f, rest)
    ensures var t := Stamp(Step(a, f, rest, now, toEpoch).next.dp, g);
      t == Stamp(a.dp, g) || (Carries(f, g) && t == now)
  {
    var p := View(f, rest);
    if f[2] == ClassMon && f[3] == IdMonRf {
      var r := MonRf(a.dp, p, now);
      if r.Some? { assert OnlyRf(a.dp, r.value); }
    } else if f[2] == ClassMon && f[3] == IdMonSpan {
      var r := MonSpan(a.dp, p, now);
      if r.Some? { assert OnlySpan(a.dp, r.value); }
    }
  }

  /**
   Along a run, every emitted datapoint still has the arrival time of group
   `g` it started with, or has the arrival time of a frame carrying `g`.
   */
  lemma {:induction false} RunStamps(a: Aggregator, fs: seq<seq<uint8>>, rests: seq<seq<uint8>>, times: seq<uint64>, toEpoch: CalendarTime -> uint64, g: Group)
    requires Received(fs, rests, times)
    ensures forall s :: s in Run(a, fs, rests, times, toEpoch).sent ==>
      || Stamp(s.dp, g) == Stamp(a.dp, g)
      || exists i :: 0 <= i < |fs| && Carries(fs[i], g) && times[i] == Stamp(s.dp, g)
    decreases |fs|
  {
    if fs != [] {
      var o := Step(a, fs[0], rests[0], times[0], toEpoch);
      StepStamps(a, fs[0], rests[0], times[0], toEpoch, g);
      RunStamps(o.next, fs[1..], rests[1..], times[1..], toEpoch, g);
      var rest := Run(o.next, fs[1..], rests[1..], times[1..], toEpoch).sent;
      forall s | s in Run(a, fs, rests, times, toEpoch).sent
        ensures || Stamp(s.dp, g) == Stamp(a.dp, g)
                || exists i :: 0 <= i < |fs| && Carries(fs[i], g) && times[i] == Stamp(s.dp, g)
      {
        if s in rest && Stamp(s.dp, g) != Stamp(o.next.dp, g) {
          var j :| 0 <= j < |fs[1..]| && Carries(fs[1..][j], g) && times[1..][j] == Stamp(s.dp, g);
          assert fs[1..][j] == fs[j + 1] && times[1..][j] == times[j + 1];
        } else if Stamp(o.next.dp, g) != Stamp(a.dp, g) {
          assert Carries(fs[0], g) && times[0] == Stamp(s.dp, g);
        }
      }
    }
  }

  /**
   A datapoint emitted 900 ms or more after start-up has received every
   message group: for each group it carries the arrival time of a frame of
   that group's class and id, less than 900 ms before the emission.
   */
  lemma FreshMeansReceived(multiband: bool, fs: seq<seq<uint8>>, rests: seq<seq<uint8>>, times: seq<uint64>, toEpoch: CalendarTime -> uint64, g: Group)
    requires Received(fs, rests, times)
    ensures forall s :: s in Run(Start(multiband), fs, rests, times, toEpoch).sent && s.at >= EmitWindow ==>
      exists i :: 0 <= i < |fs| && Carries(fs[i], g) && times[i] == Stamp(s.dp, g) && times[i] + EmitWindow > s.at
  {
    RunStamps(Start(multiband), fs, rests, times, toEpoch, g);
    RunSendsFresh(Start(multiband), fs, rests, times, toEpoch);
  }

  /**
   Before 900 ms the zero timestamps of the initial datapoint already count as
   fresh, so the first frame of any class, even an unrecognised one, emits the
   all-zero datapoint.
   */
  lemma EarlyFrameEmitsInitial(multiband: bool, f: seq<uint8>, rest: seq<uint8>, now: uint64, toEpoch: CalendarTime -> uint64)
    requires Buffered(f, rest) && !Known(f) && now < EmitWindow
    ensures Step(Start(multiband), f, rest, now, toEpoch).sent == Some(Initial(multiband))
  {
  }

  /** A MON-RF or MON-SPAN frame with a bad version or block count changes nothing and emits nothing. */
  lemma RejectedFrameIsIgnored(a: Aggregator, f: seq<uint8>, rest: seq<uint8>, now: uint64, toEpoch: CalendarTime -> uint64)
    requires Buffered(f, rest)
    requires f[2] == ClassMon && (f[3] == IdMonRf || f[3] == IdMonSpan)
    requires View(f, rest)[0] != 0 || View(f, rest)[1] != ExpectedBlocks(a.dp.multiband)
    ensures Step(a, f, rest, now, toEpoch) == Outcome(a, None)
  {
  }

  /**
   As written, the NAV-SAT loop runs over `num_svs` blocks whatever the
   payload length: a checksummed 16-byte frame with `num_svs` = 255 is
   accepted, yet the source reads the flags of its last block at frame offset
   3070, past the end of the 2048-byte buffer.
   */
  lemma NavSatReadsPastBuffer()
    ensures var f := MakeFrame(ClassNav, IdNavSat, Zeros(5) + [255, 0, 0]);
      && FrameDecoder.WaitUbx(FrameDecoder.MaxPayload, f) == FrameDecoder.Wait(FrameDecoder.Frame(f), [])
      && |f| <= FrameDecoder.BufferLength
      && Payload(f)[5] == 255
      && !NavSatReadable(Payload(f))
      && HeaderSize + NavHeaderSize + SatBlockSize * 254 + 8 >= FrameDecoder.BufferLength
      && NavSatChecked(Initial(false), Payload(f), 1).svsNav == 0
  {
    var f := MakeFrame(ClassNav, IdNavSat, Zeros(5) + [255, 0, 0]);
    FrameDecoder.RecognisesFrame(FrameDecoder.MaxPayload, f, []);
    assert f + [] == f;
  }

  /**
   As written, the NAV-SIG loop runs over `num_svs` blocks whatever the
   payload length: a checksummed 16-byte frame with `num_svs` = 128 is
   accepted, yet the source reads the quality of its last signal at frame
   offset 2053, past the end of the 2048-byte buffer.
   */
  lemma NavSigReadsPastBuffer()
    ensures var f := MakeFrame(ClassNav, IdNavSig, Zeros(5) + [128, 0, 0]);
      && FrameDecoder.WaitUbx(FrameDecoder.MaxPayload, f) == FrameDecoder.Wait(FrameDecoder.Frame(f), [])
      && |f| <= FrameDecoder.BufferLength
      && Payload(f)[5] == 128
      && !NavSigReadable(Payload(f))
      && HeaderSize + NavHeaderSize + SigBlockSize * 127 + 7 >= FrameDecoder.BufferLength
      && NavSigChecked(Initial(false), Payload(f), 1).acqL1 == 0
  {
    var f := MakeFrame(ClassNav, IdNavSig, Zeros(5) + [128, 0, 0]);
    FrameDecoder.RecognisesFrame(FrameDecoder.MaxPayload, f, []);
    assert f + [] == f;
  }

  /** The frames successive calls of `wait_ubx` return from a byte stream, with the corrected length guard. */
  function Frames(input: seq<uint8>): (fs: seq<seq<uint8>>)
    ensures forall i :: 0 <= i < |fs| ==> WellFormed(fs[i]) && |fs[i]| <= FrameDecoder.BufferLength
    decreases |input|
  {
    var w := FrameDecoder.WaitUbx(FrameDecoder.MaxPayload, input);
    FrameDecoder.CorrectedGuardFitsBuffer(input);
    match w.outcome
    case EndOfInput => []
    case Oversize(_) => Frames(w.rest)
    case Frame(f) => [f] + Frames(w.rest)
  }

  /** The whole session: decode the stream, then run the loop over the frames and their arrival times. */
  function Session(multiband: bool, input: seq<uint8>, rests: seq<seq<uint8>>, times: seq<uint64>, toEpoch: CalendarTime -> uint64): (h: History)
    requires |times| == |Frames(input)| && |rests| == |Frames(input)|
    requires forall i :: 0 <= i < |rests| ==> |Frames(input)[i]| + |rests[i]| == FrameDecoder.BufferLength
    ensures Spaced(0, h.sent)
    ensures forall s :: s in h.sent ==> AllFresh(s.dp, s.at)
  {
    var fs := Frames(input);
    assert Received(fs, rests, times);
    RunSpaced(Start(multiband), fs, rests, times, toEpoch);
    RunSendsFresh(Start(multiband), fs, rests, times, toEpoch);
    Run(Start(multiband), fs, rests, times, toEpoch)
  }
}
