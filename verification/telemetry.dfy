/**
 `udp_send_msgpack`: the datapoint as a MessagePack map of small integer keys
 to scalars or fixed-arity arrays, and `file_writer`, the callback that appends
 each encoded piece to the 4096-byte send buffer.

 The byte-level MessagePack encoding belongs to the cmp library and is not
 modelled; the map is kept as its declared count and its key/value entries.
 Sizes are bounded with the largest forms the MessagePack specification
 allows for each kind of item.
 */
module Telemetry {
  import opened Bytes
  import opened Datapoint

  /** Size of the static buffer the encoder writes into. */
  const CmpBufferSize: nat := 4096

  datatype Value = UInt(n: nat) | SInt(i: int) | Bin(bytes: seq<uint8>)

  datatype Entry = Scalar(key: nat, value: Value) | Array(key: nat, items: seq<Value>)

  /** A map header with its declared number of pairs, and the pairs as written. */
  datatype Message = Message(count: nat, entries: seq<Entry>)

  /** The keys of the pairs, in the order they are written. */
  function Keys(es: seq<Entry>): seq<nat>
  {
    seq(|es|, i requires 0 <= i < |es| => es[i].key)
  }

  /** Automatic gain control and noise level of one band. */
  function AgcEntry(key: nat, b: RfBand): Entry
  {
    Array(key, [UInt(b.agc), UInt(b.noise)])
  }

  /** Continuous-wave and broadband jamming indicators of one band. */
  function JamEntry(key: nat, b: RfBand): Entry
  {
    Array(key, [UInt(b.jamCw), UInt(b.jamBb)])
  }

  /** Centre frequency, resolution, the spectrum as one binary item, PGA gain. The span is not sent. */
  function SpanEntry(key: nat, b: SpanBand): Entry
  {
    Array(key, [UInt(b.center), UInt(b.res), Bin(b.spectrum), UInt(b.pga)])
  }

  function TimeEntry(dp: Datapoint): Entry { Scalar(0, UInt(dp.gnssTimestamp)) }
  function PositionEntry(dp: Datapoint): Entry { Array(1, [SInt(dp.lat), SInt(dp.lon), SInt(dp.alt)]) }
  function AccuracyEntry(dp: Datapoint): Entry { Array(2, [UInt(dp.hAcc), UInt(dp.vAcc)]) }
  function SignalsEntry(dp: Datapoint): Entry
  {
    Array(3, [UInt(dp.acqL1), UInt(dp.acqL2), UInt(dp.lockL1), UInt(dp.lockL2), UInt(dp.svsNav)])
  }

  /** The map `udp_send_msgpack` writes for a datapoint, pairs in the order they are written. */
  function Encode(dp: Datapoint): (m: Message)
    ensures m.count == |m.entries|
    ensures m.count == if dp.multiband then 10 else 7
    ensures Keys(m.entries) == if dp.multiband then [0, 1, 2, 3, 4, 5, 6, 7, 10, 11] else [0, 1, 2, 3, 4, 5, 10]
  {
    if dp.multiband then
      Message(10, [TimeEntry(dp), PositionEntry(dp), AccuracyEntry(dp), SignalsEntry(dp),
                   AgcEntry(4, dp.rf1), JamEntry(5, dp.rf1), AgcEntry(6, dp.rf2), JamEntry(7, dp.rf2),
                   SpanEntry(10, dp.span1), SpanEntry(11, dp.span2)])
    else
      Message(7, [TimeEntry(dp), PositionEntry(dp), AccuracyEntry(dp), SignalsEntry(dp),
                  AgcEntry(4, dp.rf1), JamEntry(5, dp.rf1), SpanEntry(10, dp.span1)])
  }

  /** Array arities per key: 3, 2, 5, 2, 2 (and 2, 2), 4 (and 4), with key 0 a scalar. */
  function Arity(key: nat): nat
  {
    if key == 1 then 3 else if key == 3 then 5 else if key == 10 || key == 11 then 4 else if key == 0 then 0 else 2
  }

  lemma EncodeShape(dp: Datapoint)
    ensures var es := Encode(dp).entries;
      && es[0].Scalar?
      && forall i :: 1 <= i < |es| ==> es[i].Array? && |es[i].items| == Arity(es[i].key)
    ensures var es := Encode(dp).entries;
      var s := es[if dp.multiband then 8 else 6];
      s.items[2] == Bin(dp.span1.spectrum) && |s.items[2].bytes| == SpectrumBins
  {
  }

  // ---------------------------------------------------- what a receiver sees

  datatype RfView = RfView(agc: nat, noise: nat, jamCw: nat, jamBb: nat)
  datatype SpanView = SpanView(center: nat, res: nat, spectrum: seq<uint8>, pga: nat)

  /** The fields of a datapoint that reach the wire. */
  datatype Report = Report(
    timestamp: nat, lat: int, lon: int, alt: int, hAcc: nat, vAcc: nat,
    acqL1: nat, acqL2: nat, lockL1: nat, lockL2: nat, svsNav: nat,
    rf1: RfView, rf2: Option<RfView>, span1: SpanView, span2: Option<SpanView>)

  /** The transmitted content of a datapoint, defined field by field. */
  function Project(dp: Datapoint): Report
  {
    Report(dp.gnssTimestamp, dp.lat, dp.lon, dp.alt, dp.hAcc, dp.vAcc,
      dp.acqL1, dp.acqL2, dp.lockL1, dp.lockL2, dp.svsNav,
      RfView(dp.rf1.agc, dp.rf1.noise, dp.rf1.jamCw, dp.rf1.jamBb),
      if dp.multiband then Some(RfView(dp.rf2.agc, dp.rf2.noise, dp.rf2.jamCw, dp.rf2.jamBb)) else None,
      SpanView(dp.span1.center, dp.span1.res, dp.span1.spectrum, dp.span1.pga),
      if dp.multiband then Some(SpanView(dp.span2.center, dp.span2.res, dp.span2.spectrum, dp.span2.pga)) else None)
  }

  /** The first entry with key `k` at index `from` or later. */
  function LookupFrom(es: seq<Entry>, k: nat, from: nat): (r: Option<Entry>)
    ensures r.Some? ==> r.value in es && r.value.key == k
    decreases |es| - from
  {
    if from >= |es| then None else if es[from].key == k then Some(es[from]) else LookupFrom(es, k, from + 1)
  }

  /** The first entry with key `k`, as a receiver indexing the map would find it. */
  function Lookup(es: seq<Entry>, k: nat): (r: Option<Entry>)
    ensures r.Some? ==> r.value in es && r.value.key == k
  {
    LookupFrom(es, k, 0)
  }

  /** The numbers of a list of unsigned items; `None` if any item is of another kind. */
  function UintValues(vs: seq<Value>): (r: Option<seq<nat>>)
    ensures r.Some? ==> |r.value| == |vs|
  {
    if vs == [] then Some([])
    else if !vs[0].UInt? then None
    else match UintValues(vs[1..])
      case None => None
      case Some(rest) => Some([vs[0].n] + rest)
  }

  /** The numbers of an array entry of `n` unsigned items. */
  function Uints(e: Option<Entry>, n: nat): (r: Option<seq<nat>>)
    ensures r.Some? ==> |r.value| == n
  {
    if e.Some? && e.value.Array? && |e.value.items| == n then UintValues(e.value.items) else None
  }

  function DecodeRf(agc: Option<Entry>, jam: Option<Entry>): Option<RfView>
  {
    var a := Uints(agc, 2);
    var j := Uints(jam, 2);
    if a.Some? && j.Some? then Some(RfView(a.value[0], a.value[1], j.value[0], j.value[1])) else None
  }

  function DecodeSpan(e: Option<Entry>): Option<SpanView>
  {
    if e.Some? && e.value.Array? && |e.value.items| == 4
       && e.value.items[0].UInt? && e.value.items[1].UInt? && e.value.items[2].Bin? && e.value.items[3].UInt?
    then Some(SpanView(e.value.items[0].n, e.value.items[1].n, e.value.items[2].bytes, e.value.items[3].n))
    else None
  }

  /** The position array: three signed items. */
  function DecodePosition(e: Option<Entry>): Option<(int, int, int)>
  {
    if e.Some? && e.value.Array? && |e.value.items| == 3
       && e.value.items[0].SInt? && e.value.items[1].SInt? && e.value.items[2].SInt?
    then Some((e.value.items[0].i, e.value.items[1].i, e.value.items[2].i))
    else None
  }

  function DecodeTime(e: Option<Entry>): Option<nat>
  {
    if e.Some? && e.value.Scalar? && e.value.value.UInt? then Some(e.value.value.n) else None
  }

  /** Puts the decoded groups together once every one of them is present. */
  function Assemble(t: Option<nat>, pos: Option<(int, int, int)>, acc: Option<seq<nat>>, svs: Option<seq<nat>>,
                    rf1: Option<RfView>, span1: Option<SpanView>, multi: bool, rf2: Option<RfView>, span2: Option<SpanView>): Option<Report>
    requires acc.Some? ==> |acc.value| == 2
    requires svs.Some? ==> |svs.value| == 5
  {
    if t.Some? && pos.Some? && acc.Some? && svs.Some? && rf1.Some? && span1.Some? && (multi ==> rf2.Some? && span2.Some?)
    then Some(Report(t.value, pos.value.0, pos.value.1, pos.value.2, acc.value[0], acc.value[1],
                     svs.value[0], svs.value[1], svs.value[2], svs.value[3], svs.value[4],
                     rf1.value, if multi then rf2 else None, span1.value, if multi then span2 else None))
    else None
  }

  /**
   A receiver's reading of the map: looks every key up, checks each shape, and
   takes the second band when the declared count says 10 pairs.
   */
  function Decode(m: Message): Option<Report>
  {
    var es := m.entries;
    Assemble(DecodeTime(Lookup(es, 0)), DecodePosition(Lookup(es, 1)), Uints(Lookup(es, 2), 2), Uints(Lookup(es, 3), 5),
             DecodeRf(Lookup(es, 4), Lookup(es, 5)), DecodeSpan(Lookup(es, 10)),
             m.count == 10, DecodeRf(Lookup(es, 6), Lookup(es, 7)), DecodeSpan(Lookup(es, 11)))
  }

  /** Lookup finds the first entry carrying the key. */
  lemma {:induction false} LookupFirst(es: seq<Entry>, k: nat, from: nat, i: nat)
    requires from <= i < |es| && es[i].key == k
    requires forall j :: from <= j < i ==> es[j].key != k
    ensures LookupFrom(es, k, from) == Some(es[i])
    decreases i - from
  {
    if from < i {
      LookupFirst(es, k, from + 1, i);
    }
  }

  lemma UintPair(a: nat, b: nat)
    ensures UintValues([UInt(a), UInt(b)]) == Some([a, b])
  {
    assert [UInt(b)][1..] == [];
    assert [b] + [] == [b];
    assert UintValues([UInt(b)]) == Some([b]);
    assert [UInt(a), UInt(b)][1..] == [UInt(b)];
    assert [a] + [b] == [a, b];
  }

  /** The six pairs every map starts with are found under their keys. */
  lemma CommonLookups(es: seq<Entry>)
    requires |es| >= 6
    requires es[0].key == 0 && es[1].key == 1 && es[2].key == 2 && es[3].key == 3 && es[4].key == 4 && es[5].key == 5
    ensures Lookup(es, 0) == Some(es[0]) && Lookup(es, 1) == Some(es[1]) && Lookup(es, 2) == Some(es[2])
    ensures Lookup(es, 3) == Some(es[3]) && Lookup(es, 4) == Some(es[4]) && Lookup(es, 5) == Some(es[5])
  {
    LookupFirst(es, 0, 0, 0);
    LookupFirst(es, 1, 0, 1);
    LookupFirst(es, 2, 0, 2);
    LookupFirst(es, 3, 0, 3);
    LookupFirst(es, 4, 0, 4);
    LookupFirst(es, 5, 0, 5);
  }

  /** Where a receiver finds each key in a map whose keys come in the order the encoder writes them. */
  lemma FindsKeys(es: seq<Entry>)
    requires Keys(es) == [0, 1, 2, 3, 4, 5, 10] || Keys(es) == [0, 1, 2, 3, 4, 5, 6, 7, 10, 11]
    ensures |es| >= 7
    ensures Lookup(es, 0) == Some(es[0]) && Lookup(es, 1) == Some(es[1]) && Lookup(es, 2) == Some(es[2])
    ensures Lookup(es, 3) == Some(es[3]) && Lookup(es, 4) == Some(es[4]) && Lookup(es, 5) == Some(es[5])
    ensures |es| == 7 ==> Lookup(es, 10) == Some(es[6])
    ensures |es| != 7 ==> |es| == 10 && Lookup(es, 6) == Some(es[6]) && Lookup(es, 7) == Some(es[7])
    ensures |es| != 7 ==> |es| == 10 && Lookup(es, 10) == Some(es[8]) && Lookup(es, 11) == Some(es[9])
  {
    var ks := Keys(es);
    assert |ks| == |es|;
    assert forall j :: 0 <= j < |es| ==> es[j].key == ks[j];
    CommonLookups(es);
    if |es| == 7 {
      LookupFirst(es, 10, 0, 6);
    } else {
      LookupFirst(es, 6, 0, 6);
      LookupFirst(es, 7, 0, 7);
      LookupFirst(es, 10, 0, 8);
      LookupFirst(es, 11, 0, 9);
    }
  }

  /** Where each key of the encoded map is found. */
  lemma EncodeLookups(dp: Datapoint)
    ensures var es := Encode(dp).entries;
      && Lookup(es, 0) == Some(TimeEntry(dp))
      && Lookup(es, 1) == Some(PositionEntry(dp))
      && Lookup(es, 2) == Some(AccuracyEntry(dp))
      && Lookup(es, 3) == Some(SignalsEntry(dp))
      && Lookup(es, 4) == Some(AgcEntry(4, dp.rf1))
      && Lookup(es, 5) == Some(JamEntry(5, dp.rf1))
      && Lookup(es, 10) == Some(SpanEntry(10, dp.span1))
    ensures var es := Encode(dp).entries;
      dp.multiband ==>
      && Lookup(es, 6) == Some(AgcEntry(6, dp.rf2))
      && Lookup(es, 7) == Some(JamEntry(7, dp.rf2))
      && Lookup(es, 11) == Some(SpanEntry(11, dp.span2))
  {
    FindsKeys(Encode(dp).entries);
  }

  /** One more unsigned item in front of a list of them. */
  lemma UintCons(x: nat, vs: seq<Value>, ns: seq<nat>)
    requires UintValues(vs) == Some(ns)
    ensures UintValues([UInt(x)] + vs) == Some([x] + ns)
  {
    assert ([UInt(x)] + vs)[1..] == vs;
  }

  lemma RfDecodes(agcKey: nat, jamKey: nat, b: RfBand)
    ensures DecodeRf(Some(AgcEntry(agcKey, b)), Some(JamEntry(jamKey, b))) == Some(RfView(b.agc, b.noise, b.jamCw, b.jamBb))
  {
    UintPair(b.agc, b.noise);
    UintPair(b.jamCw, b.jamBb);
  }

  lemma SpanDecodes(key: nat, b: SpanBand)
    ensures DecodeSpan(Some(SpanEntry(key, b))) == Some(SpanView(b.center, b.res, b.spectrum, b.pga))
  {
  }

  lemma SignalsDecode(dp: Datapoint)
    ensures Uints(Some(SignalsEntry(dp)), 5) == Some([dp.acqL1 as nat, dp.acqL2, dp.lockL1, dp.lockL2, dp.svsNav])
  {
    var vs := SignalsEntry(dp).items;
    UintPair(dp.lockL2, dp.svsNav);
    UintCons(dp.lockL1, vs[3..], [dp.lockL2 as nat, dp.svsNav]);
    assert [UInt(dp.lockL1)] + vs[3..] == vs[2..];
    assert [dp.lockL1 as nat] + [dp.lockL2 as nat, dp.svsNav] == [dp.lockL1 as nat, dp.lockL2, dp.svsNav];
    UintCons(dp.acqL2, vs[2..], [dp.lockL1 as nat, dp.lockL2, dp.svsNav]);
    assert [UInt(dp.acqL2)] + vs[2..] == vs[1..];
    assert [dp.acqL2 as nat] + [dp.lockL1 as nat, dp.lockL2, dp.svsNav] == [dp.acqL2 as nat, dp.lockL1, dp.lockL2, dp.svsNav];
    UintCons(dp.acqL1, vs[1..], [dp.acqL2 as nat, dp.lockL1, dp.lockL2, dp.svsNav]);
    assert [UInt(dp.acqL1)] + vs[1..] == vs;
    assert [dp.acqL1 as nat] + [dp.acqL2 as nat, dp.lockL1, dp.lockL2, dp.svsNav]
      == [dp.acqL1 as nat, dp.acqL2, dp.lockL1, dp.lockL2, dp.svsNav];
  }

  /** The groups of a datapoint, put together, are its transmitted content. */
  lemma AssembleProject(dp: Datapoint, t: Option<nat>, pos: Option<(int, int, int)>, acc: Option<seq<nat>>, svs: Option<seq<nat>>,
                        rf1: Option<RfView>, span1: Option<SpanView>, rf2: Option<RfView>, span2: Option<SpanView>)
    requires t == Some(dp.gnssTimestamp as nat) && pos == Some((dp.lat as int, dp.lon as int, dp.alt as int))
    requires acc == Some([dp.hAcc as nat, dp.vAcc]) && svs == Some([dp.acqL1 as nat, dp.acqL2, dp.lockL1, dp.lockL2, dp.svsNav])
    requires rf1 == Some(RfView(dp.rf1.agc, dp.rf1.noise, dp.rf1.jamCw, dp.rf1.jamBb))
    requires span1 == Some(SpanView(dp.span1.center, dp.span1.res, dp.span1.spectrum, dp.span1.pga))
    requires dp.multiband ==> rf2 == Some(RfView(dp.rf2.agc, dp.rf2.noise, dp.rf2.jamCw, dp.rf2.jamBb))
    requires dp.multiband ==> span2 == Some(SpanView(dp.span2.center, dp.span2.res, dp.span2.spectrum, dp.span2.pga))
    ensures Assemble(t, pos, acc, svs, rf1, span1, dp.multiband, rf2, span2) == Some(Project(dp))
  {
  }

  /** Decoding the encoded map recovers exactly the transmitted content of the datapoint. */
  lemma EncodeDecode(dp: Datapoint)
    ensures Decode(Encode(dp)) == Some(Project(dp))
  {
    var m := Encode(dp);
    var es := m.entries;
    EncodeLookups(dp);
    UintPair(dp.hAcc, dp.vAcc);
    SignalsDecode(dp);
    RfDecodes(4, 5, dp.rf1);
    SpanDecodes(10, dp.span1);
    if dp.multiband {
      RfDecodes(6, 7, dp.rf2);
      SpanDecodes(11, dp.span2);
    }
    AssembleProject(dp, DecodeTime(Lookup(es, 0)), DecodePosition(Lookup(es, 1)), Uints(Lookup(es, 2), 2), Uints(Lookup(es, 3), 5),
                    DecodeRf(Lookup(es, 4), Lookup(es, 5)), DecodeSpan(Lookup(es, 10)),
                    DecodeRf(Lookup(es, 6), Lookup(es, 7)), DecodeSpan(Lookup(es, 11)));
  }

  // -------------------------------------------------------------- wire size

  /** The largest MessagePack form of a value: uint 64 / int 64 take 9 bytes, bin 32 a 5-byte header. */
  function ValueMax(v: Value): nat
  {
    match v
    case UInt(_) => 9
    case SInt(_) => 9
    case Bin(b) => 5 + |b|
  }

  function ValuesMax(vs: seq<Value>): nat
  {
    if vs == [] then 0 else ValueMax(vs[0]) + ValuesMax(vs[1..])
  }

  /** Key, then either a scalar or an array header of at most 5 bytes and its items. */
  function EntryMax(e: Entry): nat
  {
    match e
    case Scalar(_, v) => 9 + ValueMax(v)
    case Array(_, vs) => 9 + 5 + ValuesMax(vs)
  }

  function EntriesMax(es: seq<Entry>): nat
  {
    if es == [] then 0 else EntryMax(es[0]) + EntriesMax(es[1..])
  }

  /** An upper bound on the encoded size of a message in any MessagePack form. */
  function WireMax(m: Message): nat
  {
    5 + EntriesMax(m.entries)
  }

  /** A message whose every entry is at most `bound` bytes is at most `bound` per entry. */
  lemma {:induction false} EntriesMaxBound(es: seq<Entry>, bound: nat)
    requires forall i :: 0 <= i < |es| ==> EntryMax(es[i]) <= bound
    ensures EntriesMax(es) <= bound * |es|
  {
    if es != [] {
      EntriesMaxBound(es[1..], bound);
      assert bound * |es| == bound * |es[1..]| + bound;
    }
  }

  /** Numbers take at most 9 bytes each. */
  lemma {:induction false} NumbersMax(vs: seq<Value>)
    requires forall i :: 0 <= i < |vs| ==> !vs[i].Bin?
    ensures ValuesMax(vs) == 9 * |vs|
  {
    if vs != [] {
      NumbersMax(vs[1..]);
    }
  }

  lemma SpanEntryMax(key: nat, b: SpanBand)
    ensures EntryMax(SpanEntry(key, b)) == 14 + 27 + 5 + SpectrumBins
  {
    var vs := SpanEntry(key, b).items;
    NumbersMax(vs[3..]);
    assert ValuesMax(vs[2..]) == 5 + SpectrumBins + 9;
    assert ValuesMax(vs[1..]) == 9 + 5 + SpectrumBins + 9;
  }

  /** The widest entry of the datapoint map is a spectrum entry: 302 bytes. */
  lemma EntryBounds(dp: Datapoint)
    ensures forall i :: 0 <= i < |Encode(dp).entries| ==> EntryMax(Encode(dp).entries[i]) <= 302
  {
    NumbersMax(PositionEntry(dp).items);
    NumbersMax(AccuracyEntry(dp).items);
    NumbersMax(SignalsEntry(dp).items);
    NumbersMax(AgcEntry(4, dp.rf1).items);
    NumbersMax(JamEntry(5, dp.rf1).items);
    NumbersMax(AgcEntry(6, dp.rf2).items);
    NumbersMax(JamEntry(7, dp.rf2).items);
    SpanEntryMax(10, dp.span1);
    SpanEntryMax(11, dp.span2);
  }

  /** Even in the widest forms the encoded datapoint fits the send buffer, so no write is refused. */
  lemma EncodedFitsBuffer(dp: Datapoint)
    ensures WireMax(Encode(dp)) <= CmpBufferSize
  {
    EntryBounds(dp);
    EntriesMaxBound(Encode(dp).entries, 302);
  }

  // ------------------------------------------------------------ file_writer

  /** The buffer after appending `data` at `ptr`: earlier and later bytes untouched. */
  function Appended(buf: seq<uint8>, ptr: nat, data: seq<uint8>): seq<uint8>
    requires ptr + |data| <= |buf|
  {
    buf[..ptr] + data + buf[ptr + |data|..]
  }

  /**
   `file_writer`: refuses (returning -1 as a `size_t`) when the data would run
   past the buffer, otherwise copies it byte by byte at the write pointer and
   advances the pointer. The loop counter is 16 bits wide.
   */
  method FileWriter(buf: seq<uint8>, ptr: nat, data: seq<uint8>) returns (ok: bool, buf': seq<uint8>, ptr': nat)
    requires |buf| == CmpBufferSize && ptr <= CmpBufferSize
    ensures |buf'| == CmpBufferSize
    ensures ok <==> ptr + |data| <= CmpBufferSize
    ensures !ok ==> buf' == buf && ptr' == ptr
    ensures ok ==> ptr' == ptr + |data| && buf'[ptr..ptr'] == data
    ensures ok ==> buf'[..ptr] == buf[..ptr] && buf'[ptr'..] == buf[ptr'..]
  {
    if ptr + |data| > CmpBufferSize {
      return false, buf, ptr;
    }
    var i: uint16 := 0;
    buf' := buf;
    ptr' := ptr;
    while i < |data|
      invariant i <= |data| && ptr' == ptr + i
      invariant |buf'| == CmpBufferSize
      invariant buf'[..ptr] == buf[..ptr]
      invariant buf'[ptr..ptr'] == data[..i]
      invariant buf'[ptr'..] == buf[ptr'..]
    {
      buf' := buf'[ptr' := data[i]];
      i := i + 1;
      ptr' := ptr' + 1;
    }
    ok := true;
  }

  /** The functional reading of one `file_writer` call. */
  datatype Sink = Sink(buf: seq<uint8>, ptr: nat)

  function Write(s: Sink, data: seq<uint8>): (r: Sink)
    requires |s.buf| == CmpBufferSize && s.ptr <= CmpBufferSize
    ensures |r.buf| == CmpBufferSize && r.ptr <= CmpBufferSize
  {
    if s.ptr + |data| > CmpBufferSize then s else Sink(Appended(s.buf, s.ptr, data), s.ptr + |data|)
  }

  /** The method and its functional reading agree on every input. */
  method FileWriterAgrees(buf: seq<uint8>, ptr: nat, data: seq<uint8>) returns (r: Sink)
    requires |buf| == CmpBufferSize && ptr <= CmpBufferSize
    ensures r == Write(Sink(buf, ptr), data)
  {
    var ok, b, p := FileWriter(buf, ptr, data);
    if ok {
      assert b == b[..ptr] + b[ptr..p] + b[p..];
    }
    r := Sink(b, p);
  }

  function Flatten(chunks: seq<seq<uint8>>): seq<uint8>
  {
    if chunks == [] then [] else chunks[0] + Flatten(chunks[1..])
  }

  /** Every piece the encoder writes, one `file_writer` call each; a refused piece is skipped. */
  function WriteAll(s: Sink, chunks: seq<seq<uint8>>): (r: Sink)
    requires |s.buf| == CmpBufferSize && s.ptr <= CmpBufferSize
    ensures |r.buf| == CmpBufferSize && r.ptr <= CmpBufferSize
    decreases |chunks|
  {
    if chunks == [] then s else WriteAll(Write(s, chunks[0]), chunks[1..])
  }

  /**
   When the pieces fit, the buffer from the starting pointer holds exactly
   their concatenation and the pointer has moved by its length.
   */
  lemma {:induction false} WriteAllAppends(s: Sink, chunks: seq<seq<uint8>>)
    requires |s.buf| == CmpBufferSize && s.ptr + |Flatten(chunks)| <= CmpBufferSize
    ensures WriteAll(s, chunks).ptr == s.ptr + |Flatten(chunks)|
    ensures WriteAll(s, chunks).buf[..s.ptr] == s.buf[..s.ptr]
    ensures WriteAll(s, chunks).buf[s.ptr..WriteAll(s, chunks).ptr] == Flatten(chunks)
    decreases |chunks|
  {
    if chunks != [] {
      var s1 := Write(s, chunks[0]);
      assert s1.ptr == s.ptr + |chunks[0]|;
      WriteAllAppends(s1, chunks[1..]);
      var r := WriteAll(s, chunks);
      assert r == WriteAll(s1, chunks[1..]);
      assert r.buf[..s1.ptr][..s.ptr] == r.buf[..s.ptr];
      assert s1.buf[..s1.ptr][..s.ptr] == s.buf[..s.ptr];
      assert r.buf[s.ptr..r.ptr] == r.buf[s.ptr..s1.ptr] + r.buf[s1.ptr..r.ptr];
      assert r.buf[s.ptr..s1.ptr] == r.buf[..s1.ptr][s.ptr..];
      assert s1.buf[s.ptr..s1.ptr] == chunks[0];
    }
  }

  /**
   `udp_send_msgpack` resets the write pointer before encoding, so the length
   handed to the socket is exactly the bytes of this datapoint. For the pieces
   of an encoded datapoint the length bound holds: they total at most
   `WireMax(Encode(dp))`, which `EncodedFitsBuffer` bounds by 4096.
   */
  lemma SendsOnlyThisDatapoint(stale: seq<uint8>, chunks: seq<seq<uint8>>)
    requires |stale| == CmpBufferSize && |Flatten(chunks)| <= CmpBufferSize
    ensures var r := WriteAll(Sink(stale, 0), chunks);
      r.ptr == |Flatten(chunks)| && r.buf[..r.ptr] == Flatten(chunks)
  {
    WriteAllAppends(Sink(stale, 0), chunks);
  }
}
