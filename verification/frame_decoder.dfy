/**
 The frame recogniser `wait_ubx`: an index-driven automaton that captures
 `B5 62 class id lenLo lenHi payload.. ckA ckB` one byte at a time.

 The automaton's state is the sequence of bytes captured so far; its index is
 the length of that sequence and the declared length is read back from bytes 4
 and 5 once they are captured. `read()` is the next element of a finite input
 sequence, and the end of that sequence is the end-of-file case.

 The largest declared length the recogniser accepts is a parameter `limit`:
 the source rejects lengths of 2048 and more (`MaxPayloadAsWritten`), although
 a frame only fits its 2048-byte buffer when its length is at most 2040
 (`MaxPayload`); see `AsWrittenAcceptsOverlongFrame`.
 */
module FrameDecoder {
  import opened Bytes
  import opened Ubx

  /** Size of the receive buffer `buffer` in `main.c`. */
  const BufferLength: nat := 2048
  /** Largest length the guard `response_length >= BUFFER_LENGTH` lets through. */
  const MaxPayloadAsWritten: nat := BufferLength - 1
  /** Largest length whose whole frame fits the receive buffer. */
  const MaxPayload: nat := BufferLength - Overhead

  datatype StepResult =
    | Continue(captured: seq<uint8>)   // keep reading from this state
    | Accept(frame: seq<uint8>)        // checksum verified: `wait_ubx` returns the frame's size
    | TooLong(length: nat)             // declared length rejected: `wait_ubx` returns 0

  datatype Outcome =
    | Frame(bytes: seq<uint8>)
    | Oversize(length: nat)
    | EndOfInput

  /** What one call of `wait_ubx` produced and the input it left unread. */
  datatype Wait = Wait(outcome: Outcome, rest: seq<uint8>)

  function SyncByte(i: nat): uint8
  {
    if i == 0 then Sync1 else Sync2
  }

  /**
   The states the automaton can be in: a prefix of the sync pattern, or a
   synchronised header whose declared length passed the guard and whose frame
   is not yet complete.
   */
  predicate Partial(limit: nat, buf: seq<uint8>)
  {
    && (|buf| >= 1 ==> buf[0] == Sync1)
    && (|buf| >= 2 ==> buf[1] == Sync2)
    && (|buf| >= HeaderSize ==> DeclaredLength(buf) <= limit && |buf| <= HeaderSize + 1 + DeclaredLength(buf))
  }

  /**
   One received byte. The branches follow `wait_ubx` in order; the last
   branch is the reset, which drops the byte without examining it again. The
   final-checksum branch carries `i > 5` explicitly: below index 6 the source
   compares against a stale length, but an earlier branch or the reset always
   applies there.
   */
  function Step(limit: nat, buf: seq<uint8>, b: uint8): StepResult
  {
    var i := |buf|;
    if i < 2 && b == SyncByte(i) then
      Continue(buf + [b])
    else if 2 <= i < 5 then
      Continue(buf + [b])
    else if i == 5 then
      var len := buf[4] as int + b as int * 0x100;
      if len > limit then TooLong(len) else Continue(buf + [b])
    else if i > 5 && i < HeaderSize + 1 + DeclaredLength(buf) then
      Continue(buf + [b])
    else if i > 5 && i == HeaderSize + 1 + DeclaredLength(buf) then
      if ChecksumMatches(buf + [b]) then Accept(buf + [b]) else Continue([])
    else
      Continue([])
  }

  /** Every transition stays within the reachable states and never outgrows `limit + 8` bytes. */
  lemma StepKeepsPartial(limit: nat, buf: seq<uint8>, b: uint8)
    requires Partial(limit, buf)
    ensures Step(limit, buf, b).Continue? ==> Partial(limit, Step(limit, buf, b).captured)
    ensures Step(limit, buf, b).Accept? ==>
      var f := Step(limit, buf, b).frame;
      WellFormed(f) && DeclaredLength(f) <= limit && f[..|buf|] == buf
    ensures Step(limit, buf, b).TooLong? ==> limit < Step(limit, buf, b).length < 0x1_0000
  {
    var r := Step(limit, buf, b);
    if r.Continue? && |r.captured| >= HeaderSize {
      assert r.captured == buf + [b];
      assert DeclaredLength(r.captured) == if |buf| == 5 then buf[4] as int + b as int * 0x100 else DeclaredLength(buf);
    }
    if r.Accept? {
      assert r.frame == buf + [b];
      assert DeclaredLength(r.frame) == DeclaredLength(buf);
    }
  }

  /**
   The rest of `wait_ubx` from state `buf`: read until a frame is accepted, a
   length is rejected or the input ends.
   */
  function Recognise(limit: nat, buf: seq<uint8>, input: seq<uint8>): (w: Wait)
    requires Partial(limit, buf)
    ensures |w.rest| <= |input| && w.rest == input[|input| - |w.rest|..]
    ensures w.outcome.EndOfInput? ==> w.rest == []
    ensures w.outcome.Frame? ==>
      && WellFormed(w.outcome.bytes)
      && DeclaredLength(w.outcome.bytes) <= limit
      && |w.outcome.bytes| == DeclaredLength(w.outcome.bytes) + Overhead
    ensures w.outcome.Oversize? ==> limit < w.outcome.length < 0x1_0000
    ensures !w.outcome.EndOfInput? ==> |w.rest| < |input|
    decreases |input|
  {
    if input == [] then
      Wait(EndOfInput, [])
    else
      StepKeepsPartial(limit, buf, input[0]);
      match Step(limit, buf, input[0])
      case Continue(next) => Recognise(limit, next, input[1..])
      case Accept(f) => Wait(Frame(f), input[1..])
      case TooLong(len) => Wait(Oversize(len), input[1..])
  }

  /** One call of `wait_ubx`: the index starts at zero. */
  function WaitUbx(limit: nat, input: seq<uint8>): Wait
  {
    Recognise(limit, [], input)
  }

  /** The value `wait_ubx` returns: the frame's size, or 0 when no frame was produced. */
  function ReturnedLength(o: Outcome): nat
  {
    if o.Frame? then |o.bytes| else 0
  }

  /**
   `wait_ubx` returns 0 or `8 + L`, where `L` is the little-endian length in
   bytes 4 and 5 and passed the guard, and the captured bytes start B5 62 and
   pass `ubx_verify_checksum`.
   */
  lemma WaitUbxResult(input: seq<uint8>)
    ensures var w := WaitUbx(MaxPayloadAsWritten, input);
      var n := ReturnedLength(w.outcome);
      n == 0 || (
        && w.outcome.Frame?
        && var f := w.outcome.bytes;
        && n == Overhead + (f[4] as int + f[5] as int * 0x100)
        && f[4] as int + f[5] as int * 0x100 < BufferLength
        && f[0] == 0xB5 && f[1] == 0x62
        && ChecksumMatches(f))
  {
  }

  /** Every prefix of a well-formed frame whose length passes the guard is a reachable state. */
  lemma FramePrefixPartial(limit: nat, f: seq<uint8>, k: nat)
    requires WellFormed(f) && DeclaredLength(f) <= limit && k < |f|
    ensures Partial(limit, f[..k])
  {
    if k >= HeaderSize {
      assert DeclaredLength(f[..k]) == DeclaredLength(f);
    }
  }

  /** Byte `k` of a well-formed frame extends its prefix, and the last byte completes it. */
  lemma FrameStep(limit: nat, f: seq<uint8>, k: nat)
    requires WellFormed(f) && DeclaredLength(f) <= limit && k < |f|
    ensures k == |f| - 1 ==> Step(limit, f[..k], f[k]) == Accept(f)
    ensures k < |f| - 1 ==> Step(limit, f[..k], f[k]) == Continue(f[..k + 1])
  {
    var buf := f[..k];
    if k >= HeaderSize {
      assert DeclaredLength(buf) == DeclaredLength(f);
    }
    if k == |f| - 1 {
      assert buf + [f[k]] == f;
    } else {
      assert buf + [f[k]] == f[..k + 1];
      if k == 5 {
        assert DeclaredLength(f[..k + 1]) == DeclaredLength(f);
      }
    }
  }

  /** Feeding the rest of a well-formed frame from any of its prefixes completes exactly that frame. */
  lemma {:induction false} CompletesFrame(limit: nat, f: seq<uint8>, k: nat, rest: seq<uint8>)
    requires WellFormed(f) && DeclaredLength(f) <= limit && k < |f|
    ensures Partial(limit, f[..k])
    ensures Recognise(limit, f[..k], f[k..] + rest) == Wait(Frame(f), rest)
    decreases |f| - k
  {
    FramePrefixPartial(limit, f, k);
    FrameStep(limit, f, k);
    var input := f[k..] + rest;
    assert input[0] == f[k];
    assert input[1..] == f[k + 1..] + rest;
    if k < |f| - 1 {
      CompletesFrame(limit, f, k + 1, rest);
    }
  }

  /**
   A well-formed frame whose length passes the guard is returned unchanged,
   and the bytes after it are left unread, so it is never surfaced twice.
   */
  lemma RecognisesFrame(limit: nat, f: seq<uint8>, rest: seq<uint8>)
    requires WellFormed(f) && DeclaredLength(f) <= limit
    ensures WaitUbx(limit, f + rest) == Wait(Frame(f), rest)
  {
    CompletesFrame(limit, f, 0, rest);
    assert f[..0] == [] && f[0..] == f;
  }

  /** A byte that does not extend the sync pattern resets the index to 0 and is not examined again. */
  lemma SyncMismatchResets(limit: nat, buf: seq<uint8>, b: uint8)
    requires |buf| < 2 && b != SyncByte(|buf|)
    ensures Step(limit, buf, b) == Continue([])
  {
  }

  /** So `B5 B5 62` does not synchronise: the second B5 resets, and 62 at index 0 resets again. */
  lemma NoResyncOnRepeatedSync(limit: nat, rest: seq<uint8>)
    ensures WaitUbx(limit, [Sync1, Sync1, Sync2] + rest) == WaitUbx(limit, rest)
  {
    var input := [Sync1, Sync1, Sync2] + rest;
    assert Step(limit, [], Sync1) == Continue([Sync1]);
    assert Step(limit, [Sync1], Sync1) == Continue([]);
    assert Step(limit, [], Sync2) == Continue([]);
    assert input[1..] == [Sync1, Sync2] + rest;
    assert input[1..][1..] == [Sync2] + rest;
    assert input[1..][1..][1..] == rest;
    assert Recognise(limit, [], input) == Recognise(limit, [Sync1], input[1..]);
    assert Recognise(limit, [Sync1], input[1..]) == Recognise(limit, [], input[1..][1..]);
    assert Recognise(limit, [], input[1..][1..]) == Recognise(limit, [], rest);
  }

  /** A checksum failure on the last byte restarts the automaton at index 0 without producing a frame. */
  lemma ChecksumFailureRestarts(limit: nat, buf: seq<uint8>, b: uint8)
    requires Partial(limit, buf) && |buf| >= HeaderSize
    requires |buf| == HeaderSize + 1 + DeclaredLength(buf)
    requires !ChecksumMatches(buf + [b])
    ensures Step(limit, buf, b) == Continue([])
  {
  }

  /** Every frame the recogniser accepts occupies at most `limit + 8` bytes, so no byte lands at a higher index. */
  lemma FrameSizeBound(limit: nat, input: seq<uint8>)
    ensures var o := WaitUbx(limit, input).outcome;
      o.Frame? ==> |o.bytes| <= limit + Overhead
  {
  }

  /** With the corrected guard every accepted frame fits the 2048-byte receive buffer. */
  lemma CorrectedGuardFitsBuffer(input: seq<uint8>)
    ensures var o := WaitUbx(MaxPayload, input).outcome;
      o.Frame? ==> |o.bytes| <= BufferLength
  {
    FrameSizeBound(MaxPayload, input);
  }

  /**
   The guard as written lets through a 2047-byte MON-SPAN payload: the
   recogniser accepts the 2055-byte frame, whose last seven bytes lie past
   index 2047 of the buffer. The corrected guard rejects the same input.
   */
  lemma AsWrittenAcceptsOverlongFrame()
    ensures var f := MakeFrame(0x0a, 0x31, Zeros(MaxPayloadAsWritten));
      && WaitUbx(MaxPayloadAsWritten, f) == Wait(Frame(f), [])
      && |f| == BufferLength + 7
      && WaitUbx(MaxPayload, f).outcome == Oversize(MaxPayloadAsWritten)
  {
    var f := MakeFrame(0x0a, 0x31, Zeros(MaxPayloadAsWritten));
    RecognisesFrame(MaxPayloadAsWritten, f, []);
    assert f + [] == f;
    OversizeRejectedAtHeader(MaxPayload, f);
  }

  /** The first `k` header bytes of a synchronised frame are captured one by one. */
  lemma {:induction false} HeaderPrefix(limit: nat, f: seq<uint8>, k: nat)
    requires |f| >= HeaderSize && f[0] == Sync1 && f[1] == Sync2 && k <= 5
    ensures Partial(limit, f[..k])
    ensures WaitUbx(limit, f) == Recognise(limit, f[..k], f[k..])
  {
    if k == 0 {
      assert f[..0] == [] && f[0..] == f;
    } else {
      HeaderPrefix(limit, f, k - 1);
      var buf := f[..k - 1];
      assert buf + [f[k - 1]] == f[..k];
      assert Step(limit, buf, f[k - 1]) == Continue(f[..k]);
      assert f[k - 1..][1..] == f[k..];
    }
  }

  /**
   A synchronised header whose declared length exceeds the limit makes
   `wait_ubx` return 0 as soon as the second length byte is read: the bytes
   after the header are left unread. With `limit` = `MaxPayloadAsWritten` this
   is the source's guard rejecting lengths of 2048 and more.
   */
  lemma OversizeRejectedAtHeader(limit: nat, f: seq<uint8>)
    requires |f| >= HeaderSize && f[0] == Sync1 && f[1] == Sync2
    requires DeclaredLength(f) as int > limit
    ensures WaitUbx(limit, f) == Wait(Oversize(DeclaredLength(f) as int), f[HeaderSize..])
    ensures ReturnedLength(WaitUbx(limit, f).outcome) == 0
  {
    HeaderPrefix(limit, f, 5);
    assert Step(limit, f[..5], f[5]) == TooLong(DeclaredLength(f) as int);
    assert f[5..][1..] == f[HeaderSize..];
  }
}
