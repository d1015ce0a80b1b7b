/**
 The acknowledgement matcher inside `send_ubx_wait_ack`, and the start-up
 configuration that sends each prebuilt frame through it.

 The matcher is an eight-position automaton independent of the frame
 recogniser: it looks for `B5 62 05 01 _ _ class id` (a UBX-ACK-ACK for the
 command just written) and gives up on `B5 62 05 00` (UBX-ACK-NAK) or after
 2000 reads. Bytes come from a finite input sequence; its end is the
 end-of-file case. The write itself is reduced to whether it succeeded.
 */
module AckScanner {
  import opened Bytes
  import Ubx
  import ConfigFrames

  const AckHeader: seq<uint8> := [0xb5, 0x62, 0x05, 0x01]
  const NakHeader: seq<uint8> := [0xb5, 0x62, 0x05, 0x00]
  /** Read attempts before `send_ubx_wait_ack` reports a time-out. */
  const MaxReads: nat := 2000

  /** Why `send_ubx_wait_ack` returned. */
  datatype AckResult = Acked | TimedOut | DeviceEof | Nacked | WriteFailed

  /** The `uint8_t` code the source returns for each outcome. */
  function Code(r: AckResult): (c: nat)
    ensures c <= 3
    ensures c == 0 <==> r == Acked
  {
    match r
    case Acked => 0
    case TimedOut => 1
    case DeviceEof => 1
    case Nacked => 2
    case WriteFailed => 3
  }

  /** How the scan ended and how many bytes it had consumed. */
  datatype Scan = Scan(result: AckResult, consumed: nat)

  /**
   The `idx` bytes read before position `k` are the first `idx` positions of
   the ACK envelope for `cls`/`id` (positions 4 and 5 are free).
   */
  predicate Matched(cls: uint8, id: uint8, s: seq<uint8>, k: nat, idx: nat)
    requires idx <= 7 && idx <= k <= |s|
  {
    && (idx >= 1 ==> s[k - idx] == AckHeader[0])
    && (idx >= 2 ==> s[k - idx + 1] == AckHeader[1])
    && (idx >= 3 ==> s[k - idx + 2] == AckHeader[2])
    && (idx >= 4 ==> s[k - idx + 3] == AckHeader[3])
    && (idx == 7 ==> s[k - 1] == cls)
  }

  /** The four bytes of `s` ending at `end` are the header `h`. */
  predicate HeaderEndsAt(h: seq<uint8>, s: seq<uint8>, end: nat)
    requires |h| == 4 && 4 <= end <= |s|
  {
    s[end - 4] == h[0] && s[end - 3] == h[1] && s[end - 2] == h[2] && s[end - 1] == h[3]
  }

  /** The eight bytes of `s` ending at `end` are an ACK for `cls`/`id`. */
  predicate AckEndsAt(cls: uint8, id: uint8, s: seq<uint8>, end: nat)
    requires 8 <= end <= |s|
  {
    HeaderEndsAt(AckHeader, s, end - 4) && s[end - 2] == cls && s[end - 1] == id
  }

  /** What one byte does to the matcher: move to another envelope position or end the scan. */
  datatype Move = Advance(next: nat) | Finish(result: AckResult)

  /**
   The matcher's transition on byte `b` at position `idx`. The branches follow
   the source's order, including the NAK test placed after the ACK tests; a
   mismatch returns to position 0 without looking at `b` again.
   */
  function Transition(cls: uint8, id: uint8, idx: nat, b: uint8): (m: Move)
    requires idx <= 7
    ensures m.Advance? ==> m.next <= 7 && (m.next == 0 || m.next == idx + 1)
    ensures m.Finish? ==> m.result == Acked || m.result == Nacked
  {
    if idx <= 3 && b == AckHeader[idx] then Advance(idx + 1)
    else if 3 < idx <= 5 then Advance(idx + 1)
    else if idx == 6 && b == cls then Advance(7)
    else if idx == 7 && b == id then Finish(Acked)
    else if idx == 3 && b == NakHeader[3] then Finish(Nacked)
    else Advance(0)
  }

  /**
   The scan loop from loop counter `k`, which is also the number of bytes read
   so far, at envelope position `idx`.
   */
  function ScanFrom(cls: uint8, id: uint8, input: seq<uint8>, idx: nat, k: nat): (s: Scan)
    requires idx <= 7 && k <= |input| && k <= MaxReads
    ensures k <= s.consumed <= |input| && s.consumed <= MaxReads
    ensures s.result == TimedOut ==> s.consumed == MaxReads
    ensures s.result == DeviceEof ==> s.consumed == |input| < MaxReads
    ensures s.result != WriteFailed
    decreases MaxReads - k
  {
    if k >= MaxReads then
      Scan(TimedOut, k)
    else if k == |input| then
      Scan(DeviceEof, k)
    else
      match Transition(cls, id, idx, input[k])
      case Advance(next) => ScanFrom(cls, id, input, next, k + 1)
      case Finish(r) => Scan(r, k + 1)
  }

  /**
   What a finished scan of `input` may report: an ACK only right after the
   eight bytes of an ACK for the command's class and id, a NAK only right after
   `B5 62 05 00`.
   */
  predicate Justified(cls: uint8, id: uint8, input: seq<uint8>, s: Scan)
  {
    && (s.result == Acked ==> 8 <= s.consumed <= |input| && AckEndsAt(cls, id, input, s.consumed))
    && (s.result == Nacked ==> 4 <= s.consumed <= |input| && HeaderEndsAt(NakHeader, input, s.consumed))
  }

  /**
   Each transition keeps `Matched`, and ends the scan only right after an ACK
   for `cls`/`id` or a NAK header.
   */
  lemma TransitionSound(cls: uint8, id: uint8, input: seq<uint8>, k: nat, idx: nat)
    requires idx <= 7 && idx <= k < |input| && Matched(cls, id, input, k, idx)
    ensures var m := Transition(cls, id, idx, input[k]);
      m.Advance? ==> m.next <= k + 1 && Matched(cls, id, input, k + 1, m.next)
    ensures var m := Transition(cls, id, idx, input[k]);
      m == Finish(Acked) ==> 8 <= k + 1 && AckEndsAt(cls, id, input, k + 1)
    ensures var m := Transition(cls, id, idx, input[k]);
      m == Finish(Nacked) ==> 4 <= k + 1 && HeaderEndsAt(NakHeader, input, k + 1)
  {
  }

  lemma {:induction false} ScanSound(cls: uint8, id: uint8, input: seq<uint8>, idx: nat, k: nat)
    requires idx <= 7 && idx <= k <= |input| && k <= MaxReads
    requires Matched(cls, id, input, k, idx)
    ensures Justified(cls, id, input, ScanFrom(cls, id, input, idx, k))
    decreases MaxReads - k
  {
    if k < MaxReads && k < |input| {
      TransitionSound(cls, id, input, k, idx);
      match Transition(cls, id, idx, input[k])
      case Advance(next) =>
        ScanSound(cls, id, input, next, k + 1);
      case Finish(r) =>
    }
  }

  /** The reading part of `send_ubx_wait_ack` for a command of class `cls` and id `id`. */
  function WaitAck(cls: uint8, id: uint8, input: seq<uint8>): (s: Scan)
    ensures Justified(cls, id, input, s)
    ensures s.result == DeviceEof ==> |input| < MaxReads
  {
    ScanSound(cls, id, input, 0, 0);
    ScanFrom(cls, id, input, 0, 0)
  }

  /** `send_ubx_wait_ack`: a failed write returns 3; otherwise the matcher decides. */
  function SendWaitAck(command: seq<uint8>, writeOk: bool, input: seq<uint8>): (r: AckResult)
    requires |command| >= 4
    ensures r == Acked ==> writeOk
    ensures r == WriteFailed <==> !writeOk
    ensures r == Acked ==> exists end :: 8 <= end <= |input| && AckEndsAt(command[2], command[3], input, end)
    ensures r == Nacked ==> exists end :: 4 <= end <= |input| && HeaderEndsAt(NakHeader, input, end)
  {
    if !writeOk then WriteFailed else WaitAck(command[2], command[3], input).result
  }

  /**
   Read from position `k` with nothing matched, an ACK envelope for `cls`/`id`
   is recognised after its eighth byte, whatever the two payload bytes are.
   */
  lemma AckEnvelopeAccepted(cls: uint8, id: uint8, input: seq<uint8>, k: nat)
    requires k + 8 <= |input| && k + 8 <= MaxReads
    requires AckEndsAt(cls, id, input, k + 8)
    ensures ScanFrom(cls, id, input, 0, k) == Scan(Acked, k + 8)
  {
    assert input[k] == 0xb5 && input[k + 1] == 0x62 && input[k + 2] == 0x05 && input[k + 3] == 0x01;
    assert ScanFrom(cls, id, input, 6, k + 6) == ScanFrom(cls, id, input, 7, k + 7);
    assert ScanFrom(cls, id, input, 4, k + 4) == ScanFrom(cls, id, input, 6, k + 6);
    assert ScanFrom(cls, id, input, 2, k + 2) == ScanFrom(cls, id, input, 4, k + 4);
    assert ScanFrom(cls, id, input, 0, k) == ScanFrom(cls, id, input, 2, k + 2);
  }

  /** Read from position `k` with nothing matched, `B5 62 05 00` ends the scan with a NAK at once. */
  lemma NakHeaderRejected(cls: uint8, id: uint8, input: seq<uint8>, k: nat)
    requires k + 4 <= |input| && k + 4 <= MaxReads
    requires HeaderEndsAt(NakHeader, input, k + 4)
    ensures ScanFrom(cls, id, input, 0, k) == Scan(Nacked, k + 4)
  {
    assert ScanFrom(cls, id, input, 2, k + 2) == ScanFrom(cls, id, input, 3, k + 3);
    assert ScanFrom(cls, id, input, 0, k) == ScanFrom(cls, id, input, 2, k + 2);
  }

  /** Each start-up command, with whether its write succeeded and the bytes read back after it. */
  datatype Reply = Reply(writeOk: bool, input: seq<uint8>)

  datatype Setup = Configured | Failed(index: nat, result: AckResult)

  /**
   Start-up configuration: commands are confirmed in order and the first result
   other than an ACK ends it; later commands are never sent.
   */
  function Configure(commands: seq<seq<uint8>>, replies: seq<Reply>): (s: Setup)
    requires |replies| == |commands|
    requires forall i :: 0 <= i < |commands| ==> |commands[i]| >= 4
    ensures s == Configured <==>
      forall i :: 0 <= i < |commands| ==> SendWaitAck(commands[i], replies[i].writeOk, replies[i].input) == Acked
    ensures s.Failed? ==>
      && s.index < |commands|
      && s.result != Acked
      && SendWaitAck(commands[s.index], replies[s.index].writeOk, replies[s.index].input) == s.result
      && forall i :: 0 <= i < s.index ==> SendWaitAck(commands[i], replies[i].writeOk, replies[i].input) == Acked
  {
    if commands == [] then
      Configured
    else
      var r := SendWaitAck(commands[0], replies[0].writeOk, replies[0].input);
      if r != Acked then
        Failed(0, r)
      else
        match Configure(commands[1..], replies[1..])
        case Configured => Configured
        case Failed(i, e) => Failed(i + 1, e)
  }

  /** A command answered at once by its ACK is confirmed, whatever follows the ACK. */
  lemma ImmediateAckConfirms(command: seq<uint8>, input: seq<uint8>)
    requires |command| >= 4 && |input| >= 8
    requires AckEndsAt(command[2], command[3], input, 8)
    ensures SendWaitAck(command, true, input) == Acked
  {
    AckEnvelopeAccepted(command[2], command[3], input, 0);
  }

  /** If every command is written and answered at once by its ACK, configuration succeeds. */
  lemma AllAckedConfigures(commands: seq<seq<uint8>>, replies: seq<Reply>)
    requires |replies| == |commands|
    requires forall i :: 0 <= i < |commands| ==> |commands[i]| >= 4
    requires forall i :: 0 <= i < |commands| ==>
      replies[i].writeOk && |replies[i].input| >= 8 && AckEndsAt(commands[i][2], commands[i][3], replies[i].input, 8)
    ensures Configure(commands, replies) == Configured
  {
    forall i | 0 <= i < |commands|
      ensures SendWaitAck(commands[i], replies[i].writeOk, replies[i].input) == Acked
    {
      ImmediateAckConfirms(commands[i], replies[i].input);
    }
  }

  /**
   The start-up sequence of `main()` is eight UBX-CFG commands (class 06), so
   each is confirmed by an ACK for class 06 and the command's id; when every
   command is written and answered at once by that ACK, configuration succeeds.
   */
  lemma StartupConfigures(replies: seq<Reply>)
    requires |replies| == |ConfigFrames.StartupSequence|
    ensures (forall i :: 0 <= i < |replies| ==>
        replies[i].writeOk && |replies[i].input| >= 8
        && AckEndsAt(0x06, ConfigFrames.StartupSequence[i][3], replies[i].input, 8))
      ==> Configure(ConfigFrames.StartupSequence, replies) == Configured
  {
    var cmds := ConfigFrames.StartupSequence;
    ConfigFrames.StartupClasses();
    if forall i :: 0 <= i < |replies| ==>
        replies[i].writeOk && |replies[i].input| >= 8 && AckEndsAt(0x06, cmds[i][3], replies[i].input, 8)
    {
      AllAckedConfigures(cmds, replies);
    }
  }

  /**
   A mismatch resets the match without looking at the offending byte again, so
   an ACK (`B5 62 05 01`, length 2, then the acknowledged class and id)
   preceded by a stray sync byte is missed.
   */
  lemma AckAfterStraySyncMissed(cls: uint8, id: uint8)
    ensures WaitAck(cls, id, [0xb5, 0xb5, 0x62, 0x05, 0x01, 0x02, 0x00, cls, id]).result == DeviceEof
  {
  }
}
