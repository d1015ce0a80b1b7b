# jammon core in Dafny

jammon is a GNSS jamming monitor for u-blox receivers. It does four things:

- At start-up it configures the receiver over serial with a fixed sequence of UBX commands, and waits for each one's UBX-ACK.
- It then decodes the UBX frame stream.
- It merges MON-RF, MON-SPAN, NAV-PVT, NAV-SAT and NAV-SIG into one datapoint.
- It emits that datapoint at most about once a second, as a MessagePack map over UDP.

This project models that core as pure functions over byte sequences and immutable records, and proves properties of them.

| module | file | models |
|---|---|---|
| `Bytes` | bytes.dfy | bounded integer types and the little-endian field readers, with their encoders |
| `Ubx` | checksum.dfy | frame layout and `ubx_verify_checksum` (8-bit Fletcher over bytes 2..n-3) |
| `ConfigFrames` | config_frames.dfy | the prebuilt `ubx_*` configuration frames |
| `FrameDecoder` | frame_decoder.dfy | the `wait_ubx` recogniser automaton |
| `AckScanner` | ack_scanner.dfy | the ACK/NAK matcher of `send_ubx_wait_ack`, and the start-up configuration |
| `Datapoint` | datapoint.dfy | the `jammon_datapoint` record |
| `Handlers` | handlers.dfy | the five message handlers inlined in `main()` |
| `Payloads` | payloads.dfy | payload builders and the round-trip and count lemmas for the handlers |
| `Aggregator` | aggregator.dfy | the receive loop and its 900 ms emit gate |
| `Telemetry` | telemetry.dfy | the key/array layout of `udp_send_msgpack` and the bounded append of `file_writer` |

How the outside world is represented:

- Serial reads are the next element of a finite input sequence. The end of that sequence is the device's end of file.
- Arrival times (`monotonic_ms()`) are given with the frames.
- The handlers read the 2048-byte receive buffer at fixed offsets from byte 6, whatever the payload length. Each frame therefore comes with the bytes the buffer holds beyond it. These bytes may have any contents: they are left there by earlier frames and by rejected attempts.
- The calendar-to-epoch conversion `mktime` is a function parameter, `toEpoch`.

## Model

| member | source | states |
|---|---|---|
| Ubx.VerifyChecksum | main.c:308-319 | The 32-bit accumulating loop accepts a frame exactly when its last two bytes equal the byte sum and the sum of running sums, both mod 256, over bytes 2..n-3. |
| Ubx.Fletcher8Agrees | main.c:308-319 | The 8-bit running Fletcher fold of the UBX protocol gives the same two checksum bytes as the unbounded sums reduced mod 256. |
| Ubx.SingleByteErrorDetected | main.c:308-319 | Changing any one byte from the class byte through the second checksum byte of a frame that passes makes it fail the check. |
| Ubx.MakeFrame | main.c:308-319 | A frame built from a class, an id and a payload under 65536 bytes is well formed, is 8 bytes longer than the payload, and carries back that class, id and payload. |
| ConfigFrames.CfgRstWellFormed | main.c:25-33 | The reset command starts B5 62, declares its payload length, and its checksum bytes pass `ubx_verify_checksum`. |
| ConfigFrames.DisableNmeaUsbWellFormed | main.c:36-48 | The same holds for the command that disables NMEA output on USB. |
| ConfigFrames.EnableItfmWellFormed | main.c:51-59 | The same holds for the command that enables interference detection. |
| ConfigFrames.SetNavAutomotiveWellFormed | main.c:62-86 | The same holds for the automotive dynamic-model command. |
| ConfigFrames.EnableMessageWellFormed | main.c:89-101 | Any CFG-MSG rate command is well formed when its two checksum bytes are the closed-form sums of its class and id. |
| ConfigFrames.EnableNavPvtWellFormed | main.c:89-101 | The NAV-PVT rate command is a well-formed UBX frame. |
| ConfigFrames.EnableMonRfWellFormed | main.c:104-116 | The MON-RF rate command is a well-formed UBX frame. |
| ConfigFrames.EnableMonSpanWellFormed | main.c:151-163 | The MON-SPAN rate command is a well-formed UBX frame. |
| ConfigFrames.EnableNavSatWellFormed | main.c:210-222 | The NAV-SAT rate command is a well-formed UBX frame. |
| ConfigFrames.EnableNavSigWellFormed | main.c:245-257 | The NAV-SIG rate command is a well-formed UBX frame. |
| ConfigFrames.StartupSequenceWellFormed | main.c:789-852 | Each of the eight commands sent at start-up is a well-formed UBX frame. |
| FrameDecoder.Step | main.c:427-493 | One received byte, with the branches of `wait_ubx` in their order. It has no contract of its own: StepKeepsPartial states it. |
| FrameDecoder.StepKeepsPartial | main.c:427-493 | Each received byte keeps the automaton in a reachable state: a sync prefix, or a header whose length passed the guard and whose frame is not complete. An accepted frame is well formed, and a rejected length exceeds the limit. |
| FrameDecoder.Recognise | main.c:410-497 | Any frame it returns starts B5 62, passes the checksum, declares a length within the limit and is exactly 8 bytes longer than that length. The unread input is a suffix of the input. Every outcome other than end of input consumes at least one byte. |
| FrameDecoder.WaitUbx | main.c:403-498 | One call of `wait_ubx`, from index 0. It has no contract of its own: WaitUbxResult, RecognisesFrame and OversizeRejectedAtHeader state it, through Recognise. |
| FrameDecoder.WaitUbxResult | main.c:403-498 | With the guard as written, `wait_ubx` returns 0 or 8 + L, where L is the little-endian length in bytes 4 and 5 and is below 2048, and the captured frame starts B5 62 and passes the checksum. |
| FrameDecoder.RecognisesFrame | main.c:427-475 | Conversely, every well-formed frame whose length passes the guard is returned whole by one call, and the bytes after it are left unread. |
| FrameDecoder.CompletesFrame | main.c:427-475 | From any prefix of such a frame, feeding the rest of its bytes completes exactly that frame. |
| FrameDecoder.SyncMismatchResets | main.c:427-493 | A byte that does not continue the sync pattern resets the index to 0 and is not examined again. |
| FrameDecoder.NoResyncOnRepeatedSync | main.c:427-493 | `B5 B5 62` is not synchronised on: the recogniser continues as if those three bytes were absent. |
| FrameDecoder.ChecksumFailureRestarts | main.c:457-489 | A final checksum byte that fails verification restarts the automaton at index 0 without producing a frame. |
| FrameDecoder.FrameSizeBound | main.c:439-460 | Every accepted frame occupies at most the length limit plus 8 bytes. |
| FrameDecoder.OversizeRejectedAtHeader | main.c:439-448 | For any length limit, including the source's guard against lengths of 2048 and more, a synchronised header whose declared length exceeds the limit makes `wait_ubx` return 0 as soon as its sixth byte is read, leaving every later byte unread. |
| FrameDecoder.AsWrittenAcceptsOverlongFrame | main.c:444 | With the guard as written, a 2047-byte payload is accepted and its frame runs 7 bytes past the 2048-byte buffer. The corrected guard rejects the same input. |
| FrameDecoder.CorrectedGuardFitsBuffer | main.c:21-22 | With the corrected guard every accepted frame fits the 2048-byte receive buffer. |
| AckScanner.Code | main.c:324-388 | The return code is at most 3, and is 0 exactly for an acknowledged command. |
| AckScanner.Transition | main.c:354-382 | One byte either moves the matcher to the next envelope position or back to 0, or ends the scan with an ACK or a NAK. |
| AckScanner.ScanFrom | main.c:339-388 | The scan never reads more than 2000 bytes. A time-out happens exactly at 2000 reads, and end of file only when the input ends before that. A write failure is never reported by the scan. |
| AckScanner.TransitionSound | main.c:354-382 | Each transition keeps the envelope-prefix invariant, and ends the scan only right after a full ACK for the command or a NAK header. |
| AckScanner.ScanSound | main.c:339-388 | A scan reports an ACK only after the 8 bytes `B5 62 05 01 _ _ class id`, and a NAK only right after `B5 62 05 00`. |
| AckScanner.WaitAck | main.c:339-388 | The reading part of `send_ubx_wait_ack` gives only justified ACK and NAK results, and reports end of file only on input shorter than 2000 bytes. |
| AckScanner.SendWaitAck | main.c:324-388 | A failed write yields code 3 and no other case does. An ACK implies the write succeeded and the reply holds an ACK envelope for the command's class and id; a NAK implies it holds `B5 62 05 00`. |
| AckScanner.AckEnvelopeAccepted | main.c:354-372 | An ACK envelope for the command's class and id is recognised after its eighth byte, whatever its two length bytes hold. |
| AckScanner.NakHeaderRejected | main.c:373-378 | `B5 62 05 00` ends the scan with code 2 as soon as its fourth byte is read, whatever class and id follow. |
| AckScanner.AckAfterStraySyncMissed | main.c:354-382 | Because a mismatch does not re-examine its byte, an ACK preceded by a stray B5 is missed, and the scan runs to the end of the input. |
| AckScanner.Configure | main.c:789-854 | Configuration succeeds exactly when every command is acknowledged. Otherwise it stops at the first command whose result is not an ACK, having acknowledged all earlier commands. |
| AckScanner.AllAckedConfigures | main.c:789-854 | If each command is written and answered at once by its ACK, configuration succeeds. |
| AckScanner.StartupConfigures | main.c:789-854 | When each of the eight start-up commands is written and answered at once by an ACK for class 06 and its id, start-up configuration succeeds. |
| ConfigFrames.StartupClasses | main.c:789-852 | Every command sent at start-up has class 06 and is at least 8 bytes long. |
| Datapoint.Initial | main.c:863-868 | The zero-initialised datapoint: every group timestamp, RF reading, spectrum bin, span field, position, accuracy and count is 0, time is not valid, both bands of each kind are alike, and only the band mode is set. |
| Handlers.MonRf | main.c:885-944 | The frame is skipped exactly when the version is not 0 or the block count differs from the band mode's. Otherwise only the RF bands and their timestamp change, and the broadband indicators are at most 3. |
| Handlers.SingleBandBroadbandAlwaysZero | main.c:915 | On a single-band receiver the broadband jamming indicator is always 0, because the two flag bits are shifted out. |
| Handlers.MonSpan | main.c:945-1011 | The frame is skipped exactly on a bad version or block count. Otherwise only the spectrum bands and their timestamp change. |
| Handlers.NavPvt | main.c:1012-1039 | Only the position, time and accuracy fields and their timestamp change. Time is valid exactly when both low bits of `valid` are set. |
| Handlers.SatUsed | main.c:1049-1061 | The count of satellites used in navigation is at most the number of blocks examined. |
| Handlers.NavSat | main.c:1040-1064 | Only `svs_nav` and its timestamp change, and `svs_nav` is at most `num_svs`. |
| Handlers.SigTally | main.c:1080-1109 | Locked signals never exceed acquired signals in either band, and the acquired signals of both bands total at most the number of blocks. |
| Handlers.NavSatChecked | main.c:1040-1064 | The corrected NAV-SAT handler counts no more satellites than the payload holds blocks, and no more than `num_svs`. Like the source it stamps every frame, even one shorter than its header, and changes only `svs_nav` and its timestamp. It agrees with the source's handler on every payload that holds all `num_svs` blocks. |
| Handlers.NavSigChecked | main.c:1065-1112 | The corrected NAV-SIG handler counts no more acquired signals than the payload holds blocks, and no more than `num_svs`, with locked ≤ acquired per band. Like the source it stamps every frame, even one shorter than its header. It agrees with the source's handler on every payload that holds all `num_svs` blocks. |
| Aggregator.NavSatReadsPastBuffer | main.c:1052-1056 | A checksummed 16-byte NAV-SAT frame with `num_svs` = 255 is accepted, does not hold the blocks the source's loop reads, and the last flags read lies past the 2048-byte buffer; the corrected handler processes it within the payload. |
| Aggregator.NavSigReadsPastBuffer | main.c:1080-1084 | A checksummed 16-byte NAV-SIG frame with `num_svs` = 128 is accepted, does not hold the blocks the source's loop reads, and the last quality read lies past the 2048-byte buffer; the corrected handler processes it within the payload. |
| Handlers.NavSig | main.c:1065-1112 | Only the four signal counts and their timestamp change. Locked ≤ acquired per band, and acquired L1 + L2 ≤ `num_svs`. |
| Payloads.RfBlockRoundTrip | main.c:126-147 | Reading a MON-RF block back from its encoding recovers flags, noise, AGC and CW indicator. |
| Payloads.MonRfSingleBand | main.c:900-915 | A version-0 single-block MON-RF payload sets band 1 to the block's readings, with the broadband indicator computed as the source does. |
| Payloads.MonRfMultiBand | main.c:917-943 | A version-0 two-block MON-RF payload sets bands 1 and 2 from the first and second block. |
| Payloads.SpanBlockRoundTrip | main.c:173-183 | Reading a MON-SPAN block back from its encoding recovers the spectrum, span, resolution, centre and PGA. |
| Payloads.MonSpanSingleBand | main.c:960-977 | A version-0 single-block MON-SPAN payload sets spectrum band 1 to exactly that block. |
| Payloads.MonSpanMultiBand | main.c:979-1009 | A version-0 two-block MON-SPAN payload sets spectrum bands 1 and 2 to exactly those blocks. |
| Payloads.NavPvtRoundTrip | main.c:1012-1039 | Decoding an encoded NAV-PVT report recovers latitude, longitude, height, both accuracies and the calendar fields handed to the time conversion. |
| Payloads.SatUsedCounts | main.c:1049-1061 | Over a NAV-SAT payload, the handler's loop counts the satellites whose flags have bit 3 set. |
| Payloads.NavSatCountsUsed | main.c:1040-1064 | For any list of satellite flags, NAV-SAT sets `svs_nav` to the number with bit 3 set. |
| Payloads.SigTallyCounts | main.c:1074-1109 | Over a NAV-SIG payload, the handler's loop agrees with an independent per-category count of the signals. |
| Payloads.NavSigCountsSignals | main.c:1065-1112 | NAV-SIG sets the acquired and locked counts of each band to the number of signals with quality of at least 2 or 4 and the matching signal id. |
| Aggregator.Apply | main.c:885-1112 | Unknown classes leave the datapoint unchanged. A frame is skipped exactly when it is MON-RF or MON-SPAN and the version or block count read at buffer bytes 6 and 7 is wrong; the NAV messages are never skipped, whatever their length. |
| Aggregator.PayloadSuffices | main.c:894-1039 | When a MON-RF, MON-SPAN or NAV-PVT payload holds every byte its handler reads, the bytes beyond the frame play no part: the result is the handler's result on the payload alone. |
| Aggregator.Step | main.c:1114-1124 | After a frame that is not skipped, the gate emits exactly when the previous emission is 0 or more than 900 ms old and all five groups are younger than 900 ms. An emission records its own time as the last. A skipped frame changes nothing. |
| Aggregator.Run | main.c:870-1126 | The receive loop over accepted frames, the bytes beyond each in the buffer, and their arrival times. It keeps the band mode and emits at most once per frame. RunSpaced, RunSendsFresh and RunStamps state the rest. |
| Aggregator.RunSpaced | main.c:1114-1124 | Over any run of frames, emissions at times above 0 are more than 900 ms apart, whatever order the arrival times come in. |
| Aggregator.RunSendsFresh | main.c:1114-1124 | Every emitted datapoint had all five groups refreshed within 900 ms of its emission time, which is the arrival time of one of the frames. |
| Aggregator.StepStamps | main.c:885-1112 | A handled frame changes a group's arrival time only if it is a frame of that group's class and id, and then sets it to the frame's arrival time. |
| Aggregator.RunStamps | main.c:870-1112 | Along any run, each emitted datapoint holds, for every group, either its starting arrival time or the arrival time of a frame of that group in the run. |
| Aggregator.FreshMeansReceived | main.c:1114-1120 | Every datapoint emitted 900 ms or more after start-up has received every group: for each group it holds the arrival time of a frame of that group's class and id from the run, less than 900 ms before the emission. |
| Aggregator.EarlyFrameEmitsInitial | main.c:863-868 | Before 900 ms the zero timestamps count as fresh, so any unrecognised first frame emits the all-zero datapoint. |
| Aggregator.RejectedFrameIsIgnored | main.c:894-986 | A MON-RF or MON-SPAN frame with a bad version or block count leaves the state unchanged and emits nothing. |
| Aggregator.Frames | main.c:870-872 | Every frame the receive loop obtains from the byte stream is well formed and fits the receive buffer. |
| Aggregator.Session | main.c:863-1126 | Over the whole session of decoded frames, whatever the buffer holds beyond each, emissions are more than 900 ms apart and each one carries only fresh groups. |
| Telemetry.Encode | telemetry.c:106-178 | The declared map size equals the number of pairs: 10 on multi-band receivers and 7 otherwise. Keys are written as 0,1,2,3,4,5,[6,7],10,[11]. |
| Telemetry.EncodeShape | telemetry.c:109-178 | Key 0 is a scalar. Every other key has its fixed arity. The spectrum array's third item is the 256-byte spectrum as one binary item. |
| Telemetry.LookupFrom | telemetry.c:106-178 | The receiver-side lookup of a key in the encoded map, as a consumer indexes the map by key: it finds only a pair of the map with the requested key. |
| Telemetry.EncodeDecode | telemetry.c:98-181 | Reading the encoded map back by key recovers exactly the fields of the datapoint that are sent, with the second band present exactly on multi-band receivers. |
| Telemetry.EncodedFitsBuffer | telemetry.c:78-181 | Even with the widest MessagePack form of every item, the encoded datapoint fits the 4096-byte send buffer. |
| Telemetry.FileWriter | telemetry.c:78-96 | A write is refused, with buffer and pointer unchanged, exactly when it would pass 4096 bytes. Otherwise the data lands in order at the old pointer, the pointer advances by its length, and no other byte changes. |
| Telemetry.FileWriterAgrees | telemetry.c:78-96 | The imperative append with its 16-bit counter agrees with the functional append on every input. |
| Telemetry.WriteAllAppends | telemetry.c:78-96 | When a sequence of writes fits, the buffer from the starting pointer holds their concatenation and the pointer moves by its length. |
| Telemetry.SendsOnlyThisDatapoint | telemetry.c:102-180 | Because the pointer is reset before encoding, the length handed to the socket covers exactly this datapoint's bytes, whatever the buffer held before. |

## Left out

- Serial port handling is not modelled: opening the device, termios settings, `tcflush`, `send_ubx` and `sleep_ms`. These are I/O. A write is reduced to whether it succeeded.
- A read error on the device is folded into end of file (`DeviceEof`). The source returns the same code, 1, for both.
- The reset option (`ubx_cfg_rst` sent without waiting for an ACK, then a reopen) is not modelled as behaviour. It is I/O; only the reset frame's well-formedness is proved.
- Signal handling, the `app_exit` flag and command-line parsing are not modelled. They are process control.
- `monotonic_ms()` is not modelled. It is a clock, so arrival times are parameters.
- `mktime` is not modelled. It depends on the local time zone, so it is the `toEpoch` parameter.
- `process_datapoint` is not modelled. It does float formatting, local-time conversion and file appends; its hex dump covers only 255 of the 256 spectrum bytes.
- `udp_send` is not modelled. It uses sockets and name resolution.
- The cmp library's byte-level MessagePack encoding is not part of this model. The map is kept as its declared size and its key/value pairs, and sizes are bounded by the largest form the MessagePack specification allows for each item.
- main.h is not modelled. Its datapoint struct is stale; the record follows the fields main.c and telemetry.c use.
- The web relay and browser UI are not modelled. They contain no core logic.
- The comment at telemetry.c:105 says 8 items on multi-band receivers, but the code declares 10. The model follows the code.
- Aggregator.Step: the 64-bit sums `last_sent + 900` and `ts + 900` are treated as unbounded. They cannot wrap for millisecond clocks within the lifetime of a process.
- Handlers.MonRf, Handlers.MonSpan, Handlers.NavPvt: each requires its input to hold the bytes it reads. The receive loop passes the 2042 buffer bytes from byte 6 on, which always suffice. On a short payload the source reads the frame's checksum and then bytes left in the buffer by earlier frames and rejected attempts. The model takes those bytes as a parameter with any contents, rather than tracking what earlier frames wrote.
- Handlers.NavSat, Handlers.NavSig: each requires a payload holding all `num_svs` blocks. The source does not check this; since `num_svs` is only bounded by 255, its loops read past the end of the 2048-byte buffer (NAV-SAT from 170 blocks, NAV-SIG from 128), which is undefined behaviour in C. The receive loop uses the corrected handlers instead (see Findings).
- Aggregator.Frames: the loop uses the corrected length guard (2040), so that every frame fits the buffer. The guard as written is modelled and exhibited in `FrameDecoder.AsWrittenAcceptsOverlongFrame`.

## Findings

| source | as written | input that shows it | evidently intended | confidence | as-written member | corrected member |
|---|---|---|---|---|---|---|
| main.c:444 | `wait_ubx` rejects only declared lengths of 2048 or more. A length from 2041 to 2047 passes, and the payload and checksum bytes are stored up to index 2054 of the 2048-byte `buffer`. | A MON-SPAN frame `B5 62 0A 31 FF 07`, then 2047 zero bytes and its two checksum bytes. | Reject any length above 2040 = `BUFFER_LENGTH` − 8, so that the whole frame fits the buffer. | not executed | FrameDecoder.AsWrittenAcceptsOverlongFrame | FrameDecoder.CorrectedGuardFitsBuffer |
| main.c:1052-1056 | The NAV-SAT loop runs over `num_svs` blocks without checking the payload length, reading the flags of block i at buffer offset 22 + 12·i. | A checksummed NAV-SAT frame with an 8-byte payload whose `num_svs` byte is 255: the last flags read is at offset 3070 of the 2048-byte `buffer`. | Bound the loop by the blocks the declared payload length holds. | not executed | Aggregator.NavSatReadsPastBuffer | Handlers.NavSatChecked |
| main.c:1080-1084 | The NAV-SIG loop runs over `num_svs` blocks without checking the payload length, reading the quality of signal i at buffer offset 21 + 16·i. | A checksummed NAV-SIG frame with an 8-byte payload whose `num_svs` byte is 128: the last quality read is at offset 2053 of the 2048-byte `buffer`. | Bound the loop by the blocks the declared payload length holds. | not executed | Aggregator.NavSigReadsPastBuffer | Handlers.NavSigChecked |
