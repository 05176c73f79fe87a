# Verification of the persistent FC4 telemetry stack

A Dafny 4.11 model of the read-only LuxPower FC4 stack and proofs about it. It has three parts.

* **Wire layer.** CRC-16 (Modbus over Serial Line V1.02, section 6.2.2), the packet builder, the outgoing guard, the
  response parser, the streaming frame decoder with its resynchronisation, and the benchmark's one-shot splitter.
* **Session and recovery.** The read session, once as a state machine over every interleaving of its coroutines
  (`SessionProtocol`, `SessionSafety`) and once as a class that works on the session's fields from bytes on the wire
  (`ReadSession`), with its register maps, subscriptions and derived direct-energy values. The object keeps a ghost
  history of every region, socket read and timeout (`WireTrace`), and `WireHistory` proves what its state says about the
  bytes of each connection. Above it the hybrid client:
  freshness-driven block selection, budgeted reconnects and the recovery ledger. The client's class (`HybridClient`)
  is proved against functions over an arbitrary environment (`Recovery`), and the guarantees are proved of those.
* **Evidence.** The streaming freshness aggregator against the batch functions, the diagnostic journal's bounded logs,
  and the deltas read back from them.

The classes are proved against specification functions. What those mean is proved apart from them, in raw terms:
`CrcDivision` (long division of bits), `FrameMeaning` (the bytes of a frame), `SessionOutcomes` and `RejectionHistory`
(events and refusals), `SelectionExact`, `DialOutcomes` and `RecoveryEvents` (ages, replies, dials, events), and
`EvidenceMeaning` (the samples' own fields).

Code that updates fields or loops in place is a class or a method with loop invariants; expressions and comprehensions
are functions. `dafny verify dfyconfig.toml` checks the whole project.

## How the environment enters

Clocks are integers. Sockets, deadlines and cancellation are events of the session's state machine: one event is what
runs between two awaits, so any list of events is an interleaving. For the hybrid client the environment is a `World`:
what each consultation of the clocks, the register store and the shutdown flag shows, and how each read, dial, pause
(of which length) and close ends, as unconstrained functions. Assumptions are made only where a lemma names them: clocks that do not go
back (`RollingWindow.ClockRuns`, `AcquisitionFreshness.StoreGrows`, `ObservationStore.ClockNeverBack`,
`RecoveryRanges.WallClockRuns`, `Freshness.Regular`), and that an answered read has observed its block and registers
are not forgotten (`AcquisitionFreshness.AnswersObserve`, `StoreGrows`). `SessionWorld.SessionAnswersReads` proves the
latter two of any world that is a run of the session, so `SessionWorld.RefreshOverSession` holds of client and session
together.

## What the code does not promise

* Parsing can fail with an index error, exactly for the packets of `Response.RaisesExactly` (`ShortDeclarationRaises`
  gives a family of them); `Response.FramedNeverRaises` shows that no packet a frame decoder hands over is one.
* Chunking matters when a complete acceptable frame lies inside a larger one: `StreamFraming.ChunkingCanMatter`. All
  ways of cutting a stream agree if and only if the stream is undivided (`CutIndependence.CutIndependenceExactly`), a
  condition found in one pass: no frame handed over, and no gap resynchronised across, holds an accepted frame that was
  complete earlier. Two given cuttings agree already when the search is silent wherever they cut
  (`StreamFraming.CutsDoNotMatter`). Silence is sufficient, not necessary: `CutIndependence.SpeakingUpCanBeHarmless`.
  `WireHistory.AnswerCanBeSwallowed` is the divided case with the decoder's own rules and a real answer.
* The recovery ledger (one event for each attempt and each rolling-budget refusal) balances over every undisturbed life
  if and only if `max_reconnects_per_acquisition` is 1 (`LedgerExactness.LedgerBalancesExactly`): a second reconnect
  overwrites the first recovery (luxpower/hybrid.py:497), or is refused and leaves it attached. A cancellation during the
  close at luxpower/hybrid.py:711, or a read failure of no recoverable class (luxpower/hybrid.py:827), also leaves it
  attached and unrecorded; `LedgerExactness.AcquisitionBalancesExactly` is the exact law for
  one acquisition in any world.
* A request delta is exact after everything that can follow the cursor if and only if no request still open there is
  older than one already finalised (`DiagnosticJournal.RequestDeltaExactly`). Otherwise a retained request can be missing
  (`OutOfOrderLost`), and the delta can call itself complete while it holds another one in its place
  (`CompleteWithTheWrongEntry`). The session's request lock keeps the order (`LockKeepsOrder`, `PhaseExact`).
* The cap on recovery seconds (luxpower/profile_validation.py:397) never takes effect, whatever the samples, if and only
  if the recovery ranges, each of positive length, are pairwise disjoint (`EpisodeEvidence.CapIdleExactly`). The ranges one client records are
  disjoint while the wall clock runs forward, so for them the cap is idle
  (`RecoveryRanges.RecordedRecoveriesNeedNoCap`).

## Model

| member | source | states |
|---|---|---|
| `Crc.ComputeCrc` | custom_components/lxp_modbus/classes/lxp_packet_utils.py:3-12 | the nested loops, on a register wider than 16 bits, compute the 16-bit CRC, which `CrcDivision.CrcIsRemainder` says what it is |
| `CrcDivision.CrcIsRemainder` | custom_components/lxp_modbus/classes/lxp_packet_utils.py:3-12 | for every message: the CRC is the remainder of its bits, low bit first, the first sixteen inverted and sixteen zeros behind, by long division by x^16 + x^15 + x^2 + 1 |
| `CrcDivision.RunDivides` | custom_components/lxp_modbus/classes/lxp_packet_utils.py:4-11 | for every register value and message: the register is the remainder of the message with the register's bits subtracted from its front |
| `Crc.RunStaysNarrow` | custom_components/lxp_modbus/classes/lxp_packet_utils.py:4-12 | for any message the running CRC never leaves 16 bits, so the final mask changes nothing |
| `Crc.BurstDetected` | custom_components/lxp_modbus/classes/lxp_packet_utils.py:3-12 | for messages of any length, any error burst of up to 16 bits at any place changes the CRC |
| `Crc.NeighbouringBytesDetected` | custom_components/lxp_modbus/classes/lxp_packet_utils.py:3-12 | changing one byte, or two neighbouring bytes, always changes the CRC |
| `Crc.TrailerChecks` | custom_components/lxp_modbus/classes/lxp_response.py:95-106 | a little-endian trailer is the CRC of the data if and only if data and trailer together have CRC zero |
| `Response.ParseResponse` | custom_components/lxp_modbus/classes/lxp_response.py:9-93 | the field-by-field constructor with its early returns ends in the parsed packet of the specification |
| `Response.GetDataFrame` | custom_components/lxp_modbus/classes/lxp_response.py:95-106 | cuts out the CRC-covered bytes and says whether the trailer matches them |
| `Response.ReadFrame` | custom_components/lxp_modbus/classes/lxp_response.py:52-69 | the three layouts of the data frame: counted values, exception, single value |
| `Response.WordsAt` | custom_components/lxp_modbus/classes/lxp_response.py:108-122 | value i of a packet is its i-th little-endian word, and there is one for every two bytes |
| `Response.Dictionary` | custom_components/lxp_modbus/classes/lxp_response.py:114-122 | the register dictionary has exactly the consecutive registers from the start register, each with its value |
| `Response.FramedNeverRaises` | custom_components/lxp_modbus/classes/lxp_response.py:41-69 | parsing a packet exactly as long as its header says never fails with an index error |
| `Response.RaisesExactly` | custom_components/lxp_modbus/classes/lxp_response.py:49-69 | construction fails if and only if an intact translated packet declares a data frame too short for its function |
| `Response.ShortDeclarationRaises` | custom_components/lxp_modbus/classes/lxp_response.py:49-55 | every translated packet declaring 20 bytes with both CRC bytes 0xFF makes construction fail |
| `Response.AcceptedHasZeroResidue` | custom_components/lxp_modbus/classes/lxp_response.py:41-50 | every accepted translated packet has CRC zero over its protected bytes and trailer |
| `Response.NonzeroResidueRejected` | custom_components/lxp_modbus/classes/lxp_response.py:49-50 | any translated packet whose protected bytes have a nonzero CRC is a packet error with no register read |
| `Response.CorruptionRejected` | custom_components/lxp_modbus/classes/lxp_response.py:41-50 | flipping any burst of up to 16 bits in the protected part of an accepted packet, CRC included, makes the parser report a packet error |
| `Request.PreparePacketForRead` | custom_components/lxp_modbus/classes/lxp_request_builder.py:12-46 | the read packet, or the value error for a bad serial, register or count |
| `Request.PreparePacketForWrite` | custom_components/lxp_modbus/classes/lxp_request_builder.py:48-77 | the write packet with the value cut to 16 bits, the value error for a bad serial, the overflow for a register that does not fit |
| `Request.RequestFields` | custom_components/lxp_modbus/classes/lxp_request_builder.py:28-46 | every field of a built packet reads back at its offset, and its trailer is the CRC of bytes 20 to 35 |
| `Request.GuardExact` | custom_components/lxp_modbus/classes/read_session.py:1333-1353 | the guard lets a packet pass if and only if it is byte for byte the FC4 packet built for that range |
| `Request.GuardRefusesWrites` | custom_components/lxp_modbus/classes/read_session.py:1333-1353 | no write packet passes the guard, for any range |
| `Request.WriteRoundTrip` | custom_components/lxp_modbus/classes/lxp_request_builder.py:48-77 | parsing a built write packet gives exactly the register with the value modulo 65536 |
| `Request.ResponseRoundTrip` | custom_components/lxp_modbus/classes/lxp_response.py:40-69 | parsing any protocol 2 or 5 FC4 answer of up to 125 registers gives exactly start+i and value i |
| `FrameMeaning.FieldsRead` | custom_components/lxp_modbus/classes/lxp_response.py:40-69 | every field of an intact translated packet, read off the raw bytes at its offset, exception code included |
| `FrameMeaning.AnswerExactly` | custom_components/lxp_modbus/classes/read_session.py:1067-1118 | a complete frame is routed as an answer if and only if its bytes say so: byte 7 is 194, dongle, inverter, action 1, function 4, start, words, at most register 749, and CRC zero behind the envelope |
| `FrameMeaning.RejectionExactly` | custom_components/lxp_modbus/classes/read_session.py:1067-1081 | and as the refusal of a read if and only if it is such a packet with byte 21 equal to 0x84 |
| `FrameMeaning.OthersExactly` | custom_components/lxp_modbus/classes/read_session.py:1058-1065 | a frame is a function-193 frame if and only if byte 7 is 193 and it has 19 bytes |
| `FrameMeaning.ExceptionRoundTrip` | custom_components/lxp_modbus/classes/lxp_response.py:62-65 | an exception answer as built parses to its register and code, carries no values, and is routed as a refusal |
| `FrameDecoder.LuxFrameDecoder.constructor` | custom_components/lxp_modbus/classes/frame_decoder.py:25-32 | an empty buffer and zero counters |
| `FrameDecoder.LuxFrameDecoder.Feed` | custom_components/lxp_modbus/classes/frame_decoder.py:34-88 | one feed hands over the frames, keeps the rest and moves the counters of a scan of the old buffer followed by the new bytes |
| `FrameDecoder.LuxFrameDecoder.Turn` | custom_components/lxp_modbus/classes/frame_decoder.py:42-86 | each turn of the loop takes some pieces off the front and shortens the buffer, or stops where the scan stops |
| `FrameDecoder.LuxFrameDecoder.TakeFront` | custom_components/lxp_modbus/classes/frame_decoder.py:54-86 | with a prefix and a length at the front: one piece is taken off as the scan takes it, or the scan stops here |
| `FrameDecoder.LuxFrameDecoder.FindValidLaterFrame` | custom_components/lxp_modbus/classes/frame_decoder.py:99-121 | the prefix-to-prefix search finds what trying every offset from 2 on would find |
| `FrameDecoder.LuxFrameDecoder.CheckCandidate` | custom_components/lxp_modbus/classes/frame_decoder.py:105-120 | a candidate is valid exactly when its length is plausible, it is complete, and the parser accepts it as translated data |
| `FrameDecoder.LuxFrameDecoder.DiscardPartial` | custom_components/lxp_modbus/classes/frame_decoder.py:90-97 | gives up a non-empty buffer, counting its bytes and one malformed length |
| `FrameDecoder.LuxFrameDecoder.Reset` | custom_components/lxp_modbus/classes/frame_decoder.py:123-128 | empties the buffer and sets every counter to zero |
| `FrameDecoder.SearchIsLeast` | custom_components/lxp_modbus/classes/frame_decoder.py:99-121 | the search returns the least offset holding a complete accepted frame, or nothing if and only if there is none |
| `StreamFraming.ScanConserves` | custom_components/lxp_modbus/classes/frame_decoder.py:42-88 | the pieces of a scan followed by the rest are the buffer, byte for byte |
| `StreamFraming.MalformedExactly` | custom_components/lxp_modbus/classes/frame_decoder.py:62-81 | the malformed count is the number of prefixes whose bytes were given up |
| `StreamFraming.RunConserves` | custom_components/lxp_modbus/classes/frame_decoder.py:34-97 | over any mix of feeds and discards, the frames and given-up bytes in order followed by the buffer are the stream, and the byte counts add up |
| `StreamFraming.BufferStaysBounded` | custom_components/lxp_modbus/classes/frame_decoder.py:62-82 | after every feed fewer than the maximal frame size bytes stay buffered |
| `StreamFraming.ResyncOnlyAdds` | custom_components/lxp_modbus/classes/frame_decoder.py:71-86 | resynchronisation never takes away a frame, and changes something if and only if the search finds a frame |
| `StreamFraming.WaitingScanSplits` | custom_components/lxp_modbus/classes/frame_decoder.py:42-88 | without resynchronisation, scanning a stream is scanning its beginning and carrying the rest over |
| `StreamFraming.ChunkInvariance` | custom_components/lxp_modbus/classes/frame_decoder.py:34-88 | if the search is silent wherever a chunk ends, frames, discarded bytes, malformed count and buffer are those of one pass without resynchronisation over the concatenation |
| `StreamFraming.CutsDoNotMatter` | custom_components/lxp_modbus/classes/frame_decoder.py:34-88 | two ways of cutting one stream, each silent at its own cuts, end in the same decoder state with the same output |
| `StreamFraming.QuietExactly` | custom_components/lxp_modbus/classes/frame_decoder.py:76-81 | the search is silent on all beginnings of a stream if and only if each is scanned as without resynchronisation |
| `StreamFraming.ChunkingCanMatter` | custom_components/lxp_modbus/classes/frame_decoder.py:71-86 | an accepted frame inside a larger one: one chunk yields the outer frame, a cut behind the inner one yields the inner frame |
| `CutIndependence.OnePass` | custom_components/lxp_modbus/classes/frame_decoder.py:34-88 | however an undivided stream is cut, the decoder ends as after a single feed of all of it, resynchronisation included |
| `CutIndependence.CutIndependenceExactly` | custom_components/lxp_modbus/classes/frame_decoder.py:34-88 | for every stream: all ways of cutting it end in the same state with the same output if and only if it is undivided, and a divided one already hands over different frames |
| `CutIndependence.EmbeddedDivides` | custom_components/lxp_modbus/classes/frame_decoder.py:71-86 | an acceptable frame inside a larger one makes the stream divided, so some cutting of it changes the frames |
| `CutIndependence.SpeakingUpCanBeHarmless` | custom_components/lxp_modbus/classes/frame_decoder.py:71-86 | a header promising more than comes, followed by one complete frame: the search speaks up, and still no cut matters |
| `StreamFraming.CleanStreamRecovered` | custom_components/lxp_modbus/classes/frame_decoder.py:34-88 | any chunking of well-formed frames with no accepted frame embedded hands over exactly those frames and discards nothing |
| `FrameSplitter.SplitLuxFrames` | luxpower/benchmark.py:180-215 | the one-shot splitter finds the frames of a scan without resynchronisation; leading, frame and trailing bytes sum to the payload; the trailing bytes are what is left behind the last frame or bad prefix, from its first, incomplete, prefix on if it has one |
| `FrameSplitter.SplitterAgainstDecoder` | luxpower/benchmark.py:191-215 | its frames are a prefix of the stream decoder's, and equal if and only if the resync search finds nothing |
| `FrameSplitter.ReadBothWays` | luxpower/benchmark.py:180-215 | the same for the splitter and a fresh decoder object run on one payload |
| `SessionSafety.StepKeeps` | custom_components/lxp_modbus/classes/read_session.py:457-769 | every region between two awaits keeps the session invariant, never lowers the generation and only appends to the history |
| `SessionSafety.RunKeeps` | custom_components/lxp_modbus/classes/read_session.py:457-769 | so does every interleaving of any length |
| `SessionSafety.PendingIsCurrent` | custom_components/lxp_modbus/classes/read_session.py:601-646 | a pending request is of the current generation with a writer installed; a completed one was completed by a response accepted after its registration, on its generation, for its range, that completed no other |
| `SessionSafety.LateRepliesFenced` | custom_components/lxp_modbus/classes/read_session.py:699-764 | once a request timed out, ended ambiguously or was cancelled, every observation and completion after it is of a newer generation, in every continuation |
| `SessionSafety.CompletesExactly` | custom_components/lxp_modbus/classes/read_session.py:1073-1136 | while a request is pending, a routed frame completes it if and only if it is a usable FC4 response of that generation, start and count |
| `SessionOutcomes.RejectsExactly` | custom_components/lxp_modbus/classes/read_session.py:1075-1096 | while a request is pending, a routed frame fails it if and only if it is a refusal, on the request's connection, of its start |
| `SessionOutcomes.SettledExactly` | custom_components/lxp_modbus/classes/read_session.py:457-741 | what every other event makes of the pending request's future: closed, lost, dropped, or nothing |
| `SessionOutcomes.OutcomeExactly` | custom_components/lxp_modbus/classes/read_session.py:679-764 | an outcome is given once, by the event that stands for it (deadline, ambiguous while draining, I/O error, cancellation, or what the future holds), and never changed |
| `SessionOutcomes.OutcomeIsItsFuture` | custom_components/lxp_modbus/classes/read_session.py:765-769 | on every run a finished request's outcome is success with a response, or its future's reason, or its own giving up |
| `SessionOutcomes.CountedByClass` | custom_components/lxp_modbus/classes/read_session.py:1048-1136 | every routed frame moves exactly the counters of its class |
| `SessionOutcomes.LockExactly` | custom_components/lxp_modbus/classes/read_session.py:457-556 | who holds the lifecycle lock after every event |
| `SessionOutcomes.ConnectionExactly` | custom_components/lxp_modbus/classes/read_session.py:457-556 | where generation, connection, its loss and the connection counters go with every event |
| `SessionOutcomes.ReadersExactly` | custom_components/lxp_modbus/classes/read_session.py:948-992 | where each reader goes with every event |
| `SessionOutcomes.RegisteredExactly` | custom_components/lxp_modbus/classes/read_session.py:601-646 | a read is registered if and only if its range is valid, none is in flight and a live connection is installed |
| `SessionSafety.StaleBytesHarmless` | custom_components/lxp_modbus/classes/read_session.py:952-957 | bytes of a generation that has passed end their reader if it was reading, and change nothing else, the other readers included |
| `SessionSafety.Accounting` | custom_components/lxp_modbus/classes/read_session.py:1048-1208 | validated = expected + unmatched; routed = validated + function 193 + rejections + router-rejected; requests = finalised + in flight; each finalised once; successes at most expected |
| `SessionCounters.CountersMeanOutcomes` | custom_components/lxp_modbus/classes/read_session.py:679-741 | in every reachable state timeouts, ambiguous ends and successes are the numbers of requests with that outcome; one reader was started per connection; every connection lost is one no longer installed |
| `SessionCounters.FiledDuring` | custom_components/lxp_modbus/classes/read_session.py:601-646 | over any run requests are only added, never refiled, and those added were registered after everything logged before the run |
| `SessionSafety.ReplyAnswersRequest` | custom_components/lxp_modbus/classes/read_session.py:601-683 | the good run exists: connect, register, drain, matching response, success with that response |
| `ReadSession.LuxReadSession.constructor` | custom_components/lxp_modbus/classes/read_session.py:344-406 | a session starts in the initial state with empty maps and no history |
| `ReadSession.LuxReadSession.BeginConnect` | custom_components/lxp_modbus/classes/read_session.py:452-455 | takes the lifecycle lock and dials, unless a live connection is installed |
| `ReadSession.LuxReadSession.FailConnect` | custom_components/lxp_modbus/classes/read_session.py:519-536 | a dial that fails or is cancelled leaves the session as it was and releases the lock |
| `ReadSession.LuxReadSession.InstallConnection` | custom_components/lxp_modbus/classes/read_session.py:537-556 | installs a new generation with a fresh decoder, as the state machine's step |
| `ReadSession.LuxReadSession.FailPending` | custom_components/lxp_modbus/classes/read_session.py:1287-1298 | frees the slot and settles the future once |
| `ReadSession.LuxReadSession.BeginClose` | custom_components/lxp_modbus/classes/read_session.py:473-479 | the first region of a close: invalidates the generation before anything is awaited |
| `ReadSession.LuxReadSession.Close` | custom_components/lxp_modbus/classes/read_session.py:457-482 | a close for its caller, up to its first await, as the state machine's step |
| `ReadSession.LuxReadSession.EndClose` | custom_components/lxp_modbus/classes/read_session.py:483-497 | the last region of a close empties the decoder and releases the lock |
| `ReadSession.LuxReadSession.RegisterRead` | custom_components/lxp_modbus/classes/read_session.py:601-647 | registers the request and sends exactly the FC4 packet for its range, or changes nothing; the guard never fires |
| `ReadSession.LuxReadSession.FenceRequest` | custom_components/lxp_modbus/classes/read_session.py:699-711 | giving up a request frees the slot, drops the future and moves the generation on, before anything is awaited |
| `ReadSession.LuxReadSession.GiveUpRequest` | custom_components/lxp_modbus/classes/read_session.py:699-712 | the except branches free the slot, drop the future and fence the generation in one region |
| `ReadSession.LuxReadSession.ExpireRequest` | custom_components/lxp_modbus/classes/read_session.py:684-712 | a deadline is ambiguous while draining and a timeout afterwards |
| `ReadSession.LuxReadSession.CancelRequest` | custom_components/lxp_modbus/classes/read_session.py:721-729 | cancellation fences the generation like a timeout |
| `ReadSession.LuxReadSession.FailDrain` | custom_components/lxp_modbus/classes/read_session.py:730-741 | an I/O failure is ambiguous and fences the generation |
| `ReadSession.LuxReadSession.DrainCompleted` | custom_components/lxp_modbus/classes/read_session.py:669-674 | once drained, the request awaits its reply |
| `ReadSession.LuxReadSession.CloseTainted` | custom_components/lxp_modbus/classes/read_session.py:712-712 | the close that a given-up request waited for begins when the lock is free |
| `ReadSession.LuxReadSession.FinishGivenUp` | custom_components/lxp_modbus/classes/read_session.py:765-769 | a given-up request is finalised with the outcome already recorded and releases a lock it holds |
| `ReadSession.LuxReadSession.EndTainted` | custom_components/lxp_modbus/classes/read_session.py:483-497 | the end of that close empties the decoder and finalises the request |
| `ReadSession.LuxReadSession.CancelTainted` | custom_components/lxp_modbus/classes/read_session.py:721-729 | a cancellation during that close finalises the request without emptying the decoder |
| `ReadSession.LuxReadSession.Conclude` | custom_components/lxp_modbus/classes/read_session.py:765-769 | the finally branch finalises the request and releases the request lock |
| `ReadSession.LuxReadSession.FinishRequest` | custom_components/lxp_modbus/classes/read_session.py:679-683 | finalises the request with what its future holds and frees the request lock |
| `ReadSession.LuxReadSession.FailReader` | custom_components/lxp_modbus/classes/read_session.py:984-992 | a failing reader of the current generation goes on to the cleanup, a stale one ends |
| `ReadSession.LuxReadSession.ExitReader` | custom_components/lxp_modbus/classes/read_session.py:480-489 | a cancelled reader, always of a passed generation, ends and changes nothing else |
| `ReadSession.LuxReadSession.ReaderFailed` | custom_components/lxp_modbus/classes/read_session.py:1260-1280 | a failing reader ends its own generation and the pending request, a stale one nothing |
| `ReadSession.LuxReadSession.EndCleanup` | custom_components/lxp_modbus/classes/read_session.py:1281-1285 | the end of the cleanup empties the decoder and releases the lock |
| `ReadSession.LuxReadSession.RouteFrame` | custom_components/lxp_modbus/classes/read_session.py:1041-1136 | what is logged, the frame's raw bytes spell, and every answer of the current generation is logged; the rest of the state moves as the state machine's routing, and the register maps follow the history |
| `ReadSession.LuxReadSession.RecordObservation` | custom_components/lxp_modbus/classes/read_session.py:1132-1208 | an accepted observation enters history and maps, and its number, the length of the history, is offered to every open subscription |
| `ReadSession.LuxReadSession.AcceptFrame` | custom_components/lxp_modbus/classes/read_session.py:1132-1208 | an accepted frame extends history and maps, is published under its own number, and completes the matching request |
| `ReadSession.LuxReadSession.RouteFrames` | custom_components/lxp_modbus/classes/read_session.py:980-981 | routes the frames of a chunk in order |
| `ReadSession.LuxReadSession.ReceiveChunk` | custom_components/lxp_modbus/classes/read_session.py:952-981 | one socket read of any generation: a current one feeds the decoder and routes every completed frame as one step of the state machine, a stale one ends its reader and touches nothing else |
| `ReadSession.LuxReadSession.DecodeChunk` | custom_components/lxp_modbus/classes/read_session.py:969-981 | bytes of the current generation are decoded with what was buffered, and every completed frame is routed |
| `ReadSession.LuxReadSession.TimeOutPartialFrame` | custom_components/lxp_modbus/classes/read_session.py:940-947 | a stale partial frame is given up, and nothing else changes |
| `ReadSession.FramesAreFramed` | custom_components/lxp_modbus/classes/frame_decoder.py:84-86 | every frame handed over is exactly as long as its header says |
| `ReadSession.GoodReplyClassified` | custom_components/lxp_modbus/classes/read_session.py:1067-1118 | the inverter's answer to a valid read is routed as exactly its registers and values |
| `ReadSession.DamagedReplyUnusable` | custom_components/lxp_modbus/classes/read_session.py:1067-1130 | an answer damaged by a burst of up to 16 bits is never used |
| `ReadSession.ReplyIsOneFrame` | custom_components/lxp_modbus/classes/frame_decoder.py:34-88 | a complete answer on an empty buffer comes out as that one frame |
| `ReadSession.ReplyCompletes` | custom_components/lxp_modbus/classes/read_session.py:1132-1192 | in every reachable state the answer to the pending request, from bytes on, completes it |
| `ReadSession.SuccessObserves` | custom_components/lxp_modbus/classes/read_session.py:679-683 | after a success every register of the range stays observed, no earlier than a response accepted after registration |
| `WireHistory.WireReachable` | custom_components/lxp_modbus/classes/read_session.py:457-1285 | whatever comes over the wire, in any order, the session's state is one the state machine reaches |
| `WireHistory.HistoryIsDecoded` | custom_components/lxp_modbus/classes/read_session.py:952-981 | on every run the observations of a generation are exactly the usable responses, in order, among the frames decoded from the bytes read on that connection, with what partial-frame timeouts gave up |
| `WireHistory.RouteLogs` | custom_components/lxp_modbus/classes/read_session.py:1132-1208 | a routed frame adds to the history exactly when it is usable, with its range, values, time and generation, and with the request it completes |
| `WireHistory.HistoryIsOnePass` | custom_components/lxp_modbus/classes/read_session.py:952-981 | without such timeouts and for undivided bytes they are those of one pass over all bytes of the connection, however they were cut |
| `WireHistory.AnswersBecomeHistory` | custom_components/lxp_modbus/classes/read_session.py:1041-1192 | if the inverter's bytes are answers with no accepted frame embedded, then however the network cut them the observations of the generation are those answers, in order, with their registers and values |
| `WireHistory.AnswerCanBeSwallowed` | custom_components/lxp_modbus/classes/frame_decoder.py:71-86 | with the decoder's own rules: an answer behind a longer header is handed over or swallowed depending on the cut |
| `WireHistory.ReplyWasRead` | custom_components/lxp_modbus/classes/read_session.py:1170-1192 | a completed read was answered by a frame decoded from the bytes of the connection it was sent on, whose bytes spell exactly its range and the values returned |
| `RejectionHistory.RefusalWasRead` | custom_components/lxp_modbus/classes/read_session.py:1075-1096 | a refused read was refused by a frame decoded from the bytes of the connection it was sent on, whose bytes spell the refusal of its start |
| `WireHistory.ObjectHistory` | custom_components/lxp_modbus/classes/read_session.py:344-406 | the session object, whatever was called on it, is in a reachable state, and its observations are what its connections said |
| `WireHistory.ObjectFenced` | custom_components/lxp_modbus/classes/read_session.py:699-764 | two states of one object: once a request of the first has timed out, ended ambiguously or been cancelled, everything accepted since is of a newer generation |
| `WireHistory.ObservationWasRead` | custom_components/lxp_modbus/classes/read_session.py:1132-1167 | every observation of the object is a frame decoded from the bytes of its connection, and its bytes spell who sent it, its range and its values |
| `WireHistory.CoherentFrameWasRead` | custom_components/lxp_modbus/read_profiles.py:537-569 | a coherent direct-energy snapshot of the object's maps is computed from one frame that one connection carried |
| `SessionWorld.SessionAnswersReads` | custom_components/lxp_modbus/classes/read_session.py:601-683 | a world that is a run of the session keeps what freshness asks of it: registers are not forgotten or aged, and an answered read has observed its block since it was asked |
| `ObservationStore.RegisterStore.Accept` | custom_components/lxp_modbus/classes/read_session.py:1142-1167 | the in-place map updates for one accepted frame, and its duplicate flag |
| `ObservationStore.StoreRefinesHistory` | custom_components/lxp_modbus/classes/read_session.py:1144-1167 | after any history each register's value, time, source, sequence and range are those of the newest observation covering it; all five maps know it or none does |
| `ObservationStore.ShownExactly` | custom_components/lxp_modbus/classes/read_session.py:1144-1167 | field by field, a register shows the newest observation covering it, as explicit if and only if that one completed a request |
| `ObservationStore.UnknownExactly` | custom_components/lxp_modbus/classes/read_session.py:1144-1155 | a register is unknown if and only if no observation covers it |
| `ObservationStore.SequenceIdentifies` | custom_components/lxp_modbus/classes/read_session.py:1161-1167 | registers with the same sequence number have the same time, source and range |
| `ObservationStore.DuplicateExactly` | custom_components/lxp_modbus/classes/read_session.py:1142-1143 | an observation is a duplicate if and only if the previous one of the same range had the same values |
| `ObservationStore.TimesNeverRegress` | custom_components/lxp_modbus/classes/read_session.py:1144-1155 | registers are never forgotten and their times never go back |
| `Subscriptions.ObservationHub.constructor` | custom_components/lxp_modbus/classes/read_session.py:787-800 | no subscribers and no drops |
| `Subscriptions.ObservationHub.Subscribe` | custom_components/lxp_modbus/classes/read_session.py:787-800 | adds an empty bounded subscription, or raises for a size that is not positive |
| `Subscriptions.ObservationHub.Publish` | custom_components/lxp_modbus/classes/read_session.py:1247-1258 | offers the next number to every open subscription; the session's drop total stays the sum over all subscribers ever created |
| `Subscriptions.ObservationHub.Next` | custom_components/lxp_modbus/classes/read_session.py:129-153 | delivers the oldest queued observation |
| `Subscriptions.ObservationHub.DrainAll` | custom_components/lxp_modbus/classes/read_session.py:155-165 | delivers all queued observations in order |
| `Subscriptions.ObservationHub.Unsubscribe` | custom_components/lxp_modbus/classes/read_session.py:809-824 | empties and closes one subscription, keeping its counters |
| `Subscriptions.OfferConsistent` | custom_components/lxp_modbus/classes/read_session.py:1247-1258 | publishing keeps the queue the newest observations, in order and within capacity |
| `Subscriptions.OfferExactly` | custom_components/lxp_modbus/classes/read_session.py:1247-1258 | an open subscription takes every observation and drops its oldest if and only if its queue is full |
| `Subscriptions.CloseExactly` | custom_components/lxp_modbus/classes/read_session.py:809-824 | closing empties the queue, keeps every counter, and ends deliveries |
| `Subscriptions.MissingCount` | custom_components/lxp_modbus/classes/read_session.py:167-176 | with increasing deliveries, exactly as many numbers are missing as the counters imply |
| `Subscriptions.HistoryConsistent` | custom_components/lxp_modbus/classes/read_session.py:129-165 | every history of publications and consumer calls keeps the queue facts |
| `Subscriptions.DeliveryExact` | custom_components/lxp_modbus/classes/read_session.py:129-176 | for an open subscription received = delivered + dropped + queued, the queue is the newest, deliveries strictly increase, and the missing numbers are as many as the drops |
| `DirectEnergy.CoherentExactly` | custom_components/lxp_modbus/read_profiles.py:537-569 | the coherent sequence is k if and only if accepted frame k spanned registers 0-39, is the newest touching 5, 16, 17, 26 and 27, and is valid there |
| `DirectEnergy.CoherentValues` | custom_components/lxp_modbus/read_profiles.py:539-563 | all four direct-energy values are then computed from that one frame |
| `DirectEnergy.CoherentInStore` | custom_components/lxp_modbus/read_profiles.py:635-661 | coherence read off the five provenance maps |
| `DirectEnergy.ObserveOne` | custom_components/lxp_modbus/read_profiles.py:572-621 | when a one-register value is available, and from what it is computed |
| `DirectEnergy.ObserveTwo` | custom_components/lxp_modbus/read_profiles.py:572-621 | a pair is available exactly when both registers show one observation and are valid |
| `DirectEnergy.ObserveExactly` | custom_components/lxp_modbus/read_profiles.py:582-621 | which of missing, invalid and incoherent is reported, a value exactly when available, and the oldest time whenever values and times are known |
| `BlockPlanner.PlanCovers` | custom_components/lxp_modbus/read_profiles.py:237-248 | planned blocks are aligned, sorted, disjoint, inside 0-749, all needed, and hold each register exactly once; the two errors are raised exactly for a bad size or register |
| `BlockPlanner.PlanIsMinimal` | custom_components/lxp_modbus/read_profiles.py:240 | no set of aligned blocks that covers the registers is smaller |
| `HybridClient.LuxPowerHybridReadClient.constructor` | luxpower/hybrid.py:156-222 | a client starts degraded, with no attempts and no events |
| `HybridClient.LuxPowerHybridReadClient.SetFreshnessTarget` | luxpower/hybrid.py:367-371 | changes the target and nothing else |
| `HybridClient.LuxPowerHybridReadClient.RecordRecovery` | luxpower/hybrid.py:758-803 | appends one event to the bounded deque, which stays the newest of all recorded |
| `HybridClient.LuxPowerHybridReadClient.TerminateRecovery` | luxpower/hybrid.py:749-756 | records a terminal outcome and detaches the recovery |
| `HybridClient.LuxPowerHybridReadClient.AbandonRecovery` | luxpower/hybrid.py:805-811 | counts the abandoned acquisition and degrades health |
| `HybridClient.LuxPowerHybridReadClient.ShutdownDuring` | luxpower/hybrid.py:728-737 | a pause that stops on shutdown, including one signalled as it elapses |
| `HybridClient.LuxPowerHybridReadClient.Establish` | luxpower/hybrid.py:710-726 | after the dialling: established, or closed again for a shutdown |
| `HybridClient.LuxPowerHybridReadClient.DialTransport` | luxpower/hybrid.py:656-709 | the dial loop: some dial decides, those before it failed and were paused after, and what is raised, counted and recorded is what that dial and the pause behind it say |
| `HybridClient.LuxPowerHybridReadClient.PruneAttempts` | luxpower/hybrid.py:598-600 | drops attempts before the cutoff from the front of the deque |
| `HybridClient.LuxPowerHybridReadClient.RefuseRecovery` | luxpower/hybrid.py:601-616 | a used-up rolling budget records one refusal and abandons the acquisition |
| `HybridClient.LuxPowerHybridReadClient.BeginRecovery` | luxpower/hybrid.py:623-635 | a recovery that begins is attached, counted, and its start written down |
| `HybridClient.LuxPowerHybridReadClient.RecoverTransport` | luxpower/hybrid.py:585-726 | one budgeted reconnect: refused with one event, or attempted |
| `HybridClient.LuxPowerHybridReadClient.HandleFailure` | luxpower/hybrid.py:472-499 | what follows a failed read: shutdown, exhausted allowance, or recovery |
| `HybridClient.LuxPowerHybridReadClient.ConcludeRefresh` | luxpower/hybrid.py:564-577 | health after the last pass, and the end of this acquisition's recovery |
| `HybridClient.LuxPowerHybridReadClient.RefreshBlock` | luxpower/hybrid.py:422-504 | one turn of the selection loop: one request if and only if the block has no required register or one that is missing or older than the target |
| `HybridClient.LuxPowerHybridReadClient.SelectionPass` | luxpower/hybrid.py:420-504 | one pass over the blocks, cut short by a reconnect |
| `HybridClient.LuxPowerHybridReadClient.SelectionLoop` | luxpower/hybrid.py:418-504 | pass after pass until one completes or an exception ends the acquisition |
| `HybridClient.LuxPowerHybridReadClient.RefreshProfile` | luxpower/hybrid.py:403-583 | the whole refresh, with its restarts, ends in the state and the exception of the acquisition function |
| `HybridClient.LuxPowerHybridReadClient.AsyncRefreshProfile` | luxpower/hybrid.py:396-401 | the public refresh: bounded reads and dials and ordered counters in any environment, every window of the whole life within the reconnect budget when the clock runs, and no required register too old on a normal return over a session that observes what it answers |
| `Recovery.SelectFails` | luxpower/hybrid.py:472-504 | a recoverable failure ends the acquisition or restarts selection from the first block |
| `SelectionExact.RefreshReadsExactly` | luxpower/hybrid.py:419-504 | a refresh makes one request for each of its reads, each of a block due one consultation before, in raw ages, and counts every failure by its kind |
| `SelectionExact.NothingDueNothingRead` | luxpower/hybrid.py:426-442 | a selection that finds no block due makes no request and goes through all blocks |
| `SelectionExact.FreshProfileIsLeftAlone` | luxpower/hybrid.py:1068-1073 | a refresh over registers all within the target makes no request, records nothing and ends healthy |
| `SelectionExact.HealthIsFreshness` | luxpower/hybrid.py:564-568 | after a normal return health is healthy if and only if every block has a required register and every one of them is observed no longer ago than the target |
| `SelectionExact.UnansweredRead` | luxpower/hybrid.py:456-480 | what a cancelled, rejected or unclassified read raises, records and leaves as health |
| `SelectionExact.FailedReadDecides` | luxpower/hybrid.py:472-499 | a recoverable failure ends in the shutdown's error, in a used-up allowance, or in a reconnect, with these events and counters |
| `SelectionExact.FailedRefreshDegrades` | luxpower/hybrid.py:456-811 | a refresh that raises a cancellation, rejection, exhausted recovery, connection error or its original error leaves the client degraded |
| `SelectionExact.CompletionRecorded` | luxpower/hybrid.py:564-577 | the last pass records a recovered or still stale profile, and counts a completed recovery, by the ages alone |
| `DialOutcomes.PauseExactly` | luxpower/hybrid.py:728-737 | when a pause passes, stops on shutdown, or is cancelled |
| `DialOutcomes.DialExactly` | luxpower/hybrid.py:656-726 | some attempt decides the dialling: those before it failed and were paused after, and dials, failures, error, event, health and attached recovery are exactly those up to it |
| `DialOutcomes.UsesEveryAttempt` | luxpower/hybrid.py:657-700 | undisturbed, a reconnect connects if and only if one of its allowed dials connects, and gives up if and only if all of them fail |
| `DialOutcomes.ReconnectExactly` | luxpower/hybrid.py:585-726 | a reconnect names the failure's kind and block in its refusal or its recorded start, and its first pause or one of its dials decides |
| `RecoveryEvents.EveryEventSound` | luxpower/hybrid.py:758-803 | over a whole life: an event counts as reconnected if and only if its time to connection is known; one that ran out of attempts carries all allowed dials, all failed |
| `RecoveryLedger.DialKeeps` | luxpower/hybrid.py:656-726 | a reconnect connects without an event, or ends with exactly one event of its own, or was interrupted while closing |
| `RecoveryLedger.RecoverKeeps` | luxpower/hybrid.py:593-726 | a recovery is refused with one refusal event and no attempt, or writes down its start before anything can fail |
| `RecoveryLedger.SelectBooked` | luxpower/hybrid.py:420-577 | in any world, exactly the reconnects begun on top of an attached recovery lose an event, and a recovery stays attached exactly in the three named ways |
| `RecoveryBudget.AcquisitionCost` | luxpower/hybrid.py:403-584 | under any failure pattern at most (max_reconnects_per_acquisition + 1) x blocks reads, max_reconnects x max_connection_attempts dials, and max_reconnects recoveries |
| `RecoveryBudget.LifeCounters` | luxpower/hybrid.py:635-741 | over a whole life completed is at most successful, and successful + failed at most attempts |
| `RollingWindow.PruneDropsOld` | luxpower/hybrid.py:598-600 | pruning keeps a suffix and drops only entries before the cutoff |
| `RollingWindow.LifeBudget` | luxpower/hybrid.py:596-635 | the deque stays the newest part of all starts, the rest having left every window still to come |
| `RollingWindow.RollingBudgetHolds` | luxpower/hybrid.py:596-635 | over any whole life, every closed window of rolling_window_seconds holds at most max_reconnects_per_window starts |
| `RollingWindow.RefusedOnlyWhenFull` | luxpower/hybrid.py:596-616 | a reconnect is refused if and only if the closed window before it is already full |
| `RollingWindow.CooldownExactly` | luxpower/hybrid.py:618-634 | a reconnect that may start uses the initial cooldown if and only if the closed window before it holds no other start |
| `AcquisitionFreshness.NormalReturnIsFresh` | luxpower/hybrid.py:419-504 | on normal return every required register is observed no earlier than the start of the final pass less the target |
| `AcquisitionFreshness.PlannedBlocksCover` | custom_components/lxp_modbus/read_profiles.py:392-397 | the planned blocks of any profile cover its required registers |
| `AcquisitionFreshness.HealthyExactly` | luxpower/hybrid.py:564-568 | after a normal return health is healthy if and only if every block was fresh when it was decided (`SelectionExact.HealthIsFreshness` says it in raw ages) |
| `SessionWorld.RefreshOverSession` | luxpower/hybrid.py:396-504 | client and session together: on normal return every required register of the session's own maps is observed no earlier than the start of the final pass less the target |
| `LedgerExactness.AcquisitionBalancesExactly` | luxpower/hybrid.py:456-577 | from a balanced ledger, exactly when an acquisition leaves it balanced, for every policy and world |
| `LedgerExactness.EveryAttemptHasItsEvent` | luxpower/hybrid.py:601-726 | with one reconnect per acquisition, over a whole undisturbed life the events other than refusals are the attempts in order, each with its own failure, block and cooldown |
| `LedgerExactness.SecondReconnectLosesAnEvent` | luxpower/hybrid.py:489-499 | every policy allowing two reconnects has a run that leaves an attempt unrecorded |
| `LedgerExactness.LedgerBalancesExactly` | luxpower/hybrid.py:496-505 | the ledger balances over every undisturbed life if and only if max_reconnects_per_acquisition is 1 |
| `LedgerReconciliation.EventsAccountForCounters` | luxpower/hybrid.py:656-803 | under the same policy the dials, failed dials, successful reconnects, completed recoveries and exhausted reconnects of the recorded events add up to exactly the client's totals |
| `LedgerReconciliation.DialReconciled` | luxpower/hybrid.py:656-726 | every way a reconnect ends keeps events, attached recovery and totals in agreement |
| `Freshness.TimeBeyondTarget` | luxpower/profile_validation.py:505-522 | the batch loop integrates the intervals that begin with a sample missing an age or a register or over the target |
| `Freshness.TimeBeyondTargetByHealthState` | luxpower/profile_validation.py:525-548 | the same split by whether that sample's health is named recovering |
| `Freshness.TimeByHealthState` | luxpower/profile_validation.py:551-564 | all sampled time by the name of the health state: healthy, recovering, and everything else |
| `Freshness.ViolationEpisodeSummary` | luxpower/profile_validation.py:602-678 | the batch episode list and its right-censoring |
| `Freshness.StreamingProfileFreshnessAggregator.constructor` | luxpower/profile_validation.py:135-180 | a new aggregator has seen nothing and holds two empty reservoirs |
| `Freshness.StreamingProfileFreshnessAggregator.CloseActiveEpisode` | luxpower/profile_validation.py:196-210 | counts a closed episode, keeps it or counts it as dropped |
| `Freshness.StreamingProfileFreshnessAggregator.CountInterval` | luxpower/profile_validation.py:219-227 | every interval enters its reservoir and the maximum, and no counter of time or episodes |
| `Freshness.StreamingProfileFreshnessAggregator.IntegrateInterval` | luxpower/profile_validation.py:212-257 | one interval's effect on every counter and on the active episode |
| `Freshness.StreamingProfileFreshnessAggregator.CountSample` | luxpower/profile_validation.py:277-296 | every complete sample enters the age reservoir, the maximum and the count of its worst register |
| `Freshness.StreamingProfileFreshnessAggregator.Append` | luxpower/profile_validation.py:259-299 | one sample's effect on every counter, episode, reservoir and maximum, with the monotonic clock when both samples have it |
| `Freshness.StreamingProfileFreshnessAggregator.LongestDuration` | luxpower/profile_validation.py:463-471 | the reported longest duration counts closed, dropped and unfinished episodes |
| `Freshness.StreamingProfileFreshnessAggregator.SerializedEpisodes` | luxpower/profile_validation.py:314-372 | the reported episodes, counts and the right-censored one |
| `Freshness.StreamTotals` | luxpower/profile_validation.py:212-257 | for regular samples the streaming totals equal the batch integrals |
| `Freshness.StreamEpisodes` | luxpower/profile_validation.py:196-257 | the streaming episodes are the batch scan's, cut at the capacity |
| `EvidenceMeaning.StreamByName` | luxpower/profile_validation.py:212-257 | the streaming totals are the integrals over samples by their raw names, ages and registers |
| `EvidenceMeaning.StreamElapsed` | luxpower/profile_validation.py:212-275 | for any samples the totals add up the time between neighbours, by the monotonic clock where both have it, and never less than nothing |
| `EvidenceMeaning.StreamCounts` | luxpower/profile_validation.py:212-297 | for any samples the violations and the clock regressions are counted exactly |
| `EvidenceMeaning.FallbacksCounted` | luxpower/profile_validation.py:266-271 | the intervals timed by the wall clock are those with a sample that lacks the monotonic one |
| `EvidenceMeaning.IntegralSplits` | luxpower/profile_validation.py:505-522 | an interval counts by the sample that begins it, for the time to the next |
| `EvidenceMeaning.EpisodesAreRuns` | luxpower/profile_validation.py:622-663 | the batch episodes are exactly the maximal runs of stale samples, in order, each with its first time, the time behind its last, and its largest age |
| `SampleSummary.SummarizeProfileSamples` | luxpower/profile_validation.py:71-93 | the batch summary: complete samples, their ages, the largest of them, and how often each register was worst |
| `EvidenceMeaning.CompleteCounted` | luxpower/profile_validation.py:74-84 | complete samples and worst-register counts are those of samples that know every required register and have an age |
| `SampleSummary.StreamedAgrees` | luxpower/profile_validation.py:259-299 | for any samples and random numbers the streaming sample counts, maxima and worst-register counts are the batch summary's, and the reservoirs are fed exactly its ages and the intervals |
| `SampleSummary.ReservoirsHoldBatch` | luxpower/profile_validation.py:96-122 | while exact, the reservoirs hold exactly the batch's ages in order; over the capacity, that many of them |
| `SampleSummary.BatchIntervalsHeld` | luxpower/profile_validation.py:617-623 | for regular samples that fit, the interval reservoir holds exactly the batch's intervals, one by one |
| `Reservoir.BoundedReservoir.constructor` | luxpower/profile_validation.py:99-105 | an empty reservoir of a positive capacity |
| `Reservoir.BoundedReservoir.AddValue` | luxpower/profile_validation.py:107-114 | keeps the value while there is room, and then puts it in a drawn slot or drops it |
| `Reservoir.FullReservoir` | luxpower/profile_validation.py:107-114 | a full reservoir changes exactly the drawn slot, if it has it |
| `Reservoir.ReservoirHolds` | luxpower/profile_validation.py:96-122 | for any draws, the reservoir is a sub-multiset of the values added, as large as fits, and while exact it is all of them in order |
| `EpisodeEvidence.FinishedExactly` | luxpower/profile_validation.py:314-372 | the report is the batch list plus one zero-length episode exactly when only the last sample is stale; the count is the number of maximal stale runs; the censored one is the last |
| `EpisodeEvidence.EpisodesTileStaleTime` | luxpower/profile_validation.py:229-251 | episodes are disjoint, in order, as long as their ends are apart, and sum to the stale seconds |
| `EpisodeEvidence.TimeIsConserved` | luxpower/profile_validation.py:525-564 | stale time splits by health without loss, and the three health totals are the observed span |
| `EpisodeEvidence.LongestExactly` | luxpower/profile_validation.py:463-471 | the reported longest duration is the largest in the batch list, zero when it is empty, even when episodes were dropped |
| `EpisodeEvidence.RecoveryStaleSeconds` | luxpower/profile_validation.py:386-397 | the nested loops sum the overlaps of episodes and recovery ranges, then cap them |
| `EvidenceMeaning.OverlapIsCommonSeconds` | luxpower/profile_validation.py:391-396 | an overlap is the number of seconds that lie in both the episode and the range |
| `EvidenceMeaning.ChargedSeconds` | luxpower/profile_validation.py:388-396 | what is charged before the cap is the sum of those over all episodes and ranges |
| `EpisodeEvidence.DisjointOverlaps` | luxpower/profile_validation.py:391-396 | disjoint ranges cannot cover more of an interval than its length |
| `EpisodeEvidence.CapNeverBites` | luxpower/profile_validation.py:388-397 | for pairwise-disjoint recovery ranges the cap changes nothing |
| `EpisodeEvidence.OverlapNeedsTheCap` | luxpower/profile_validation.py:388-397 | for any two ranges of positive length that overlap there are two regular samples at which the uncapped charge is at least twice the stale time |
| `EpisodeEvidence.CapIdleExactly` | luxpower/profile_validation.py:386-397 | the uncapped charge stays within the stale time for all regular samples, targets and capacities if and only if the ranges, each of positive length, are pairwise disjoint |
| `RecoveryRanges.RangeExactly` | luxpower/profile_validation.py:302-312 | an event's range runs from the request that failed to its recording |
| `RecoveryRanges.RecordedRangesDisjoint` | luxpower/hybrid.py:758-803 | over any whole life on a wall clock that runs forward, the recovery ranges recorded from any point on are pairwise disjoint |
| `RecoveryRanges.RecordedRecoveriesNeedNoCap` | luxpower/profile_validation.py:386-397 | so the recovery time charged for a client's own events never exceeds the stale time |
| `DiagnosticJournal.LuxReadDiagnosticJournal.constructor` | custom_components/lxp_modbus/timeout_diagnostics.py:246-287 | an empty journal |
| `DiagnosticJournal.LuxReadDiagnosticJournal.RecordEvent` | custom_components/lxp_modbus/timeout_diagnostics.py:296-326 | appends the next-numbered event; the bounded log is the newest of the history |
| `DiagnosticJournal.LuxReadDiagnosticJournal.BeginRequest` | custom_components/lxp_modbus/timeout_diagnostics.py:381-418 | opens the next request number under the cursor of its first event, leaves the other open requests alone, and records one event |
| `DiagnosticJournal.LuxReadDiagnosticJournal.FinalizeRequest` | custom_components/lxp_modbus/timeout_diagnostics.py:540-630 | finalises an open request once with its event cursors and closes it alone; for any other it raises and changes nothing |
| `DiagnosticJournal.EventDeltaExact` | luxpower/profile_validation.py:902-920 | the event delta is exactly the retained events after the cursor, complete if and only if none was evicted |
| `DiagnosticJournal.RequestDeltaExact` | luxpower/profile_validation.py:902-919 | the same for requests, provided they were finalised in order up to the cursor |
| `DiagnosticJournal.OutOfOrderLost` | luxpower/profile_validation.py:906-910 | from a journal that is out of order, finalising the older open request next is retained and missing from the delta |
| `DiagnosticJournal.RequestDeltaExactly` | luxpower/profile_validation.py:902-919 | a request delta and its flag are exact after everything that can follow the cursor if and only if no request open there is older than a finalised one |
| `DiagnosticJournal.CompleteWithTheWrongEntry` | luxpower/profile_validation.py:906-919 | a run from the start, begin twice, finalise 2, snapshot, finalise 1: the delta holds request 2, request 1 is what was retained since, and the flag says complete |
| `DiagnosticJournal.LaterOverRuns` | custom_components/lxp_modbus/timeout_diagnostics.py:381-418 | over any run every number is open or finalised exactly once, and entries after a cursor come from requests then open or begun later |
| `DiagnosticJournal.LockKeepsOrder` | custom_components/lxp_modbus/classes/read_session.py:601-620 | one request at a time, as under the request lock, keeps that proviso at every point |
| `DiagnosticJournal.PhaseExact` | luxpower/profile_validation.py:896-920 | two snapshots of one journal whose requests are begun one at a time: both deltas and both flags are exact |
| `DiagnosticJournal.CountedDeltasExact` | luxpower/hybrid.py:1236-1243 | recovery-event and latency deltas are exactly the retained entries recorded since, complete if and only if none was evicted |

## Left out

- The generic `except Exception` path of the explicit read (custom_components/lxp_modbus/classes/read_session.py:754), TCP keepalive and socket closing: plumbing around the modelled regions. When the receive-inactivity and partial-frame timers fire is not modelled; what happens then is `FailReader` and `TimeOutPartialFrame`.
- Lock release is taken as atomic: a free lifecycle lock has no waiters, so a tainted request that finds it free begins the close in the same step. Readers are cancelled only by the session itself.
- The malformed-length and partial-frame parts of `invalid_frames`; only the frames the router rejects are counted. Register counts by telemetry group.
- The sanity table for input registers is empty, and a parsed dictionary is contiguous by construction, so neither check can fail.
- `consumer_waiting` and the wake-up marker of a closed subscription; the legacy default subscription.
- Subscriptions.ObservationHub.Publish: names observations by their sequence numbers; the accepted history says what each number carries.
- `_observed` without provenance requirements, its newest time, and `unavailable_if_stale`: field copies.
- Density mode, unsolicited-avoidance credits, requested and skipped block lists, and the profile age samples of recovery events: they do not influence which reads or reconnects happen.
- Recovery.AfterDial: takes a connection attempt as connected, failed or cancelled; exceptions from keepalive configuration are not modelled.
- `_time_beyond_target_by_recovery_episode`, medians and percentiles taken over the reservoirs, rounding, episode causes, and the timeout episodes of the journal. A reservoir's random draws are arbitrary numbers, so no statement about their distribution is made.
- Error wording of the parser (`error_type`) and its `info` text.
- Clocks are integers rather than floats or datetimes.
- Home Assistant entities, configuration, the operational and full-scan drivers, reports and command lines.
