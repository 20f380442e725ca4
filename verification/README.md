# Verified model of the ESP32 ZBOSS network co-processor

The firmware turns an ESP32-C6 into a Zigbee coordinator that a host drives over a serial line. This Dafny 4.11
project models the parts of it that are state machines over bytes, slots and flash, together with the web page and
the bench script at the other end of the line, and proves what they promise. `dafny verify dfyconfig.toml` checks it.

## How it is laid out

| file | what it models |
|---|---|
| `bytes.dfy`, `collections.dfy` | bytes, 16- and 32-bit little-endian values, concatenation; options and sequences |
| `crc.dfy` | both checksums over bit vectors: tables, bitwise forms, error detection |
| `framing.dfy` | frames in a byte stream as a function of the whole stream; the two parsers; building frames |
| `reassembly.dfy` | the same stream in chunks, with and without eviction |
| `protocol.dfy` | the firmware's link layer: class `Protocol`, acknowledgement, duplicate drop, numbering |
| `numbering.dfy` | the two tasks that send frames, in every interleaving |
| `firmware.dfy` | the link with the real checksums: what damaged frames cause; the start-up frames |
| `host_link.dfy` | the page's class `ZbossSerial` and its promises |
| `end_to_end.dfy` | page and firmware together |
| `delivery.dfy` | exactly-once delivery over lossy channels, as a state machine over its steps |
| `routing_gate.dfy`, `routing_race.dfy`, `gated_frames.dfy` | which interface may inject bytes: class `Transport` of main/transport.cpp; its two reading tasks interleaved; the gate in front of the link |
| `event_pump.dfy`, `pipeline.dfy` | stream buffers, event queue, writers and reader as a state machine; the same together with the link |
| `request_slots.dfy`, `request_runs.dfy`, `watchdog.dfy` | the request table, every interleaving of the two tasks, the watchdog |
| `flash.dfy`, `restore.dfy`, `restore_paths.dfy`, `backup.dfy`, `coordinator.dfy` | NOR flash, chunked restore and backup, the page's loops |
| `structured_backup.dfy`, `structured_restore.dfy`, `binding_table.dfy`, `simple_desc.dfy` | wire codecs and their parsers; what fits back through the link |

Parsing, slots, flash and codecs are each specified by functions on values. The code that the repository writes as
loops and objects is a method or a class whose `ensures` ties the new state to those functions; lemmas then prove what
the source promises about them. Framing and link results are stated for every pair of checksums, so they hold for the
firmware's; `firmware.dfy` and `crc.dfy` add what needs the real ones. What the radio, flash, the heap and time decide is
a parameter (`Luck`, `Turn`, `World`, `Others`). Where tasks share state, the steps of a machine are critical sections and
the code between two points at which another task can run, and results are about every order of these steps; a method is
one call that nothing interrupts.

## What the proofs brought to light

- The watchdog reads the tick counter before it takes the resolver mutex (main/zb_ncp.cpp:526, main/commands_helpers.h:371).
  A request that the ZBOSS task publishes a tick later looks 2^32 - 1 ticks old and is freed at once, its confirm dropped
  (`FreshSlotFreed`, `SampledBeforePublished`). Before its timeout a slot is freed if and only if that happens
  (`NeverTooEarly`); otherwise it is freed after 20 s and before 22 s plus the pump period (`LostConfirmFreed`).
- In rx_qualified_pump only rx_pump is a critical section (main/transport.cpp:150-179). A task that has passed the test of
  m_active when the other interface takes over puts its bytes into that interface's segment, or between the DE and the AD of
  a signature that straddles two reads (`BytesInjected`, `SignatureSplit`). Segments are pure if and only if no task pumps
  after a takeover that came behind its own test or store (`SignedIffInTurn`).
- process_input_int takes its deadline from a wrapping 32-bit tick counter and tests it before the first receive
  (main/transport.cpp:213-217). When the counter wraps within the next 50 ms, or the task loses 50 ms between its two looks
  at it, the event is consumed and its bytes stay in the buffer, though all of them were there. Receives fail exactly then
  (`StepKeeps`, `LateInRealTime`, `WrapStrandsFrame`); later events put the stranded bytes on the wire
  (`StrandedShiftsWire`). The wire still holds whole frames in order, and all of them if and only if no event was refused or
  late (`PumpIsSafe`, `DrainedIsComplete`).
- A drawn sequence number is used up even if the transport refuses the frame. Two frames that follow each other on the wire
  carry the same number if and only if the number of refused frames in between is 2 mod 3, or both are the start-up frames,
  which bypass the counter and both carry 0 (`ConsecutiveNumbers`, `HostSeesNumberedFrames`). Only a buffer without room
  makes the transport refuse: ten of the largest frames, two refusals and one event later it has happened
  (`FullBufferSharesNumber`).
- The timer of an old request clears the slot of its tsn even if a newer request holds it by then. That takes 256 calls
  within the timeout: a run of class ZbossSerial (`OldTimerHidesAnswer`), not of this page, which awaits each call before the
  next (html/zboss_backup.js:548-913). In general an answer reaches its promise if and only if no timer of its tsn has gone
  off since the call (`AnswerFindsItsRequest`), for awaited calls if and only if its own has not (`AwaitedAnswer`). Promises
  settle at most once either way (`PromisesSettleOnce`).
- A structured image can be sent back up to 58 devices, 59 without a key. A larger one does not fit into the firmware's
  receive buffer and never reaches the command, however it is cut into chunks, although the emitter goes up to 64
  (`RestorableDevices`, `LargeImageNeverArrives`, `FiftyNineDevicesNever`).
- The tolerant Simple_Desc reply takes up to 81 bytes, not 80: the comment at main/zb_ncp.cpp:911-912 counts 4 bytes for a
  command header of 5 (main/zb_ncp.h:14-19). The buffer has 128 (`ReplySize`).
- Above 32 clusters the tolerant Simple_Desc parser looks for the output list behind the capped input count. It agrees with
  the formatter for all contents if and only if there are at most 32 clusters, or at most 16 input clusters, or no output
  cluster (`AgreeExactly`).
- `packet_len` 7 is accepted and dispatches an empty payload (main/protocol.cpp:219-245), although the comment there
  speaks of at least one payload byte (`EmptyPayloadIsDispatched`). The model follows the code.
- With a good header and length 6 the firmware waits for an eighth byte before it skips, the page skips at once. They
  still cut the same frames after every prefix (`ParsersAgree`).
- The routing gate forgets that a read ended in DE if that read was the one that took the route (`MatcherMemory`), and
  drops a signature that straddles this read and the next (`StraddlingTakeover`, `StraddlingSignatureMissed`).
- A retransmission after a lost frame is dispatched if and only if consecutive frames carry different numbers; with equal
  ones the host gets an ACK for a frame nobody has seen (`LostFrameNeedsNewNumber`), and no later retransmission brings it
  (`EqualNumberNeverDispatched`).
- A backup served without a snapshot is pieced together from as many instants as it has chunks. It is what flash held at
  the first command if and only if no chunk changed before it was read (`FallbackMayTear`).

## Model

| member | source | states |
|---|---|---|
| Crc.ComputeCrc8 | main/utils.cpp:24-32 | the table loop returns the folded-table CRC of every message, which Crc8IsKoop identifies |
| Crc.ComputeCrc16 | main/utils.cpp:57-65 | the table loop returns the CRC that Crc16IsKermit identifies, for every length |
| Crc.BitwiseCrc16 | test/bind_table_tool.py:78-84 | the bit-by-bit loop computes the reflected 0x8408 CRC |
| Crc.Table8Entry | main/utils.cpp:6-20 | each of the 256 entries is the CRC-8/KOOP byte step with 0xFF folded in |
| Crc.Table16Entry | main/utils.cpp:34-50 | each of the 256 entries is eight steps of the 0x8408 shift register |
| Crc.Crc8IsKoop | main/utils.cpp:19-32 | folded table and init 0 give CRC-8/KOOP with init and xorout 0xFF, for every message |
| Crc.Crc16IsKermit | main/utils.cpp:52-65 | table-driven and bitwise CRC-16 are equal for every message |
| Crc.Step8Injective | main/utils.cpp:28-30 | two registers or two bytes that differ still differ after one step |
| Crc.Step16Injective | main/utils.cpp:61-63 | one step maps different registers to different registers |
| Crc.Crc8CatchesOneByte | main/utils.cpp:24-32 | changing any single byte of any message changes its CRC-8 |
| Crc.Crc16CatchesBurst | main/utils.cpp:57-65 | any change within sixteen consecutive bits of an arbitrarily long message changes its CRC-16 |
| Crc.Crc16CatchesTwoBytes | main/utils.cpp:57-65 | any change of two neighbouring bytes changes the CRC-16 |
| Crc.StartUpChecksums | main/app.cpp:139 | the three checksums written as constants into the start-up frames are right |
| Framing.Start | main/protocol.cpp:22-41 | the first DE that is followed by AD or ends the buffer, and nothing earlier qualifies |
| Framing.Decide | main/protocol.cpp:208-251 | a taken frame lies in the buffer and has 7 or at least 9 bytes |
| Framing.DecideStable | main/protocol.cpp:206-251 | a decision once taken is not revised when more bytes arrive |
| Framing.TrimAppend | main/protocol.cpp:195-204 | garbage before the first plausible signature stays dead whatever follows |
| Framing.ScanResumes | main/protocol.cpp:195-264 | parsing may stop anywhere: going on from the live leftover gives the frames and leftover of the whole stream |
| Framing.ParsersAgree | html/zboss_backup.js:126-166 | after every prefix of every stream page and firmware have cut the same frames at the same offsets; leftovers differ only while a length-6 header waits |
| Framing.FramesOfStream | main/protocol.cpp:195-259 | cut frames are disjoint, in order, header-valid pieces of the stream, and no valid header is passed over |
| Framing.FlagsReadBack | main/protocol.h:9-28 | each field put into the flags byte is read back, and both fragment bits are set |
| Framing.FramesOnWire | main/protocol.cpp:66-138 | the bytes of an ACK, a NACK and a data frame, the flags byte as a number |
| Framing.EmptyFrameIsFrame | main/protocol.cpp:66-79 | an ACK or NACK is a complete frame of length 5 with the given flags |
| Framing.DataFrameIsFrame | main/protocol.cpp:119-138 | a built data frame is complete, passes both checksums and yields its exact payload |
| Framing.Resynchronises | main/protocol.cpp:195-236 | a frame behind any garbage without a valid header is cut at its place; skipping two bytes never jumps over its start |
| Framing.BackToBack | main/protocol.cpp:252-253 | frames sent back to back are cut apart again with nothing left over |
| Framing.PartialTransmission | html/zboss_backup.js:126-166 | of any part of a run of frames exactly the first ones are cut |
| Reassembly.LeftoverIsLiveRest | main/protocol.cpp:256-264 | what a loop leaves in its buffer is the live rest up to a dead garbage prefix, in both parsers |
| Reassembly.ChunkedIsWhole | main/protocol.cpp:180-265 | without eviction of a live byte, any chunking dispatches the frames of the stream and leaves its live rest |
| Reassembly.ChunkInvariance | main/protocol.cpp:180-265 | two ways of cutting one stream give the same frames at the same offsets and the same live leftover |
| Reassembly.FirmwareAndPageAgree | html/zboss_backup.js:102-208 | each fed the stream in chunks of its own, both sides cut the same frames |
| Reassembly.AlwaysSound | main/protocol.cpp:181-194 | with evictions too: the buffer is a suffix of the input, cut frames are disjoint, in order, header-valid and at most 1024 bytes |
| Reassembly.CutsBeforeLeftover | main/protocol.cpp:252-264 | no byte of a cut frame stays in the buffer |
| Reassembly.PendingFrameSurvives | main/protocol.cpp:181-190 | a frame whose rest arrives is dispatched if and only if live bytes and chunk together fit into 1024 bytes |
| Protocol.NextSeq | main/protocol.cpp:43-51 | never returns to 0 |
| Protocol.HandlesKeepsNumbers | main/protocol.cpp:53-139 | handling any frame, with whatever replies, keeps the numbering of sent frames and their validity |
| Protocol.SendsAllExtends | main/protocol.cpp:108-139 | replies add frames behind those already sent and touch nothing else |
| Protocol.AnswerOnWire | main/protocol.cpp:141-178 | what a frame is answered with, byte by byte, read off the bytes of the frame: nothing, a NACK, or an ACK; when its payload is dispatched |
| Protocol.DataOnWire | main/protocol.cpp:108-139 | a payload of 1 to 2039 bytes goes out as these bytes under the current number, others not at all |
| Protocol.FirstFrameIsDispatched | main/protocol.cpp:168-177 | after a boot the first good data frame is dispatched, flagged or not, and acknowledged under number 1 |
| Protocol.RunKeepsNumbers | main/protocol.cpp:43-139 | with the application task alone: in every run since boot the n-th frame sent carries packet_seq 1 + n mod 3 and is a complete, unfragmented frame of at most 2048 bytes |
| Protocol.OnlyGoodPayloads | main/protocol.cpp:180-265 | for any bytes in any chunks, evictions included: what the application gets are the payloads, in order, of cut frames with good header and payload CRC, and no unflagged one is left out |
| Protocol.RunIsChunkInvariant | main/protocol.cpp:141-265 | payloads dispatched and frames answered do not depend on chunking, without eviction of live bytes |
| Protocol.BootIsNumbered | main/protocol.cpp:269-293 | the state after a boot is numbered, with an empty receiver |
| Protocol.Protocol.constructor | main/protocol.cpp:269-293 | starts with an empty buffer, packet_seq 1 and no accepted sequence number |
| Protocol.Protocol.SendAck | main/protocol.cpp:53-106 | sends one empty frame, these bytes, acknowledging or refusing the frame, and advances the number |
| Protocol.Protocol.SendData | main/protocol.cpp:108-139 | sends one frame, these bytes, with the payload, nothing for an empty one; succeeds exactly if the payload is empty, or fits and the transport takes the frame |
| Protocol.Protocol.OnRxPacket | main/protocol.cpp:141-178 | ACKs before dispatch, drops a flagged repeat of the last number, NACKs a foreign type, ignores ACKs |
| Protocol.Protocol.OnFrame | main/protocol.cpp:216-251 | a bad payload CRC is answered with a NACK, otherwise the packet is handled |
| Protocol.Protocol.FindSignature | main/protocol.cpp:29-41 | finds the first plausible signature in part of the buffer, -1 if there is none |
| Protocol.Protocol.MakeRoom | main/protocol.cpp:181-188 | the oldest bytes go, and just as many as the chunk needs |
| Protocol.Protocol.CopyIn | main/protocol.cpp:189-190 | the chunk stands behind what was kept |
| Protocol.Protocol.Inspect | main/protocol.cpp:206-240 | header checks in the source's order agree with the specified decision |
| Protocol.Protocol.Rounds | main/protocol.cpp:195-259 | the loop terminates, handles exactly the frames of the buffer in order and stops where nothing more can be decided |
| Protocol.Protocol.OnRx | main/protocol.cpp:180-265 | new buffer and link state are those of the specified feed of one chunk, for every buffer state and chunk |
| Protocol.Protocol.MoveTail | main/protocol.cpp:260-263 | the unparsed tail becomes the buffer |
| Numbering.NumberedInEveryRun | main/protocol.cpp:43-139 | in every interleaving of application and ZBOSS task the n-th frame drawn carries 1 + n mod 3 and is complete and unfragmented; the transport takes them in that order |
| Numbering.SentInEveryRun | main/protocol.cpp:53-139 | in every interleaving the frames drawn are, byte by byte and in order, the acknowledgements owed and the data handed to send_data, each under the number that is due |
| Numbering.OwedForFrame | main/protocol.cpp:141-178 | what the application task owes for a frame, read off its bytes |
| Numbering.NothingOwedIsLost | main/protocol.cpp:141-178 | in every interleaving what the handled frames make it owe is what it has sent of it and what it still has to send: nothing dropped, doubled or reordered |
| Numbering.ConsecutiveNumbers | main/protocol.cpp:53-139 | two frames taken one after the other share a number if and only if both are start-up frames or 2 mod 3 drawn ones were refused in between |
| Numbering.TwoRefusalsShareNumber | main/protocol.cpp:117-138 | from every state of a run, with a transport free to refuse: two refusals between two frames make them share a number; `Pipeline.FullBufferSharesNumber` has the transport's own refusals |
| Numbering.BootedStarts | main/protocol.cpp:269-293 | these runs start at a boot |
| Numbering.HalvesAreHandles | main/protocol.cpp:141-178 | receiving half and sends of one frame, undisturbed, are what the link does with it |
| Numbering.UndisturbedIsHandles | main/protocol.cpp:141-178 | a run of single steps without the ZBOSS task gives the same link state, whatever the transport refuses |
| Numbering.DeliveredIsUndisturbed | main/protocol.cpp:141-178 | in every interleaving the application gets exactly the payloads it would get alone from the same chunks |
| Firmware.DamagedPayloadIsRefused | main/protocol.cpp:232-245 | two neighbouring bytes damaged in CRC field or payload: cut, NACKed with its number, nothing reaches application or duplicate filter |
| Firmware.DamagedHeaderIsNoHeader | main/protocol.cpp:206-213 | one damaged header byte: no frame is taken at that place, whatever follows |
| Firmware.StartUpFramesAreGood | main/zb_ncp.cpp:544-559 | the two start-up frames are complete, with good checksums, and carry packet_seq 0 |
| HostLink.PromisesSettleOnce | html/zboss_backup.js:171-272 | in every run of calls, frames and timers a promise settles at most once, and an answer carries the tsn and the command of the request it settles |
| HostLink.AnswersCameIn | html/zboss_backup.js:182-206 | every answer of a run is the payload of a frame that arrived in it with a good CRC |
| HostLink.AnswerFindsItsRequest | html/zboss_backup.js:209-226 | from a call to the first frame with its tsn and command, the tsn not used again: answered if and only if no timer of that tsn went off in between |
| HostLink.AnswerUnlessTimedOut | html/zboss_backup.js:209-226 | when no older call with this tsn is open: answered if and only if the request's own timer has not gone off |
| HostLink.AwaitedAnswer | html/zboss_backup.js:241-272 | the same for a caller that has awaited all its calls, as the page does |
| HostLink.OldTimerHidesAnswer | html/zboss_backup.js:268-269 | for a caller that does not await, the run in which the timer of a request 256 calls older clears the slot, and the answer settles nothing |
| HostLink.HandlesKeepsSettling | html/zboss_backup.js:156-208 | any frame keeps that, matching or not |
| HostLink.CommandsKeepsSettling | html/zboss_backup.js:241-272 | a new call keeps that even when its tsn is still in use |
| HostLink.RequestReadBack | html/zboss_backup.js:244-251 | a request is version 0, type 0, command, tsn, payload, byte by byte, and nothing else is |
| HostLink.CommandOnWire | html/zboss_backup.js:241-265 | the bytes a call writes |
| HostLink.AckOnWire | html/zboss_backup.js:231-239 | a frame with data that is no NACK is acknowledged with these bytes, nothing else is; its number is remembered |
| HostLink.WrittenInEveryRun | html/zboss_backup.js:231-265 | in every run each frame the page writes has a good header and both fragment bits |
| HostLink.CountedInEveryRun | html/zboss_backup.js:241-266 | in every run the n-th call gets tsn 1 + n modulo 256 and number n modulo 4 |
| HostLink.ZbossSerial.constructor | html/zboss_backup.js:40-62 | starts with seq 0, tsn 1, empty buffer and no pending request |
| HostLink.ZbossSerial.SendCommand | html/zboss_backup.js:241-272 | one frame with the request, these bytes, one slot under its tsn, counters advanced modulo 4 and 256 |
| HostLink.ZbossSerial.FindStart | html/zboss_backup.js:128-146 | the search plus its trailing-DE case finds the same position as the firmware's |
| HostLink.ZbossSerial.OnFrame | html/zboss_backup.js:168-208 | NACKs are only logged, data is acknowledged before its CRC is checked, a match settles its slot |
| HostLink.ZbossSerial.Inspect | html/zboss_backup.js:148-164 | length, header CRC, completeness in this order agree with the specified decision |
| HostLink.ZbossSerial.ProcessBuffer | html/zboss_backup.js:126-210 | the loop terminates and handles exactly the frames of the buffer in order |
| HostLink.ZbossSerial.OnRead | html/zboss_backup.js:102-210 | buffer and state after one read are those of the specified feed |
| EndToEnd.CommandIsPlain | html/zboss_backup.js:241-265 | sendCommand builds an unflagged frame in whose payload the firmware reads version, type, command, tsn and payload of the call, byte by byte |
| EndToEnd.AskedArrives | main/protocol.cpp:141-265 | in every session of calls, ACKs, answers and timeouts, the page's bytes in whatever chunks: the application gets exactly the requests, each once, in order, each with the command, tsn and payload of its call where they belong |
| EndToEnd.EmptyPayloadIsDispatched | main/protocol.cpp:219-245 | a frame of length field 7 is complete and hands the application an empty payload |
| EndToEnd.ArrivesBehindGarbage | main/protocol.cpp:195-259 | a request behind line noise without a valid header is delivered exactly, and nothing else, in any link state |
| EndToEnd.RoundTrip | html/zboss_backup.js:182-206 | frame by frame, from any states of the two sides, with an application that answers at once with the command and tsn it reads in the request it is handed: the answer settles the promise made for that request |
| EndToEnd.RoundTripInChunks | html/zboss_backup.js:102-210 | the same over the wire, the request in any chunks that fit, ACK and answer back in any chunks at all |
| Delivery.ReceivesIsHandles | main/protocol.cpp:141-178 | the state machine's receive step is what the link does with the frame on the wire, damaged or not, ACK or NACK included |
| Delivery.ExactlyOnce | main/protocol.cpp:141-178 | over lossy FIFO channels dispatched payloads are a prefix of the submitted ones, and all of them once the last ACK is accepted |
| Delivery.ReceiveKeeps | main/protocol.cpp:168-177 | receiving keeps the invariant: flagged copies of the last frame are dropped, the next frame is taken once |
| Delivery.HostReceiveKeeps | main/protocol.cpp:168-173 | a stale ACK is never mistaken for the current one |
| Delivery.RetransmissionSucceeds | main/protocol.cpp:151-177 | whatever was lost, one retransmission that gets through with its ACK is accepted and everything is dispatched |
| Delivery.LostFrameNeedsNewNumber | main/protocol.cpp:168-177 | from every state with an accepted frame, whatever is still under way: a next frame whose first transmission is lost is dispatched if and only if its number differs from the last one, and acknowledged either way |
| Delivery.EqualNumberNeverDispatched | main/protocol.cpp:168-177 | with an equal number and a lost or damaged first transmission: in every run until the host submits again, its acceptance included, the message is never dispatched |
| RoutingGate.FirstSignature | main/transport.cpp:158-168 | the first DE AD, and none earlier |
| RoutingGate.Transport.FindSignature | main/transport.cpp:158-164 | the search loop finds it, -1 if there is none |
| RoutingGate.Transport.Search | main/transport.cpp:156-169 | search and spanning case find the first signature of the chunk with the swallowed DE put back |
| RoutingGate.Transport.RxQualifiedPump | main/transport.cpp:138-180 | one read changes route, matcher and pumped bytes as specified |
| RoutingGate.Transport.TakeRoute | main/transport.cpp:171-179 | a takeover pumps the chunk from its signature on, a swallowed DE first |
| RoutingGate.PumpedIsQualified | main/transport.cpp:138-180 | with one interface talking, exactly its stream from the first DE AD on is pumped, for every chunking |
| RoutingGate.SegmentsAreSigned | main/transport.cpp:138-180 | with two whose calls do not overlap, everything pumped after a takeover starts with DE AD and is one piece of that interface's stream |
| RoutingGate.MatcherMemory | main/transport.cpp:150-172 | the matcher remembers a final DE if and only if that read was not the takeover |
| RoutingGate.StraddlingTakeover | main/transport.cpp:156-173 | an AD behind a stream that ended in DE takes the route across the two reads if and only if the last read was no takeover |
| RoutingGate.StraddlingSignatureMissed | main/transport.cpp:171-173 | a run in which a straddling signature is dropped for that reason |
| RoutingRace.PureIffInTurn | main/transport.cpp:138-180 | in every interleaving: between two takeovers only the interface that took over is pumped if and only if no task pumps after a takeover behind its own test or store |
| RoutingRace.SignedIffInTurn | main/transport.cpp:138-180 | and then, once both tasks wait again, every segment starts with DE AD and is one piece of its interface's stream |
| RoutingRace.CallIsReads | main/transport.cpp:138-180 | a call that nothing comes between does what the routing gate specifies |
| RoutingRace.BytesInjected | main/transport.cpp:150-154 | from every state with an active interface, the run in which its bytes land in the segment of the other |
| RoutingRace.SignatureSplit | main/transport.cpp:173-177 | the run in which they come between a swallowed DE and its AD; the segment is signed only if they start with AD |
| GatedFrames.GateKeepsFrames | main/transport.cpp:156-179 | dropping the bytes before the first DE AD loses no frame: both parsers cut the same frames at the same offsets |
| GatedFrames.PumpedFrames | main/transport.cpp:138-180 | with one interface talking, in any reads, the pumped bytes have exactly the frames of what it received |
| GatedFrames.LinkSeesStream | main/transport.cpp:138-180 | in any reads and any chunks that evict no live byte, the link does what it does with the frames of all the bytes received |
| EventPump.CommitKeeps | main/transport.cpp:118-125 | a commit announces or owes exactly the bytes it took |
| EventPump.TakeKeeps | main/transport.cpp:206-231 | the buffer always holds the bytes of the event at the head of the queue |
| EventPump.LateInRealTime | main/transport.cpp:214-217 | the wrapping comparison in real time: late exactly when the deadline has passed, and exactly when it has not if the counter wraps between deadline and receive |
| EventPump.StepKeeps | main/transport.cpp:206-231 | every step keeps the accounting, and fails if and only if it processes an event towards the host whose deadline is missed |
| EventPump.PumpIsSafe | main/app.cpp:52-79 | in every interleaving, events lost or late: the failures are exactly the events that miss their deadline, so no short send, no oversize event and no other short receive; the wire is a prefix of the frames that were given room, in order; on_rx gets chunks it accepts, together a prefix of the bytes of the reads that found room |
| EventPump.DrainedIsComplete | main/app.cpp:38-49 | once drained, the wire has all committed frames if and only if no event towards the host was refused by the queue or missed its deadline; their bytes are what is missing |
| EventPump.RunCommits | main/transport.cpp:112-121 | over the steps of any run: what goes into the buffer from the host are the bytes of its reads that find room, in order; towards the host the frames that get room, in order |
| EventPump.HostBytesArrive | main/transport.cpp:112-134 | once drained, on_rx has been handed all bytes of the host's reads if and only if each found room for all of its bytes and no event for them was refused |
| EventPump.WrapStrandsFrame | main/transport.cpp:213-231 | with any timeout, the run from boot in which the counter is one tick before its wrap: everything drained, one frame committed, nothing on the wire |
| EventPump.StrandedShiftsWire | main/transport.cpp:206-231 | from then on the next event in time takes the bytes left behind first |
| EventPump.HostSeesCommittedFrames | main/transport.cpp:206-276 | the host cuts the first of the committed frames, whole and in order, even when events were posted out of order |
| EventPump.Transport.RxPump | main/transport.cpp:95-136 | taken bytes are a prefix of the read, each announced once or orphaned; a rest is dropped only when the buffer was full |
| EventPump.Transport.ProcessInput | main/transport.cpp:206-231 | the bytes of an event reach the wire together or not at all, however receives split them; with all of them ready it succeeds if and only if the first look at the clock is not late, and then a failed call takes nothing; a call that fails later has taken a part |
| Pipeline.HostSeesNumberedFrames | main/protocol.cpp:53-139 | link, buffers and queue together, every interleaving, late and lost events included: the wire is cut into the first frames the transport took, whole and in order, and two in a row share a number exactly as ConsecutiveNumbers says |
| Pipeline.FullBufferSharesNumber | main/transport.cpp:248-268 | the run from the start in which the buffer fills up, two frames are refused for lack of room and two that follow each other share a number |
| Pipeline.BootStarts | main/protocol.cpp:269-293 | these runs start at a boot |
| Pipeline.StartUpFramesAreGreetings | main/zb_ncp.cpp:544-559 | the two start-up frames are the unnumbered frames of these runs |
| Pipeline.AppGetsPumpedBytes | main/app.cpp:52-79 | the application gets the payloads the link alone makes of the chunks the pump takes; these are a prefix of the bytes of the host's reads that found room, and once drained all bytes of its reads if and only if each found room and no event was refused |
| Pipeline.Projects | main/app.cpp:52-79 | every run of the whole is a run of the link and a run of the pump that agree on chunks, committed frames and the bytes read from the host |
| RequestSlots.FreeFrom | main/commands_helpers.h:275-281 | the first free slot |
| RequestSlots.OldestOf | main/commands_helpers.h:282-294 | the executing slot with the smallest allocation number |
| RequestSlots.ChoiceIsOldest | main/commands_helpers.h:267-313 | refused only when all slots are in allocation; overridden only when none is free, and then the oldest |
| RequestSlots.Resolver.StartResolve | main/commands_helpers.h:267-313 | claims the specified slot under the next number, changes nothing else |
| RequestSlots.Resolver.ResolveTake | main/commands_helpers.h:331-341 | frees and returns the first executing slot with the tsn, or changes nothing |
| RequestSlots.Resolver.ResolveTakeAt | main/commands_helpers.h:349-361 | frees the slot only while it executes under the same allocation |
| RequestSlots.Resolver.ReclaimStale | main/commands_helpers.h:369-381 | frees exactly the slots past the timeout and returns their commands up to the capacity |
| RequestSlots.PublishedIsTaken | main/commands_helpers.h:518-542 | a published slot is found by its own allocation, by its tsn unless an earlier slot executes under it, and is stale from the timeout on; a failed send frees it for the next request |
| RequestRuns.EveryRequestAccounted | main/commands_impl.h:2044-2188 | in every interleaving each accepted request is pending or has exactly one outcome; numbers are distinct and below the counter; every slot in allocation has one owner |
| RequestRuns.ConfirmEndsItsOwn | main/commands_impl.h:1955-1993 | a confirm ends a request if and only if none was taken since the buffer was last sent and that request still waits, and it ends that one; otherwise nothing changes |
| RequestRuns.ConfirmFindsItsRequest | main/commands_impl.h:2069-2117 | from a send to its confirm, through any run that leaves the buffer alone: the confirm ends the sent request if and only if it still waits |
| RequestRuns.ResponseEndsItsOwn | main/commands_helpers.h:331-341 | a response ends the request of the first slot that waits under its tsn, answered exactly if it succeeds, and no other request stops pending; with no such slot nothing changes |
| RequestRuns.ResponseFindsItsRequest | main/commands_helpers.h:471-502 | from the publication of a request under a tsn, through any run: a response with this tsn ends that request if and only if it still waits and no earlier slot waits under the same tsn |
| RequestRuns.FailureEndsItsOwn | main/commands_helpers.h:518-530 | a job that cannot be queued or a send that fails ends its own request as failed, and no other |
| RequestRuns.SweepEndsStale | main/commands_helpers.h:369-381 | a sweep ends exactly the requests that have waited for the timeout, as reclaimed |
| RequestRuns.OtherStepsEndNothing | main/commands_impl.h:2069-2117 | queueing, sending and publishing end no request |
| RequestRuns.AllocationIsPrivate | main/commands_helpers.h:299-310 | a slot in allocation changes only in its own request's steps |
| RequestRuns.OverrideIsOldest | main/commands_helpers.h:282-298 | an override hits the request accepted first, and only when no slot is free |
| RequestRuns.FreedIsNotPending | main/commands_helpers.h:349-361 | freeing a slot ends its request and no other |
| RequestRuns.StartKeeps | main/commands_impl.h:2168-2188 | accepting a request keeps the accounting, whether refused, placed or overriding |
| RequestRuns.SendDoneKeeps | main/commands_impl.h:2044-2109 | sending keeps it and records the allocation of the buffer |
| RequestRuns.ConfirmKeeps | main/commands_impl.h:1969-1990 | a confirm keeps it |
| RequestRuns.ResponseKeeps | main/commands_helpers.h:471-502 | a response keeps it; which request it ends says ResponseEndsItsOwn |
| RequestRuns.SweepKeeps | main/zb_ncp.cpp:521-542 | the watchdog's sweep keeps it, whatever was published since it read the tick counter and whatever it frees at once |
| RequestRuns.SampledBeforePublished | main/commands_impl.h:2114-2116 | a request published between the watchdog's reading of the tick counter and its sweep is reclaimed if and only if a tick went by, and its confirm then ends nothing |
| Watchdog.ElapsedIsReal | main/commands_helpers.h:375-376 | wrapped 32-bit subtraction is the real distance of instants less than 2^32 ticks apart |
| Watchdog.ElapsedOfFuture | main/commands_helpers.h:375-376 | of an instant in the future it is the distance to the next wrap-around |
| Watchdog.RequestWatchdog.Sampling | main/zb_ncp.cpp:525-528 | the rate limit, and the tick count a call works with |
| Watchdog.RequestWatchdog.Sweeping | main/zb_ncp.cpp:529-532 | the sweep of the table as it is by then |
| Watchdog.RequestWatchdog.OnTick | main/zb_ncp.cpp:521-542 | both, when nothing comes in between |
| Watchdog.SweepFrees | main/commands_helpers.h:369-381 | a sweep frees a slot if and only if the slot is past its timeout or was published after the tick counter was read |
| Watchdog.FreshSlotFreed | main/zb_ncp.cpp:525-532 | whenever a call is due, the run in which it frees a slot published one tick after it read the counter |
| Watchdog.NeverTooEarly | main/zb_ncp.cpp:521-532 | in every run before the timeout a slot is freed if and only if a call that had read the counter before the slot was published sweeps after that |
| Watchdog.FreedInTime | main/zb_ncp.cpp:521-542 | a slot whose confirm is lost is freed by that call, or by one that begins no earlier than the timeout and sooner than timeout + rate limit + pump period |
| Watchdog.LostConfirmFreed | main/zb_ncp.cpp:519-532 | with the firmware's constants, at any tick rate and pump period d: by that call, or by one that begins after 20 s and before 22 s + d |
| Flash.WriteFills | main/commands_impl.h:2616-2627 | writing behind what is there since the erase stores the bytes and programs each once |
| Flash.WriteOnce | main/commands_impl.h:2616-2637 | a write that fails half-way programs nothing twice |
| Restore.CheckImage | main/commands_impl.h:2500-2506 | the loop accepts exactly the images that GateOnBytes describes |
| Restore.GateOnBytes | main/commands_impl.h:2480-2506 | an image passes if and only if some whole 0x2000-byte page has 40 00 1e 00 at 4 and at 0x40 a sequence number other than ffffffff, a length from 1 to 0x2000 and a type below 64 |
| Restore.UniformImageRefused | main/commands_impl.h:2478-2506 | all-FF and all-00 images are refused |
| Restore.RefusedFirst | main/commands_impl.h:2522-2603 | which commands are refused before anything is stored, with which status, and that flash is then untouched: short, no partition, wrong size, outside the image, no session, not the offset that is due |
| Restore.FailedCommitBlanks | main/commands_impl.h:2661-2691 | a commit succeeds exactly if both erases and both writes do; otherwise it reboots and zb_storage is blank if its last erase succeeds |
| Restore.CommandIsGood | main/commands_impl.h:2515-2696 | whatever the host sends and however heap and flash behave, one command keeps the device safe |
| Restore.RestoreSafety | main/commands_impl.h:2260-2304 | over all runs: flash untouched while the latch is clear; a set latch means a session or a pending reboot; a RAM image only in a session; every byte programmed at most once per erase; a refusal after an erase reboots |
| RestorePaths.InputReadBack | html/zboss_backup.js:907-910 | offset, size and chunk written by the page are read by the firmware |
| RestorePaths.StreamedRestore | main/commands_impl.h:2575-2637 | erase-then-stream leaves the concatenated chunks in flash, each byte programmed once |
| RestorePaths.BufferedRestore | main/commands_impl.h:2569-2692 | buffer-then-commit leaves them too if the gate passes; otherwise flash is as before and no reboot is caused |
| RestorePaths.TwoPathsOneResult | main/commands_impl.h:2549-2693 | both paths end with identical flash for any two chunkings of the image |
| RestorePaths.ImageWithRecordIsRestored | main/commands_impl.h:2488-2506 | an image with one such record in one page, whatever else is in it, is restored, in any chunks |
| RestorePaths.RestoredIsWhatWasSent | main/commands_impl.h:2549-2693 | for any host, any commands, any failures: a restore that ends with success has put exactly the data of the commands since the last one at offset 0 into flash, in order, on either path |
| RestorePaths.PushesIsRun | html/zboss_backup.js:899-918 | what the loop sends, each command with failures of its own, is a run of the restore machine |
| RestorePaths.FailedRestoreIsSafe | main/commands_impl.h:2299-2304 | a restore that fails at any chunk leaves no session, no image, and the old flash or a pending reboot |
| Backup.DirectRead | main/commands_impl.h:2424-2436 | reads split at the partition boundary give the bytes of the concatenated image |
| Backup.ServesReply | main/commands_impl.h:2309-2456 | when a command succeeds and what status, sizes and bytes it serves |
| Backup.OffsetOfInput | main/commands_impl.h:2309-2316 | the offset is the first four bytes of the request, a shorter one asks for offset 0 |
| Backup.DoBackup | html/zboss_backup.js:763-786 | the do-while loop terminates and assembles what the specified pulls give |
| Backup.BackupIsSnapshot | main/commands_impl.h:2335-2398 | on a joined coordinator, with heap or a buffer of the right size and snapshot reads that succeed: the assembled image is flash at the first command, even if flash changes later |
| Backup.FallbackMayTear | main/commands_impl.h:2421-2436 | without snapshot that holds if and only if no chunk changed before it was read |
| Backup.PoisonRefused | main/commands_impl.h:2341-2368 | a coordinator that is not on a network is not backed up |
| Backup.BackupThenRestore | html/zboss_backup.js:886-918 | backing up and restoring is the identity on either path, unless the gate refuses, which leaves flash as it was |
| Coordinators.Coordinator.constructor | main/commands_impl.h:2227-2276 | the statics start without session, image, latch and snapshot |
| Coordinators.Coordinator.RestoreFail | main/commands_impl.h:2299-2304 | frees the image, closes the session, reboots only after flash was touched |
| Coordinators.Coordinator.OpenSession | main/commands_impl.h:2555-2595 | buffers, or latches and erases both partitions |
| Coordinators.Coordinator.StoreChunk | main/commands_impl.h:2608-2638 | stores in RAM or splits the write at the boundary |
| Coordinators.Coordinator.CommitImage | main/commands_impl.h:2661-2691 | erases and writes both halves; any failure blanks zb_storage |
| Coordinators.Coordinator.RestoreNetwork | main/commands_impl.h:2515-2696 | the command changes state and flash as the specified session machine |
| Coordinators.Coordinator.GetNetworkBackup | main/commands_impl.h:2309-2456 | the command serves as specified |
| Coordinators.Coordinator.DoRestore | html/zboss_backup.js:899-918 | the loop pushes the image in 128-byte chunks, each command meeting its own failures, and stops at the first refusal |
| StructuredBackup.RecordsOfEncoded | main/commands_impl.h:2749-2754 | encoded records are read back by both parsers |
| StructuredBackup.PageSeesAtMostOneMore | html/zboss_backup.js:326-330 | on arbitrary bytes the page sees the firmware's records and at most one shortened one more |
| StructuredBackup.ReplayIsLastWins | main/zb_ncp.cpp:95-182 | replay is, field by field, the last record with the right tag, length and range |
| StructuredBackup.LastIsLast | main/zb_ncp.cpp:103-180 | that record is acceptable and no later one is |
| StructuredBackup.ApplyPendingRestore | main/zb_ncp.cpp:60-187 | the pointer loop stays in bounds, terminates and replays the well-formed prefix of an accepted image |
| StructuredBackup.EmitImage | main/commands_impl.h:2732-2829 | the method builds the image of the identity and the first 64 neighbours |
| StructuredBackup.ImageIsAccepted | main/backup_structured.h:73-74 | that image is accepted, its payload_len exact, its records the identity and the devices |
| StructuredBackup.ImageOnBytes | main/commands_impl.h:2738-2823 | the emitted image byte by byte: header, every record with its tag and length, the table of at most 64 devices |
| StructuredBackup.DevicesOnBytes | main/commands_impl.h:2805-2815 | every field of every device stands in its place in the table |
| StructuredBackup.HeaderGuards | main/backup_structured.h:32-45 | an accepted image with another magic or version is refused; cut short it is accepted exactly if what its header announces is left |
| StructuredBackup.RecordsSize | main/backup_structured.h:55-74 | its size, never above MAX_IMAGE_SIZE |
| StructuredBackup.EmitDevices | main/commands_impl.h:2803-2819 | the table holds the first 64 neighbours |
| StructuredBackup.FirmwareRoundTrip | main/zb_ncp.cpp:93-182 | every field emitted is replayed, a channel only from 11 to 26 |
| StructuredBackup.ParseStructuredTlvs | html/zboss_backup.js:313-354 | the page's parser on arbitrary bytes gives the specified fold over its records, or throws |
| StructuredBackup.PageRoundTrip | html/zboss_backup.js:324-354 | every field and the first 64 devices come back |
| StructuredBackup.PageSeesImage | html/zboss_backup.js:313-322 | the page accepts an emitted image and reads the same records |
| StructuredBackup.ShortValues | html/zboss_backup.js:333-341 | what the page makes of a PAN ID, a channel or a frame counter that is too short |
| StructuredBackup.AnnouncedIsCut | html/zboss_backup.js:321-322 | the page reads as many bytes as the header announces, or as many as there are |
| StructuredRestore.RestorableDevices | main/commands_impl.h:2849-2871 | some chunking of the frame brings the request with the image to the application if and only if it lists at most 58 devices, 59 without key |
| StructuredRestore.SmallImageArrives | main/commands_impl.h:2849-2871 | up to that bound every lossless chunking brings exactly the request |
| StructuredRestore.LargeImageNeverArrives | main/protocol.cpp:180-265 | above it no bytes in any chunks, from any buffer, bring it, whatever came before, and no frame that long is ever cut |
| StructuredRestore.LongPayloadNever | main/protocol.h:35 | a payload that does not fit into the receive buffer with its header never reaches the application |
| StructuredRestore.FiftyNineDevicesNever | main/commands_impl.h:2803-2819 | an identity and table whose image the firmware emits and accepts but can never be handed |
| BindingTable.FormatResponse | main/commands_impl.h:1688-1727 | the body holds the first 64 records, the count says so, the size is bounded |
| BindingTable.RecordOnBytes | main/commands_impl.h:1708-1720 | a record byte by byte, for each address mode |
| BindingTable.ParseRecords | test/bind_table_tool.py:187-207 | the loop on arbitrary bytes gives the specified records or raises |
| BindingTable.ParseEncoded | test/bind_table_tool.py:195-206 | one record of any address mode is read back wherever it stands |
| BindingTable.RoundTrip | test/bind_table_tool.py:187-207 | for any mix of address modes all records and their number come back, of more than 64 the first 64 |
| SimpleDesc.Capped | main/commands_impl.h:1037-1042 | the cap loop terminates with at most 32 clusters |
| SimpleDesc.CapKeepsInputs | main/zb_ncp.cpp:957-960 | when the cap leaves the input list whole or the output list empty |
| SimpleDesc.CapInNumbers | main/commands_impl.h:1037-1042 | what the cap loop leaves, in numbers |
| SimpleDesc.FormatResponse | main/commands_impl.h:1028-1058 | both loops over the joint list give the capped input and output clusters |
| SimpleDesc.FormatOnBytes | main/commands_impl.h:1028-1058 | the response byte by byte: status, endpoint, profile, device, version, counts, both lists, network address |
| SimpleDesc.Reply | main/zb_ncp.cpp:899-984 | with its command header the reply never needs more than 81 of the 128 bytes |
| SimpleDesc.ReplyOnBytes | main/zb_ncp.cpp:916-981 | every reply byte by byte from the bytes of the frame; behind another status than 0, or a body too short for the counts, nothing but status and network address |
| SimpleDesc.BodyOnBytes | main/zb_ncp.cpp:923-933 | the complete body in the byte order of a Simple_Desc_rsp |
| SimpleDesc.ReplySize | main/zb_ncp.cpp:904-913 | for a complete body it has 17 bytes and two for each of at most 32 clusters, 81 from 32 on |
| SimpleDesc.TryIntercept | main/zb_ncp.cpp:899-984 | the method indexes only inside the frame and builds the specified reply for every frame |
| SimpleDesc.TrailingBytesIgnored | main/zb_ncp.cpp:899-906 | bytes behind the declared length change nothing |
| SimpleDesc.RepliesAgree | main/zb_ncp.cpp:874-990 | for a complete body, with any trailing bytes, the reply is the one format_response builds |
| SimpleDesc.AgreeExactly | main/zb_ncp.cpp:962-979 | for all contents they agree if and only if at most 32 clusters, or at most 16 inputs, or no output |

## Left out

- ZBOSS itself, the radio, NVRAM page format and tail checksums: a closed library. Its callbacks are steps the environment may take at any time; its own writes to zb_storage between two commands are not part of the restore machine, and are the changing `World` of the backup loop.
- USB and UART drivers, write_int and its timing, GPIO and antenna setup, logging: hardware. The bytes handed to write_int are the wire.
- EVENT_RESET and the reboot itself: runs of the pump and of the restore machine end there.
- RoutingGate.SegmentsAreSigned: takes each call of rx_qualified_pump as one step; `RoutingRace.SignedIffInTurn` says what holds when calls overlap.
- The host of the exactly-once proof is the stop-and-wait host the protocol describes, not the web page, which never retransmits. Its time-out is the freedom to resend at any moment.
- Damage on the wire that the checksums cannot see: the delivery proof assumes detected damage, `DamagedPayloadIsRefused` and `DamagedHeaderIsNoHeader` say what is always detected.
- Protocol.RunKeepsNumbers: the application answers inside on_rx_data as a function of what it has received and nobody else sends; `Numbering.NumberedInEveryRun` drops both assumptions.
- EndToEnd.RoundTrip: the answer is given inside on_rx_data; for an answer that comes at any later moment `HostLink.AnswerFindsItsRequest` says when the page takes it.
- Locks are modelled by the atomicity of the steps they protect; mutex priority and deadlock are not.
- The allocation counter wraps at 2^32: the run theorems count fewer starts than that, as a longer run could repeat a number.
- The page's disconnect() (html/zboss_backup.js:79-100), which rejects every pending promise and ends the session: the runs of the page end there.
- SendCommand: the page's write lock, the text of its errors and the number formatting of its results are not modelled; JSON and base64 shaping of the backup file neither.
- Thin getters and setters, one-branch ZDO handlers, boot guard, pending-erase flag and single_cmd_delayed: they would only add easy members.
- nvs_open, nvs_set_blob and the erase of RESTORE_STRUCTURED_BACKUP: storage calls around the header test that `Accepted` models.
- The web page's user interface, port handling, release scripts and the other bench scripts.
