# A Dafny model of the WebSocket client

The client moves bytes between a socket and its user through two lock-free rings. This project models
the parts whose correctness is not visible from one function at a time, and proves what they guarantee
for every input, every interleaving and every series of calls.

| file | what it models |
|---|---|
| `Bytes.dfy` | bytes, concatenation, remainders |
| `RingBuffer.dfy` | the ring as a class over an array, its batch forms and zero-copy views |
| `Spsc.dfy`, `SpscBatch.dfy` | the ring under one producer and one consumer, at the grain of single memory accesses |
| `Frames.dfy` | the frame parser and the frame headers, after sections 5.2 and 5.3 of RFC 6455 |
| `Receive.dfy`, `Receiver.dfy` | the receive path: as functions of the stream, and in place on the ring |
| `Peer.dfy` | the peer, written from RFC 6455 alone: any frame it may send, what it may expect in return, and how it reads this client |
| `Regions.dfy` | ring regions, passes and drains, and which series of reads a ring takes: what the receive path in place rests on |
| `Transmit.dfy`, `Transmitter.dfy` | the transmit path: as functions of the stream, and in place on the ring |
| `Registry.dfy` | the socket registry and its kqueue registrations |
| `Latency.dfy` | the rolling latency window, bubble sort and percentiles |
| `Heartbeat.dfy` | pings, pongs and timeouts over a clock |
| `Backoff.dfy` | reconnection delays |
| `Lifecycle.dfy` | the connection states over runs of process, send and close |
| `Session.dfy` | one connection as a value: what process (with TLS or without), send, close and a new heartbeat setting do to it |
| `SessionRuns.dfy`, `SessionSends.dfy`, `SessionStreams.dfy` | every series of such requests: its life cycle, what it sends, what it delivers |
| `SessionPeers.dfy`, `SessionLogs.dfy` | the connection as the peer knows it, and that log and heartbeat record what happened |
| `Client.dfy` | the client as an object: receiver, transmitter and heartbeat under one connection state, doing what the session says |
| `JsonField.dfy` | the block-wise field search against its scalar twin |
| `NicClock.dfy` | the conversion of packet times to clock ticks |

Conventions. A byte is a `bv8`. Lengths are natural numbers; where the C code relies on a fixed width, the
wrap-around is written out (64-bit frame sizes, unsigned time differences, the 32-bit attempt counter, tick
products). Code that updates objects is a class whose methods are specified by a function of the
old state; the laws are then proved about those functions. Whatever the operating system decides (how
many bytes a socket takes or brings, which events are reported, the time, random masking keys, whether a
system call succeeds) is a parameter.

## Where the code and the expected property part

The lemmas named here say where the property fails and exactly when it holds.

- For a stream without overflowing lengths, deliveries do not depend on how it is cut into reads, except for messages
  behind a close frame: they are delivered when they arrive in the same read as the close and ignored otherwise
  (`Receive.ChunkingIndependence`, `Receive.CloseThenMessage`). No stream of this client's own frames has an overflowing length
  (`Transmit.WireHasNoOverflow`), and none from a peer that leaves the top bit of 64-bit lengths clear, as section
  5.2 of RFC 6455 demands (`Receive.TopBitsClearIsEnough`).
- A frame accepted by the parser lies inside the input exactly if its header does not declare a 64-bit length within
  10 or 14 of 2^64 (`Frames.ParsedFitsIffNoOverflow`, `Frames.OverflowingFrame`, `Frames.TopBitClear`).
- A zero-copy commit that fills the ring to the last byte makes it look empty (`RingBuffers.CommitFill`), and one made after
  the write index has wrapped leaves unread bytes that no single pointer covers (`RingBuffers.CommitLinearIff`). A series of reads avoids both,
  however often the ring wraps, exactly if each keeps to the offer, none fills the ring, and none brings bytes while
  the write index has wrapped to 0 and bytes before the end are unread (`Regions.FitsIff`).
- A lone byte behind the frames is counted as a parse error by every pass that reaches it. The drain of a read event counts
  it twice, or once if the frames before it fill all its passes (`Regions.DrainErrorsExactly`); the closing pass of the
  same call counts it again if the connection is still open (`SessionStreams.CallErrorsExactly`), and so does every idle
  call after that (`SessionStreams.LoneByteRecounted`).
- A sending call that does not fit leaves the front of its frame in the queue (`Transmit.OversizedFrameLeavesPart`,
  `Transmit.TransmitConservation`). The client flushes only after a successful call, so a full ring is never flushed
  again (`Transmit.FullIsFinal`).
- A heartbeat timeout can only ever fire if it is zero or below the ping interval (`Heartbeats.CanTimeOutIff`).
- The block-wise search overlooks a match that ends the text behind the last whole block
  (`JsonFields.ExtractorsAgreeIff`, `JsonFields.OverlookedExample`).
- The slot number returned when a socket is added stays right only for sockets that are not in the last slot when
  another is removed (`Registries.SlotNumberStays`).
- A descriptor that is registered already is registered a second time, and that ends the agreement of slots and kernel
  queue; an add keeps it exactly if it is refused or the descriptor is new (`Registries.AddKeepsIff`).
- Between calls CLOSED is final (`Lifecycles.ClosedIsFinal`). Inside one call it is not: a TLS break sets CLOSED, and
  a close frame still buffered then sets CLOSING (`Lifecycles.ClosedThenClosing`). After any run that has set CLOSED, the
  state a caller sees is CLOSED exactly if no call broke in this way, or a close call came after it
  (`Lifecycles.ClosedSeenIff`).
- The announced delay ever is the cap exactly if it is the cap at the highest attempt number that the retry limit or the
  32-bit counter allows (`Backoffs.CapReachedIff`). A multiplier above one is enough when that number is large against
  the cap (`Backoffs.CapReachedByGrowth`), but not in general (`Backoffs.CapNeverReached`,
  `Backoffs.RetryLimitStopsGrowth`). The delay before the first attempt is not capped (`Backoffs.FirstDelay`).

## Model

| member | source | states |
|---|---|---|
| RingBuffers.Space | src/ringbuffer.c:148-166 | free space and queued bytes always add up to the ring size less one |
| RingBuffers.RingBuffer.Write | src/ringbuffer.c:64-105 | appends to the byte queue exactly the longest prefix that fits, across the wrap |
| RingBuffers.RingBuffer.Read | src/ringbuffer.c:107-146 | removes and returns exactly the first min(len, queued) bytes |
| RingBuffers.RingBuffer.Writeable | src/ringbuffer.c:148-166 | reports the ring size less one less what is queued |
| RingBuffers.RingBuffer.Readable | src/ringbuffer.c:168-182 | reports the number of queued bytes |
| RingBuffers.RingBuffer.Reset | src/ringbuffer.c:184-190 | empties the queue |
| RingBuffers.RingBuffer.BatchWrite | src/ringbuffer.c:193-245 | appends the first min(total, room) bytes of all chunks, as the series of single writes would |
| RingBuffers.RingBuffer.BatchRead | src/ringbuffer.c:248-298 | fills the destinations with what the series of single reads would return |
| RingBuffers.PushAllIsOnePush | src/ringbuffer.c:193-245 | a series of bounded appends is one bounded append of the concatenation |
| RingBuffers.PiecesAreSlices | src/ringbuffer.c:248-298 | a series of reads returns consecutive slices of the queue, cut at the running totals |
| RingBuffers.StoredAppends | src/ringbuffer.c:89-102 | bytes laid out from the write index, split at the end of the array, extend the queue and disturb none of it |
| RingBuffers.ReadView | src/ringbuffer.h:61-72 | the offered length is the number of queued bytes; it stays in the array iff the write index is not behind the read index or is 0 |
| RingBuffers.WriteView | src/ringbuffer.h:74-88 | the offered region stays in the array but can include the reserved byte |
| RingBuffers.Committed | src/io_kqueue.c:297-308 | the two-case index update is addition modulo the ring size |
| RingBuffers.CommitFill | src/io_kqueue.c:297-308 | after committing n offered bytes the fill is (old + n) mod size: exact iff old + n < size, else zero |
| RingBuffers.CommitLinearIff | src/ringbuffer.h:61-88 | the bytes unread after a commit are one linear region iff the write index had not wrapped |
| RingBuffers.RingBuffer.Commit | src/io_kqueue.c:194-201 | received bytes are appended to the queue if they leave a byte free, and otherwise everything queued is lost |
| RingBuffers.RingBuffer.AdvanceRead | src/websocket.c:573-579 | drops the first n bytes; the read index is unchanged iff n is zero |
| Spsc.StepKeeps | src/ringbuffer.c:64-146 | every single load, byte copy and store of either side keeps the protocol invariant, stale snapshots included |
| Spsc.StepIsQueueStep | src/ringbuffer.c:64-146 | every step is a step of an atomic bounded queue; only the two index stores change it |
| Spsc.NoUnreadByteOverwritten | src/ringbuffer.c:87-98 | no byte store of the producer hits the slot of an unread byte |
| Spsc.NoDataRace | src/ringbuffer.c:87-139 | when both sides are about to copy a byte, the slots differ |
| Spsc.EveryInterleavingIsFifo | src/ringbuffer.c:64-146 | in every interleaving, batch calls included, bytes read are a prefix of bytes written and the rest is the ring's content |
| Spsc.UninterruptedRead | src/ringbuffer.c:107-146 | an uninterrupted read call is a run of the protocol and returns the first min(len, queued) bytes of the queue |
| Spsc.UninterruptedWrite | src/ringbuffer.c:64-105 | an uninterrupted write call is a run of the protocol and does to the queue what the sequential write does |
| SpscBatches.UninterruptedBatchWrite | src/ringbuffer.c:193-245 | an uninterrupted batch write is a run of the protocol and appends the first min(total, room) bytes of all its chunks |
| SpscBatches.UninterruptedBatchRead | src/ringbuffer.c:248-298 | an uninterrupted batch read is a run of the protocol and returns the first min(total, queued) bytes |
| Frames.ParsedShape | src/parser_neon.c:6-75 | bounds on every successful parse, whatever the input |
| Frames.ParsedFitsIffNoOverflow | src/parser_neon.c:66-72 | a parsed frame lies inside the input iff its header bytes do not declare a length that overflows the 64-bit size |
| Frames.TopBitClear | src/parser_neon.c:38-72 | a 64-bit length with a clear top bit, as RFC 6455 demands, never overflows |
| Frames.OverflowingFrame | src/parser_neon.c:38-72 | ten bytes accepted as a whole frame of 2^64 - 1 payload bytes |
| Frames.ParseExtends | src/parser_neon.c:6-75 | a successful parse is the same on every extension of the input |
| Frames.PrefixNeedsMore | src/parser_neon.c:6-75 | a prefix of two bytes or more of a whole frame asks for more iff it is shorter than the frame |
| Frames.MessageRoundTrip | src/websocket.c:895-925 | a sent message parses back, at the head of any stream, to its opcode, length, shortest length form and payload |
| Frames.MaskedRoundTrip | src/websocket.c:824-878 | a masked frame such as the pong parses back to its opcode, key and length, and unmasking returns the payload |
| Frames.PingRoundTrip | src/websocket.c:1575-1577 | the two heartbeat bytes parse as an empty ping |
| Frames.ShortestForm | src/parser_neon.c:23-62 | no header any peer can send for the same length and mask bit is shorter than the ones this client builds |
| Frames.UnmaskMasked | src/websocket.c:518-520 | masking twice with the same key is the identity |
| Frames.MaskedAt | src/websocket.c:518-520 | octet i of the payload meets octet i modulo 4 of the key, as section 5.3 of RFC 6455 demands |
| Frames.MaskedHello | src/websocket.c:868-872 | the masked text of section 5.7 of RFC 6455, byte for byte |
| Peers.PeerParses | src/parser_neon.c:6-75 | every field of any frame comes back: final or not, any reserved bits and opcode, masked or not, in every length form |
| Peers.PeerFrameArrives | src/websocket.c:500-567 | any frame of the peer is cut off whole and has the effect the peer may expect in every state: opcodes 1 and 2 deliver the unmasked payload, 9 answers with it on an open connection, 10 notes a pong, 8 closes, others do nothing |
| Peers.PeerStreamArrives | src/websocket.c:464-580 | the same for every series of frames with a cut-off one behind it |
| Peers.PeerIsHeard | src/websocket.c:464-1134 | however the peer's stream is cut into reads, its messages are delivered, all of them unless it closes, and the pings before its close are answered with their own payloads |
| Peers.EncodeIsPeers | src/websocket.c:807-939 | every frame this client sends is, byte for byte, the peer's encoding of it: final, shortest form, opcode 1, 2, 9 or 10, only pongs masked |
| Peers.WireIsPeers | src/websocket.c:807-939 | the same for every series of frames |
| Peers.PongsArrive | src/websocket.c:540-558 | with room for it, answering pings puts exactly their pongs into the stream, with the payloads of the pings |
| Receive.MaskedFrameArrives | src/websocket.c:512-557 | a masked message is delivered, and a masked ping answered, with exactly the payload its sender masked |
| Receive.CutAppend | src/websocket.c:480-571 | cutting a longer stream into frames is cutting its front, then cutting what remained with the new bytes |
| Receive.TakeThenCut | src/websocket.c:474-480 | the limit of 1000 frames a call loses nothing across calls |
| Receive.ImageKeepsRest | src/websocket.c:516-521 | unmasking in place changes no byte that is not consumed |
| Receive.TopBitsClearIsEnough | src/websocket.c:480-509 | a stream whose 64-bit lengths keep the top bit clear has no overflowing length |
| Receive.ChunkedHandlesPrefix | src/websocket.c:1118-1132 | without overflowing lengths, for every cutting into reads exactly the first k frames are handled in order, where k is all or a close is among them |
| Receive.AnyChunking | src/websocket.c:1118-1132 | without overflowing lengths, for every cutting the deliveries are a prefix of the stream's messages and the pongs are all of its pongs |
| Receive.CutAfterClose | src/websocket.c:565-566 | without overflowing lengths, reads cut right behind a close frame lose every message after it |
| Receive.ChunkingIndependence | src/websocket.c:464-580 | all cuttings of a stream without overflowing lengths deliver the same messages iff no message follows a close frame |
| Receive.CloseThenMessage | src/websocket.c:565-566 | a stream of four bytes for which the cutting matters |
| Receivers.Unmask | src/websocket.c:516-521 | the in-place loop applies the rotating mask to exactly the payload bytes |
| Receivers.Receiver.HandleFrame | src/websocket.c:511-567 | one frame's effect on state, callbacks, counters, ring bytes and transmit ring; the counters stay the number and byte sum of deliveries |
| Receivers.Receiver.AnswerPing | src/websocket.c:540-558 | a ping on an open connection puts its masked pong, or the part that fits, into the transmit ring; otherwise nothing is sent |
| Receivers.Receiver.ProcessFrames | src/websocket.c:464-580 | one call handles the first (at most 1000) whole frames, releases exactly their bytes, unmasks each once, leaves the rest untouched and counts a lone tail byte as an error |
| Receivers.Receiver.Drain | src/websocket.c:1119-1131 | the drain ends, and only when no whole frame is left; it handles all whole frames in order and adds exactly the parse errors its passes meet |
| Receivers.Receiver.OnReadEvent | src/websocket.c:989-1132 | one read event on the ring does what the stream function says, and sends the pongs of the pings it handled and nothing else |
| Receivers.Receiver.ReceiveAll | src/websocket.c:973-1134 | on the ring, for every series of reads that fits, the delivered payloads are those of the whole stream, unless a message follows a close; what is sent back does not depend on the cutting |
| Regions.FitsIff | src/io_kqueue.c:194-201 | a series of reads fits, over any number of wraps, iff each stays within the offer, none fills the ring and no bytes come behind a wrapped write index of 0 |
| Regions.FitsBeforeWrap | src/io_kqueue.c:194-201 | in particular every cutting of a stream that ends before the first wrap fits |
| Regions.DrainErrorsExactly | src/websocket.c:490-497 | a read event counts a lone tail byte twice, or once if the frames before it are a positive multiple of 1000 |
| Transmit.AnswerAppend | src/websocket.c:540-558 | answering a series of pings is answering its front and then the rest, whatever the socket takes |
| Transmit.WireHasNoOverflow | src/websocket.c:895-914 | a stream of encoded frames, cut off anywhere, has no overflowing length |
| Transmit.WireCuts | src/websocket.c:807-939 | a stream of encoded frames is cut by the parser into exactly those frames |
| Transmit.TransmitConservation | src/websocket.c:916-936 | bytes taken by the socket plus bytes queued are the whole frames of the successful calls iff every failing call found the ring full |
| Transmit.FlushMoves | src/io_kqueue.c:316-361 | a flush moves exactly the bytes the socket takes from the queue to the wire; one that takes all leaves nothing queued |
| Transmit.SendMoves | src/websocket.c:916-936 | after a call that fits, the socket has taken what it accepts of queue and frame; after one that does not, nothing |
| Transmit.PromptWire | src/websocket.c:807-939 | if every call finds room and the socket takes all, every call succeeds and all frames are on the wire when it returns |
| Transmit.OversizedFrameLeavesPart | src/websocket.c:922-925 | a frame that does not fit leaves its front in the queue |
| Transmit.PeerSeesFrames | src/websocket.c:807-939 | then the peer recovers the frames in order, and at any moment a prefix of them |
| Transmit.FullIsFinal | src/websocket.c:917-936 | once the ring is full, no later call succeeds and nothing more reaches the socket |
| Transmit.PeerSeesOnlySentFrames | src/websocket.c:807-939 | whatever fails, the peer only ever sees frames that were sent, in order, and no overflowing length |
| Transmit.PeerSeesAfter | src/websocket.c:807-939 | the same behind whatever was queued before, such as the request of the handshake |
| Transmit.EndToEnd | src/websocket.c:464-939 | for every series of sends, partial socket writes and read cuttings, the receiver is handed the leading sent messages, and all of them once the queue is drained |
| Transmit.EndToEndAfter | src/websocket.c:464-939 | the same behind whatever was queued before |
| Transmit.AnswerIsSends | src/websocket.c:540-558 | answering a series of pings is a series of sending calls, so that the transmit laws hold of pongs |
| Transmitters.Transmitter.IoWrite | src/io_kqueue.c:316-361 | the one or two segments are the queue; the first n bytes, as many as the socket takes, go from the queue to the wire and nothing else changes |
| Transmitters.Transmitter.SendMessage | src/websocket.c:890-939 | returns 0 iff connected, not empty and the whole frame fits; queues the frame or the part that fits |
| Transmitters.Transmitter.SendPong | src/websocket.c:807-888 | the same for the masked pong |
| Transmitters.Transmitter.SendPing | src/websocket.c:1575-1587 | the same for the heartbeat ping |
| Registries.RemoveKeeps | src/io_kqueue.c:109-144 | swap-removal takes exactly one entry from the table of sockets and keeps slots and registrations in agreement |
| Registries.AddKeeps | src/io_kqueue.c:88-106 | adding puts exactly one entry into the table and keeps the agreement |
| Registries.AddKeepsIff | src/io_kqueue.c:66-107 | an add keeps slots and registrations in agreement iff it is refused or the descriptor is not registered |
| Registries.PollKeeps | src/io_kqueue.c:163-174 | after a poll everything is armed as before, and each read event names the slot of its own descriptor |
| Registries.FiredExactly | src/io_kqueue.c:163-165 | a report disarms exactly the descriptors whose read events it holds |
| Registries.SlotNumberStays | src/io_kqueue.c:132-140 | removal renumbers exactly the socket in the last slot |
| Registries.RegistryIsTable | src/io_kqueue.c:66-177 | over every run of adds, rollbacks, removals and polls the registry behaves as a table from descriptor to socket |
| Registries.IOContext.AddSocket | src/io_kqueue.c:66-107 | the slot number, or -1 and no change; a descriptor may be added again, which alone ends the agreement |
| Registries.IOContext.RemoveSocket | src/io_kqueue.c:109-144 | removes the first slot of a descriptor by swapping, refuses an unknown or negative one; in an agreeing registry exactly the one table entry goes |
| Registries.IOContext.Poll | src/io_kqueue.c:146-177 | disarms and re-arms by slot number; in an agreeing registry everything is restored and each read event names its own socket |
| Latencies.FilledIsLast | src/websocket.c:1308-1321 | the circular array holds exactly the most recent samples |
| Latencies.BubbleSort | src/websocket.c:1285-1294 | the array ends sorted and is a rearrangement |
| Latencies.SortedGivesOrderStatistic | src/websocket.c:1296-1302 | the element at position k of the sorted copy is the k-th order statistic of the window |
| Latencies.OrderStatisticUnique | src/websocket.c:1296-1302 | an order statistic is unique |
| Latencies.LatencyWindow.Update | src/websocket.c:1308-1327 | the window follows the history of samples; without an array nothing is recorded |
| Latencies.LatencyWindow.Reset | src/websocket.c:1371-1380 | the history starts again |
| Latencies.LatencyWindow.Percentiles | src/websocket.c:1266-1305 | both results are exact order statistics of the last min(k, capacity) samples, and p50 <= p99 |
| Heartbeats.TimeoutExactly | src/websocket.c:1564-1601 | over every run, a check times out iff the ping waited on is unanswered and at least the timeout old |
| Heartbeats.PingsExactly | src/websocket.c:1573-1587 | over every run, a check sends a ping iff it can be written and no ping is waited on or the one waited on is at least the interval old, answered or not |
| Heartbeats.UnitsOf | src/websocket.c:1569-1574 | settings are milliseconds, times nanoseconds, and differences unsigned 64-bit ones |
| Heartbeats.OncePerPing | src/websocket.c:1589-1598 | between two timeouts a new ping was sent |
| Heartbeats.NeverFires | src/websocket.c:1573-1600 | with a positive timeout not below the interval and writable pings, no run ever times out |
| Heartbeats.CanTimeOutIff | src/websocket.c:1573-1600 | with writable pings a configuration can time out iff the timeout is zero or below the interval |
| Heartbeats.Heartbeat.CheckHeartbeat | src/websocket.c:1564-1601 | the check does what the step function says, and nothing when disabled or not connected |
| Backoffs.SuccessStartsAfresh | src/websocket.c:1090-1095 | after any series of lost connections and successes the state is that of a fresh series of the losses since the last success, or of all losses if successes do not reset |
| Backoffs.Reconnector.Connected | src/websocket.c:1090-1095 | a success resets attempts and delay iff so configured |
| Backoffs.BackoffMonotone | src/websocket.c:1510-1527 | from the first attempt on, delays do not shrink and stay within the cap |
| Backoffs.DelayRoundsDown | src/websocket.c:1515-1526 | from the first attempt on the delay is initial times multiplier to the attempts, rounded down, or the cap |
| Backoffs.WholeDelays | src/websocket.c:1515-1526 | exactly so, without rounding, for a whole multiplier |
| Backoffs.DefaultDelays | src/websocket.c:616-618 | the default configuration waits 100, 200, 400 up to 25600 ms and then 30 s |
| Backoffs.TriggersIgnored | src/websocket.c:1530-1535 | without automatic reconnection triggers do nothing |
| Backoffs.FirstDelay | src/websocket.c:1511-1513 | the uncapped delay before any attempt is at most the next one iff it respects the cap |
| Backoffs.ReachesCap | src/websocket.c:1515-1526 | as a function of unbounded attempt numbers, a multiplier above one and a positive start give exactly the cap from some number on |
| Backoffs.CapReachedIff | src/websocket.c:1510-1549 | triggers announce the cap at some time iff the delay at the highest countable attempt is the cap |
| Backoffs.CapReachedByGrowth | src/websocket.c:1510-1549 | they do if that attempt number exceeds the cap over the multiplier less one |
| Backoffs.CapNeverReached | src/websocket.c:1510-1549 | with multiplier 1 + 2^-40 and no retry limit the 32-bit counter ends before the delay has doubled |
| Backoffs.RetryLimitStopsGrowth | src/websocket.c:1535-1540 | a retry limit of one stops the growth below the cap |
| Backoffs.TriggerCount | src/websocket.c:1530-1549 | n triggers count to n, never beyond a non-zero retry limit, and wrap at 32 bits without one; the state says reconnecting from the first on |
| Backoffs.DelaysNeverShrink | src/websocket.c:1530-1549 | over repeated triggers the announced delay does not shrink and stays within the cap |
| Backoffs.Reconnector.CalculateBackoff | src/websocket.c:1510-1527 | the loop computes initial times multiplier to the attempts, capped and in whole milliseconds |
| Backoffs.Reconnector.Trigger | src/websocket.c:1530-1549 | one trigger's effect on the reconnection state |
| Lifecycles.LifecycleHolds | src/websocket.c:941-1229 | over every run: CONNECTED is entered once and only before leaving, no delivery before it, nothing queued after it |
| Lifecycles.FramesMatchReceive | src/websocket.c:511-567 | the life-cycle log of a batch of frames has the state and the messages of the receive path |
| Lifecycles.ClosedIsFinal | src/websocket.c:941-1229 | over every run, once a call has returned in CLOSED no later call changes anything |
| Lifecycles.CloseCloses | src/websocket.c:941-958 | after every run a close call ends in CLOSED |
| Lifecycles.HangupCloses | src/websocket.c:976-986 | after every run a hangup ends in CLOSED, unless the connection is closing |
| Lifecycles.FirstEventDecides | src/websocket.c:973-1116 | while the connection is being opened the first deciding event is final: accepted opens, rejected or hangup closes |
| Lifecycles.NoEventDecides | src/websocket.c:973-1116 | without one nothing happens |
| Lifecycles.CallEndsClosedIff | src/websocket.c:1139-1209 | a call that sets CLOSED for the first time ends in CLOSED iff it does not break holding a close frame |
| Lifecycles.ClosedSeenIff | src/websocket.c:941-1229 | after every run that has set CLOSED, the state is CLOSED iff no call broke holding a close frame without a later close |
| Lifecycles.ClosedThenClosing | src/websocket.c:1187-1199 | the run from the start in which CLOSED turns into CLOSING |
| Lifecycles.FramesAsEffects | src/websocket.c:511-567 | the log of a batch of frames is the record of what the receive path did with them |
| Sessions.StepKeeps | src/websocket.c:890-1229 | every request leaves a legal log, unread bytes in one piece without overflowing lengths, and a transmit ring within its room, so that the next request may follow |
| SessionRuns.RunTracks | src/websocket.c:890-1229 | the log of every series of requests is a run of the life cycle, so that its laws hold of the rings |
| SessionRuns.RunWhenGone | src/websocket.c:890-1229 | once the connection was left, no series of requests queues or sends a byte, delivers a message or counts an error |
| SessionRuns.LeftForGood | src/websocket.c:890-1229 | from the point of any series where the log has moved, queue and wire stay as they are |
| SessionSends.CallAnswers | src/websocket.c:960-1229 | one process call, with TLS or without, sends a pong for each ping handled, in order, then a ping if one is due once the pongs handled are noted; the heartbeat and its timeout follow from the same state |
| SessionSends.RunSends | src/websocket.c:807-1229 | over every series of requests what is queued and sent is that of a series of frames, whose successful messages are those of the sends that returned 0 |
| SessionSends.SessionEndToEnd | src/websocket.c:464-1229 | over every series of requests the peer recovers only frames that were sent, and is handed the leading messages whose send returned 0, all of them once the queue is drained |
| SessionStreams.SessionDelivers | src/websocket.c:464-1220 | over every series of requests, with TLS or without, the messages of the leading frames of the stream received are delivered in order and once; while the connection is open the frames not handled are those of the unread bytes |
| SessionStreams.CallEffects | src/websocket.c:973-1220 | what one call without TLS causes and leaves unread: the drain of what arrived, then at most 1000 frames of a closing pass |
| SessionStreams.CallErrorsExactly | src/websocket.c:490-504 | the parse errors counted by one whole call |
| SessionStreams.LoneByteRecounted | src/websocket.c:1214-1219 | n idle calls over a lone unread byte count n errors |
| SessionStreams.IdleCall | src/websocket.c:1214-1226 | a call that meets nothing, with no frame unread and no ping due, sends and delivers nothing |
| SessionStreams.TlsGotExactly | src/websocket.c:1156-1180 | a TLS read handles the first m thousand frames and releases their bytes; m is at most 51 and less only if the connection is left or no whole frame is left |
| SessionStreams.TlsReadsOn | src/websocket.c:1147-1180 | the TLS loop reads on after bytes, up to 200 reads |
| SessionStreams.TlsReadsAgain | src/websocket.c:1178-1186 | a read of nothing makes a pass, and a further read follows only after bytes and before the fifth |
| SessionStreams.TlsFailureCloses | src/websocket.c:1187-1199 | a failed read closes, at most 1000 unread frames are handled, and nothing is sent |
| SessionStreams.TlsQuietCall | src/websocket.c:1139-1213 | a call that finds nothing makes two passes of at most 1000 frames, the second unless the first met a close |
| SessionPeers.AcceptedOpens | src/websocket.c:1078-1102 | an accepted handshake opens the connection, its answer is consumed, and frames behind it are handled in the same call |
| SessionPeers.RefusedCloses | src/websocket.c:976-1112 | a rejected handshake or a hangup closes the connection; nothing is sent or delivered |
| SessionPeers.PendingWaits | src/websocket.c:1072-1116 | an incomplete answer is kept and nothing else happens |
| SessionPeers.CloseDownCloses | src/websocket.c:941-958 | after every series of requests a close ends in CLOSED |
| SessionPeers.MessageSent | src/websocket.c:890-939 | a message that fits is queued as the peer's encoding of it, text as opcode 1 and binary as 2, goes to the socket as far as that takes it, and returns 0; otherwise -1 is returned |
| SessionPeers.PeerFramesHandled | src/websocket.c:464-1134 | the peer's frames in one read have the effects it may expect, a pong among them sets the pong time, and the pings before a close are answered |
| SessionPeers.PingsAnswered | src/websocket.c:540-888 | ping and pong end to end: with room, exactly the pongs for the pings are put on the stream, each with the payload of its ping |
| SessionPeers.NewSettingPings | src/websocket.c:1553-1587 | after a new heartbeat setting the next idle call sends the two bytes of a ping |
| SessionPeers.DisabledIsSilent | src/websocket.c:1564-1567 | without the heartbeat no call sends a ping or times out |
| SessionPeers.RunBeats | src/websocket.c:559-1601 | the heartbeat of every series of requests is a run of heartbeat events, so that `PingsExactly` and `TimeoutExactly` hold of it |
| SessionLogs.LogIsTruthful | src/websocket.c:511-1601 | over every series of requests the log's deliveries are the payloads handed out and its queue entries are as many as pongs, pings and messages together |
| Clients.Client.Process | src/websocket.c:960-1229 | one call does to rings, log, counters and heartbeat what the session's step says, and returns its timeout; the client is then ready for the next call |
| Clients.Client.OnArrival | src/websocket.c:973-1134 | one event on the rings: hangup, handshake answer with its bytes consumed, or drained frames, exactly as the session says |
| Clients.Client.ReadTls | src/websocket.c:1139-1209 | the TLS loop, with its limit of 200 reads, its early retries and its bounded drains, as the session says |
| Clients.Client.DrainTls | src/websocket.c:1159-1177 | at most 51 passes, stopping when the read index stands still or the connection is left |
| Clients.Client.TlsData | src/websocket.c:1156-1180 | a TLS read with bytes appends them and drains, ending in the session state of which `TlsGotExactly` speaks |
| Clients.Client.TlsBroken | src/websocket.c:1187-1199 | after a TLS failure the frames still buffered are handled in CLOSED, where no ping is answered |
| Clients.Client.SendMessage | src/websocket.c:890-939 | returns 0 iff the connection is open, there is data and the whole frame fits; outside CONNECTED neither queue nor wire changes |
| Clients.Client.CloseConnection | src/websocket.c:941-958 | the connection is CLOSED afterwards, the log stays legal, queue and wire stay as they are |
| Clients.Client.CheckBeat | src/websocket.c:1564-1601 | a ping is queued iff one is due on an open connection, and the heartbeat learns whether both bytes fit |
| Clients.Client.SetHeartbeatConfig | src/websocket.c:1553-1561 | the new setting forgets the last ping and pong and touches nothing else |
| Clients.Client.ServeAll | src/websocket.c:890-1229 | any series of calls on the object ends where the session's run does, its log is a run of the life cycle, and queue and wire are untouched if the connection was left before |
| JsonFields.VectorSearch | src/parser_neon.c:95-143 | blocks and tail together return the first match, except the one that ends the text behind the last block |
| JsonFields.OverlookedExample | src/parser_neon.c:130-139 | a family of texts with such a match |
| JsonFields.ScanString | src/parser_neon.c:156-167 | the scan ends at the first quote or NUL not escaped by an odd run of backslashes, and never past the text |
| JsonFields.ScanScalar | src/parser_neon.c:168-181 | the scan ends at the first delimiter or the end of the text |
| JsonFields.ReadValue | src/parser_neon.c:145-191 | the value text, cut to the caller's buffer |
| JsonFields.ValueUnique | src/parser_neon.c:145-191 | the value at a position is unique |
| JsonFields.VectorExtract | src/parser_neon.c:79-194 | finds the field's value or nothing |
| JsonFields.ScalarExtract | src/parser_neon.c:291-354 | finds the field's value or nothing |
| JsonFields.ExtractorsAgreeIff | src/parser_neon.c:79-354 | on NUL-free text as long as the pattern both extractors agree iff the first match is not the overlooked one |
| JsonFields.StringRoundTrip | src/parser_neon.c:79-354 | any string, escaped as JSON demands, comes back from the first field of an object in its escaped form, cut to the buffer, from either extractor |
| JsonFields.ScalarRoundTrip | src/parser_neon.c:79-354 | any number or word comes back up to the delimiter behind it |
| JsonFields.LongFieldRefused | src/parser_neon.c:79-95 | a field name whose pattern does not fit 256 bytes is not found |
| NicClock.EstimateIsClose | src/io_kqueue.c:279-289 | without overflow the estimated tick, converted back, is at least the packet time and less than one nanosecond and one tick above it |
| NicClock.FuturePacket | src/io_kqueue.c:279-289 | a packet time ahead of the clock gives the current tick |
| NicClock.DiffWithinNow | src/io_kqueue.c:250-254 | the difference in ticks never exceeds the current tick |

## Left out

- scalar_parse_ws_frame: it is the same function as neon_parse_ws_frame, statement for statement; `Frames.ParseFrame` stands for both.
- TLS, DNS, sockets, allocation, memory locking, alignment and thread pinning: the environment, given as parameters.
- Handshake text matching and key generation: the outcome and the number of bytes taken enter `Lifecycle.dfy` and `Session.dfy`.
- parse_url: it splits a string at the first of a few characters, with string searches from the C library and atoi; a model would restate those.
- Health thresholds, logging, throughput and utilisation figures: comparisons and divisions of counters. JSON batch extraction: a loop over the extractor.
- Hardware memory ordering: index loads and stores are atomic steps in `Spsc.dfy`.
- Null pointers: a missing buffer is not representable; an empty chunk behaves as a null one in the batch forms. Destination buffers of reads are returned values.
- Receivers.Receiver.ProcessFrames: needs the unread bytes not to cross the end of the array and no overflowing length, because the C code reads past the array otherwise.
- Receivers.Receiver.ProcessFrames: latency sampling per message and the pooled frame records are not part of it.
- Receive.ChunkingIndependence: overflowing lengths are excluded, because the code then hands out a length that goes beyond its buffer.
- Clients.Client.Process: at most one event a call. While the connection is being opened, the rounds of the TLS handshake and the repeated reads for its answer appear as one arrival, and the request of the handshake is taken to be sent outside the model. All pongs of one call are noted at one time.
- Sessions.Takes: what arrives fits the receive ring without crossing its end and holds no overflowing length, for the reasons given at `Receivers.Receiver.ProcessFrames`; `Regions.FitsIff` says when reads fit.
- Transmitters.Transmitter.SendPong: the temporary buffer for the masked payload is always available; payloads of all sending calls are shorter than 2^64 - 14 bytes.
- Registries.IOContext.RemoveSocket: re-registering a swapped socket does not fail.
- Clients.Client.SendMessage: the log records that a frame was queued even if the ring took none of its bytes; the link says what it took.
- Calls made by the user from inside a callback.
- JsonFields.VectorExtract: the text must be at least as long as the pattern and the buffer not empty; the C code's unsigned subtractions wrap otherwise. JsonFields.ScalarExtract takes the text to be followed by a NUL.
- Latencies.LatencyWindow.Percentiles: the factor 0.99 is exact, and the temporary array is always available.
- Backoffs.Backoff: the product is a real number, not a double; a negative multiplier is excluded because its conversion to an unsigned integer is undefined.
- The removal loop of io_cleanup: closing the queue ends every registration anyway.
