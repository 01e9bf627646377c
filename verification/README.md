# Verified model of the WHAD transport

The library moves protocol-buffer messages between a device and its host over a serial line. A sender
frames each encoded message as `AC BE len_lo len_hi payload`, queues the frame in a 1024-slot ring and
drains it in chunks through a send callback. A receiver queues whatever arrives and looks for frames in
it, resynchronising on garbage. This project models that core and proves what it promises, and does the
same for four smaller parts: the Board domain's validators, packing and size budget, the PHY timestamps,
the discovery capability tables and the BLE channel map.

## Structure

| file | contents |
|---|---|
| `Types.dfy` | result codes, integer types, ring and frame sizes |
| `RingBuf.dfy` | the ring as a class, proved to be a bounded queue |
| `Framing.dfy` | frames, the receiver's decision on a queue, and the parser of an unbounded stream |
| `TransportModel.dfy` | each transport call as a function on its queues; laws of one call and of every run of calls |
| `Transport.dfy` | the transport as a class over two rings; every method equals its function in the model |
| `Link.dfy` | sender, link and receiver as a transition system: safety and progress over every interleaving |
| `SharedRing.dfy` | a ring shared by one producer and one consumer: its single accesses and what each keeps |
| `Spsc.dfy` | the receive ring shared by interrupt and main loop, one access to shared memory per step |
| `SpscTx.dfy` | the send ring shared by `send_message` and `send_pending`, one access per step |
| `Whad.dfy` | the message layer over an abstract codec, and the end-to-end theorem for messages |
| `Varint.dfy` | base 128 varints: round trip and exact sizes |
| `BoardMessages.dfy`, `BoardValidators.dfy`, `BoardPack.dfy` | the 49 Board messages, their validators, packing and unpacking |
| `ProtoWire.dfy` | the Protocol Buffers wire format: items, their round trip, and messages as lists of typed fields |
| `BoardSchema.dfy` | the 49 messages as the generated header declares them, compared with the validators |
| `BoardEncoding.dfy`, `BoardReading.dfy` | the bytes of a Board message, their number, and that they tell every field |
| `BoardSize.dfy`, `BoardBudget.dfy` | encoded sizes and the size budget |
| `Phy.dfy`, `Discovery.dfy`, `ChannelMap.dfy` | timestamps, capability tables, channel bitmap |

Where the code leaves a choice to its environment the choice is an argument, and every result holds for
all of them: `inlineDone` says whether the send callback reports completion before it returns, and
`schedule` lists the interrupts (a completion, a drain) that run after each byte `send_message` pushes.
The buffers handed to the callback are recorded in the ghost field `chunks`; `Wire` is their
concatenation. C integers are modelled with their widths where they matter: the timestamp product wraps
at 2^32, enumerations reach the range tests as signed integers, and a chunk's end is added in 64 bits.

## Where the code and its descriptions differ

- The repository's README (line 32) says the receiver resynchronises byte by byte. The code skips two
  bytes when neither of the first two can start a frame (src/transport.c:195-201); `DiscardSound` and
  `NoStartSkipped` show that this never passes over a frame start.
- A comment in `send_message` (src/transport.c:230-233) says a failed call leaves the queue as it was.
  The reservation may already have flushed a chunk; `RefusedLeavesQueue` says exactly when the queue is
  unchanged, `RefusedMayFlush` gives an instance two calls after initialisation, and `SendMessageConserves` states what a failed call
  does preserve. The rollback itself would drop the oldest queued bytes instead of the new ones;
  `PushBytesReserved` and `SpscTx.EveryInterleaving` show it is never taken.
- Without a send callback `send_pending` reports success for ever although nothing is sent, so the usual
  drain loop, which repeats it while it succeeds, does not end (`DrainLoopEnds`).
- A receive queue shorter than a header may hold garbage on which the receiver waits; `WaitExactly`
  characterises all queues on which it waits.
- The timestamp field has 64 bits. The builders fill 32 of them (`PackSplitExact`); what a parser makes of
  a larger value of a peer is in `SplitExactly`.
- The generated maximum size of `release_pin` does not hold for every accepted value, since a lease
  suspends the range test of `resource`; `ReleasePinExactly` gives the condition. The generated maxima of
  the Board message and the top-level message, 947 and 950, are three bytes above what the validators
  let through (`Budget`, `BudgetReached`).

## Model

| member | source | states |
|---|---|---|
| `RingBuf.RingBuf.Init` | src/ringbuf.c:8-13 | An initialised ring is the empty queue. |
| `RingBuf.RingBuf.GetSize` | src/ringbuf.c:22-25 | The head/tail formula is the length of the queue the ring stands for. |
| `RingBuf.RingBuf.Push` | src/ringbuf.c:46-63 | Appends the byte iff fewer than 1023 are queued; otherwise reports full and keeps the queue. |
| `RingBuf.RingBuf.Pull` | src/ringbuf.c:73-89 | Removes and returns the oldest byte, or reports empty and keeps the queue. |
| `RingBuf.RingBuf.Copy` | src/ringbuf.c:91-122 | Returns exactly the oldest `size` bytes across the wrap point without changing the ring; writes nothing when too few are queued. |
| `RingBuf.RingBuf.Skip` | src/ringbuf.c:125-136 | Removes exactly the oldest `size` bytes, or reports an error and removes none. |
| `RingBuf.ViewAfterPush` | src/ringbuf.c:46-63 | Writing the head slot and advancing head appends one byte to the queue, wrap-around included, unless 1023 are in use. |
| `RingBuf.ViewAfterSkip` | src/ringbuf.c:125-136 | Advancing tail modulo 1024 drops exactly a prefix of the queue. |
| `Framing.DecisionStable` | src/transport.c:148-206 | A decision other than waiting is unchanged by any bytes that arrive later. |
| `Framing.HeaderBytes` | src/transport.c:225-228 | A header is AC BE and the size, low byte first. |
| `Framing.DeliverExactly` | src/transport.c:171-187 | For every buffer size: a payload is delivered iff it has at most 1019 bytes, fits the caller's buffer and its whole frame is in front of the queue. |
| `Framing.TooSmallExactly` | src/transport.c:188-193 | A size is asked for iff a legal header announces it and the caller's buffer is smaller. |
| `Framing.RejectExactly` | src/transport.c:163-168 | The oversize error is reported iff a header announces more than 1019 bytes. |
| `Framing.DiscardExactly` | src/transport.c:195-201 | Without the magic in front one byte is dropped iff the second may begin a header, and otherwise two. |
| `Framing.WaitExactly` | src/transport.c:148-174 | For every buffer size: the receiver waits exactly on fewer than four bytes or on a proper prefix of a legal frame that the buffer can hold. |
| `Framing.DecideFrame` | src/transport.c:171-193 | A frame in front of the queue, whatever follows, is delivered into a buffer of its size or larger and draws its size otherwise. |
| `Framing.RestQuiescent` | src/transport.c:142-207 | Polling ends in a waiting queue, which leaves at least one slot of the ring free, so the receiver cannot wedge. |
| `Framing.PollsBounded` | src/transport.c:148-206 | Quiescence is reached within as many consuming polls as bytes are queued; what remains is counted too. |
| `Framing.ParseAppend` | src/transport.c:142-207 | Parsing is incremental: the messages of s ++ t are those of s followed by those of rest(s) ++ t. |
| `Framing.ChunkingIrrelevant` | src/transport.c:61-76 | However a stream is cut into pieces, polling to quiescence after each gives the same messages and the same rest. |
| `Framing.ParseFrames` | src/transport.c:225-247 | The receiver undoes the sender: a stream of frames yields exactly the payloads, whatever follows. |
| `Framing.FramesInjective` | src/transport.c:225-247 | Equal framed streams carry equal payload sequences. |
| `Framing.Resynchronises` | src/transport.c:158-201 | Garbage with no admissible header start in front of a frame is dropped, the frame and everything after it survive. |
| `Framing.ResynchronisesNoMagic` | src/transport.c:158-201 | In particular garbage without the two magic bytes side by side. |
| `Framing.ExtentsAreMessages` | src/transport.c:142-207 | For any stream, the delivered messages are, in order, the frames found at the recorded extents. |
| `Framing.NoStartSkipped` | src/transport.c:158-201 | For any stream, every admissible frame start lies inside a delivered frame or in the bytes still queued; none is thrown away. |
| `Framing.BoundedReceiverRefinesParse` | src/transport.c:61-207 | A 1023-byte receiver polled to quiescence before each byte never overflows on any stream and returns exactly the messages of the unbounded parser. |
| `TransportModel.SendPendingConserves` | src/transport.c:87-128 | Sending moves a prefix of the queue to the wire, keeping order and content, and keeps the invariant of the state machine. |
| `TransportModel.SendPendingExactly` | src/transport.c:87-128 | Each status iff its condition; after a success with a callback exactly one more chunk is out, the first min(queued, max_txbuf_size) bytes, and otherwise nothing has changed. |
| `TransportModel.CompletionExactly` | src/transport.c:261-267 | data_sent leaves no chunk in flight, and a callback that completes before it returns has the effect of a completion right after the call. |
| `TransportModel.ReceivedExactly` | src/transport.c:61-76 | Received bytes are kept in order up to 1023, and a full ring is reported iff one did not fit. |
| `TransportModel.ReceivedInPieces` | src/transport.c:61-76 | Two calls are one call on both pieces unless the first reports a full ring. |
| `TransportModel.RollbackDropsOldest` | src/transport.c:235-248 | A push loop that runs out of space would drop as many of the oldest bytes as it has pushed, and keep the new ones. |
| `TransportModel.PushBytesReserved` | src/transport.c:234-248 | After the reservation every push succeeds whatever interrupts drain in between; the rollback branches are unreachable and the bytes stay contiguous. |
| `TransportModel.PushBytesSplit` | src/transport.c:235-248 | The header loop followed by the payload loop is one loop over the frame, failures included. |
| `TransportModel.SendMessageConserves` | src/transport.c:209-252 | A successful send adds exactly one whole frame to what is sent or queued, a failed one adds nothing. |
| `TransportModel.SendMessageUninterrupted` | src/transport.c:209-252 | Without interrupts a message is appended as one frame if that fits now or after one flushed chunk; otherwise the flush is all that happens. |
| `TransportModel.ReservesExactly` | src/transport.c:6-22 | Space is found iff it is there, or is there after the one chunk an idle sender can flush; otherwise the answer is "ring full". |
| `TransportModel.AcceptedExactly` | src/transport.c:209-252 | A message is accepted iff its frame fits now, or fits after the one chunk an idle sender can flush; a refused one draws "ring full". |
| `TransportModel.EmptyQueueAccepts` | src/transport.c:6-22 | An empty queue accepts every payload of at most 1019 bytes. |
| `TransportModel.RefusedLeavesQueue` | src/transport.c:11-22 | A refused message leaves the queue unchanged iff a chunk is in flight or there is no callback. |
| `TransportModel.RefusedMayFlush` | src/transport.c:11-22 | An instance from initialisation: after one message of the largest size an empty one is refused, and the refusal has sent a byte of the first. |
| `TransportModel.DrainTakes` | src/transport.c:87-128 | k rounds of send_pending and data_sent take exactly the first k chunks off the queue and lose nothing. |
| `TransportModel.DrainBound` | src/transport.c:87-128 | n queued bytes are gone after ceil(n / max_txbuf_size) rounds and not before. |
| `TransportModel.DrainLoopEmpties` | src/transport.c:87-128 | The loop "while send_pending succeeds, data_sent" ends with an empty queue and everything on the wire, after as many rounds as `DrainBound` says. |
| `TransportModel.DrainLoopEnds` | src/transport.c:94-127 | That loop ends iff there is a callback or a chunk is in flight. |
| `TransportModel.RunConservesTx` | src/transport.c:209-267 | Over every run of calls: at most one chunk in flight, every chunk of 1 to min(1023, max_txbuf_size) bytes, and sent ++ queued is exactly the frames of the accepted messages. |
| `TransportModel.RunReceivesStream` | src/transport.c:61-207 | Over every run of calls with any splits, polls and buffer sizes: messages returned, then those still queued, are the messages of the received stream. |
| `Transport.Transport.Init` | src/transport.c:31-46 | Leaves both queues empty, the state idle and the configuration as given. |
| `Transport.Transport.DataReceived` | src/transport.c:61-76 | Queues the bytes in order up to a full ring and reports whether all fitted. |
| `Transport.Transport.SendPending` | src/transport.c:87-128 | Equals the model's send_pending on queue, wire, state and result; the ring's bytes reach the callback unchanged. |
| `Transport.Transport.WaitTxSpace` | src/transport.c:6-22 | Equals the model's reservation, including the flush it may cause. |
| `Transport.Transport.PushBytes` | src/transport.c:235-248 | Each push loop equals the model's, with interrupts after every push and the rollback on failure. |
| `Transport.Transport.SendMessage` | src/transport.c:209-252 | Equals the model's send_message for every argument: an error iff data is NULL with a positive size or the size is outside 0..1019, one whole frame more on a success, none otherwise. |
| `Transport.Transport.GetMessage` | src/transport.c:142-207 | Takes exactly the decision of the framing model: result, size, destination buffer and remaining queue, for every buffer size. |
| `Transport.Transport.DataSent` | src/transport.c:261-267 | Ends the transmission in flight, and changes nothing when there is none. |
| `Link.EndToEnd` | src/transport.c:87-252 | Every interleaving of pushes, flushes, completions, deliveries and polls keeps the end-to-end invariant. |
| `Link.EndToEndFromStart` | src/transport.c:87-252 | From initialisation: deliveries are an in-order prefix of what was accepted, the bytes under way are the frames of the rest, no rollback and no resynchronisation ever happens. |
| `Link.QuiescentDelivered` | src/transport.c:142-207 | When sender and link are empty and the receiver waits, everything accepted has been delivered. |
| `Link.SendMessageIsRun` | src/transport.c:209-252 | A whole send_message call with its interrupts, as the transport object performs it, is one of the system's runs. |
| `Link.InternalStep` | src/transport.c:87-207 | Every step other than a new send changes nothing or strictly reduces the remaining work. |
| `Link.SomeStepHelps` | src/transport.c:87-207 | No deadlock: while something is undelivered, some step makes progress. |
| `Link.CanFinish` | src/transport.c:87-207 | From every reachable state everything accepted can be delivered without further sends, within a bounded number of steps. |
| `SharedRing.PushStepHolds` | src/ringbuf.c:46-63 | Each access of a push keeps the shared ring; only the head write publishes, and it publishes the byte pushed. |
| `SharedRing.PeekIsStream` | src/ringbuf.c:110-118 | A byte that a copy reads is the queued byte it stands for: the producer has not overwritten it. |
| `SharedRing.TakeHolds` | src/ringbuf.c:125-136 | The tail write keeps the ring, and a push in progress keeps the space it has found. |
| `Spsc.ProduceKeeps` | src/ringbuf.c:46-63 | Each access of the producer keeps the shared-ring invariant and every decision the consumer has in progress. |
| `Spsc.ConsumeKeeps` | src/transport.c:142-207 | Each access of the consumer keeps it, for every size of the caller's buffer: bytes are read before they are overwritten and every size test inside copy and skip succeeds. |
| `Spsc.CallIsAtomic` | src/transport.c:142-207 | Whatever the producer does between its accesses, the access that ends a get_message gives the call the effect of an atomic one at that moment, for every buffer size; no other access has any. |
| `Spsc.CallEnds` | src/transport.c:142-207 | No call takes more than 1033 accesses. |
| `Spsc.EveryInterleaving` | src/ringbuf.c:46-136 | Over every interleaving from a fresh ring: the slots in use are exactly the published bytes not yet taken, and the messages delivered are those of the published stream. |
| `SpscTx.SendStepKeeps` | src/transport.c:209-252 | Each access of send_message keeps the reservation: what is queued and what is left to push fit the ring, whatever part of a drain has run. |
| `SpscTx.DrainStepKeeps` | src/transport.c:87-128 | Each access of send_pending keeps it: the chunk read is the queue's prefix although pushes go on, and every size test inside copy and skip succeeds. |
| `SpscTx.DrainCallIsSendPending` | src/transport.c:87-128 | The accesses of a send_pending that is alone with the ring do what the transport model's send_pending does. |
| `SpscTx.SendCallIsSendMessage` | src/transport.c:209-252 | Those of a send_message do what the model's send_message does, its answer included. |
| `SpscTx.DoneIsDataSent` | src/transport.c:261-267 | A completion does what the model's data_sent does. |
| `SpscTx.DrainEnds` | src/transport.c:87-128 | Every access of a drain brings it closer to its end, whatever the sender does. |
| `SpscTx.SendEnds` | src/transport.c:209-252 | Every access of a send_message likewise, whatever a drain does. |
| `SpscTx.EveryInterleaving` | src/transport.c:87-267 | Over every interleaving from a fresh ring: no push fails, the chunks sent are a prefix of the accepted messages' frames, and all of them once sender and drain rest on an empty ring. |
| `Whad.Whad.SendMessage` | src/whad.c:52-73 | Hands the encoding to the transport; a failed, oversize or empty encoding is an error, changes nothing and frees nothing; otherwise the message's resources are freed even if the transport refuses it. |
| `Whad.Whad.GetMessage` | src/whad.c:85-122 | The answer is the decoded payload, an error or "no message", as the transport's decision prescribes. |
| `Whad.EncodingExactly` | src/whad.c:52-73 | Exactly the encodings of 1 to 1019 bytes are passed on, unchanged, and an empty send queue takes each. |
| `Whad.EncodedIsSent` | src/whad.c:52-73 | With nothing queued, a message is sent iff its encoding has 1 to 1019 bytes, and its frame is then under way. |
| `Whad.AnswerToFrame` | src/whad.c:85-122 | A frame in front of the queue is answered by the message it decodes to, by an error if it does not decode, and by "no message" if it is empty. |
| `Whad.AnswerExactly` | src/whad.c:85-122 | Each answer iff its condition on the receive queue. |
| `Whad.MessagesEndToEnd` | src/whad.c:52-122 | Over every run from initialisation in which the decoder undoes the encoder on the messages sent: delivered payloads decode to the first messages sent, in order, and "no message" is answered exactly when the receiver is waiting. |
| `Varint.DecodeEncode` | src/discovery.c:55-56 | Reading a varint back gives the value and the bytes behind it. |
| `Varint.EncodeFormat` | src/discovery.c:55-56 | A varint is the value in groups of seven bits, lowest first, the top bit set in all bytes but the last. |
| `Varint.SizeExactly` | src/discovery.c:55-56 | A varint has at most k bytes iff the value is below 128^k. |
| `BoardValidators.EnumTest` | src/domains/board.c:23-26 | The signed range test accepts exactly the unsigned values up to the largest enumerator. |
| `BoardValidators.ValidString` | src/domains/board.c:18-21 | Accepts a character array iff it holds a NUL. |
| `BoardValidators.ValidateLease` | src/domains/board.c:35-48 | Accepts a lease iff its resource is in range; an absent one is not looked at. |
| `BoardValidators.ValidateDescriptor` | src/domains/board.c:112-145 | Accepts iff counts are within capacity and name, unit and every used component name are terminated. |
| `BoardValidators.ValidateSensorSample` | src/domains/board.c:163-181 | Accepts iff at most ten values and no status bit beyond the seven flags; the mask test is a bound on the number. |
| `BoardValidators.ValidateTransferResult` | src/domains/board.c:279-305 | Accepts iff result, array size, bytes read and lease are all in range, for I2C and SPI results alike. |
| `BoardValidators.ValidateRuntimeConfig` | src/domains/board.c:527-562 | Accepts the three known operations, and an update only with a runtime in range. |
| `BoardValidators.ValidateProfile` | src/domains/board.c:598-623 | Accepts iff the name is terminated, at most 16 mappings are used and each used one is in range. |
| `BoardValidators.ValidateReleasePin` | src/domains/board.c:657-675 | Accepts a valid lease without looking at `resource`, and otherwise a resource in range. |
| `BoardValidators.ValidateChunk` | src/domains/board.c:741-767 | Accepts iff the result is in range, count <= size <= capacity, and total is 0 or offset + count <= total over the integers. |
| `BoardPack.Pack` | src/domains/board.c:817-843 | Stores exactly what the validator accepts, with unused storage zero; a refused value leaves the message untouched. |
| `BoardPack.Unpack` | src/domains/board.c:845-878 | Returns request id and value iff domain, tag and validator agree; otherwise leaves both outputs untouched. |
| `BoardPack.UnpackPacked` | src/domains/board.c:817-878 | Unpacking what was packed succeeds iff the tags agree and the reader's validator accepts, and then returns the same id and value. |
| `BoardPack.UnpackedExactly` | src/domains/board.c:845-878 | For any message: unpacking returns an id and a value iff the message is what packing them leaves, up to unused storage, and the validator accepts the value. |
| `BoardPack.UnusedIsZero` | src/domains/board.c:835-840 | Storage behind a packed value is zero. |
| `BoardPack.RoundTrip` | src/domains/board.c:1038-1048 | For every pair: an accepted value comes back with its request id whatever the message held before, a parser with another tag fails and leaves both its outputs alone, a refused value changes nothing. |
| `BoardSize.TagIdentifies` | whad/protocol/board/board.pb.h:1032-1080 | A tag identifies its message: no two of the 49 messages share one. |
| `BoardSchema.AcceptableExactly` | src/domains/board.c:35-815 | The validators accept exactly the values whose enumerations, counts and strings are as declared and that keep the extra limits; only release_pin with a lease leaves a declared field unchecked. |
| `ProtoWire.DecodeEncode` | whad/protocol/board/board.pb.h:1083-1534 | Reading back encoded items gives the same items in order. |
| `ProtoWire.ItemsAgree` | whad/protocol/board/board.pb.h:1083-1534 | Messages with the same items agree field by field. |
| `BoardEncoding.BodyIsWireSize` | whad/protocol/board/board.pb.h:1083-1534 | For every value of the 49 messages, accepted or not: the size formula is the number of bytes of the encoded message. |
| `BoardEncoding.TopLevelIsWireSize` | whad/protocol/board/board.pb.h:1535-1585 | The same for the whole message with its request id. |
| `BoardReading.TopWireTells` | whad/protocol/board/board.pb.h:1083-1585 | The bytes of a message come from one request id and one value only: no field of any of the 49 messages is lost. |
| `BoardBudget.WithinStated` | whad/protocol/board/board.pb.h:1755-1812 | Every accepted value of each of the 49 messages is within its generated maximum size (release_pin with resource below 128). |
| `BoardBudget.ReleasePinExactly` | src/domains/board.c:657-675 | The generated maximum of release_pin holds for all leases and instances iff `resource` is below 128. |
| `BoardBudget.Budget` | whad/protocol/board/board.pb.h:1787-1788 | Every accepted value has at most 944 bytes as a Board message and 947 as a top-level message. |
| `BoardBudget.BudgetReached` | src/domains/board.c:741-767 | An accepted log chunk attains both bounds. |
| `BoardBudget.FitsEmptyQueue` | inc/transport.h:7-9 | The encoding of any accepted value is a frame of at most 951 bytes, which an empty send queue always takes. |
| `Phy.PackSplit` | src/domains/phy.c:1192-1192 | Building and splitting a timestamp reduces the true microseconds modulo 2^32. |
| `Phy.PackSplitExact` | src/domains/phy.c:1253-1254 | A pair survives iff usec < 1000000 and sec*1000000 + usec < 2^32. |
| `Phy.LongUptimeWraps` | src/domains/phy.c:1284-1287 | From second 4295 on no timestamp survives. |
| `Phy.SplitExactly` | src/domains/phy.c:1253-1254 | For every 64-bit value: the parts make up the timestamp iff it is below 2^32 seconds; above, the cast drops whole laps of the seconds. |
| `Phy.SchedPacket` | src/domains/phy.c:1189-1219 | Builds packet and wrapped timestamp, or refuses NULL pointers and packets above 255 bytes without touching the message. |
| `Phy.PacketParse` | src/domains/phy.c:1528-1545 | Returns the split timestamp, or (0, 0) when the message has none. |
| `Phy.BuildAndParse` | src/domains/phy.c:1272-1322 | All three builder/parser pairs return a pair under the same exact condition. |
| `Discovery.IsDomainSupported` | src/discovery.c:23-38 | True iff an entry before the end of the table has the domain. |
| `Discovery.GetSupportedCommands` | src/discovery.c:66-77 | The mask of the first entry for the domain, and 0 for an unsupported domain. |
| `Discovery.EnumCapabilities` | src/discovery.c:45-64 | Succeeds iff everything fits the stream, and then writes exactly the advertised entries; on failure a prefix of them. |
| `Discovery.AdvertisedVsLive` | src/discovery.c:50-60 | The advertised entries are a prefix of the supported ones, and all of them iff no supported entry has empty capabilities. |
| `Discovery.ValueSplits` | whad/protocol/device.pb.h:14-53 | An advertised value splits back into its domain and its capabilities. |
| `Discovery.EveryEntryArrives` | src/discovery.c:50-60 | A receiver finds the domain and the capabilities of every valid entry in the written field. |
| `Discovery.DecodeEncodeAll` | src/discovery.c:50-60 | The written field reads back as exactly the advertised values, in table order. |
| `ChannelMap.ChannelMap.EnableChannel` | src/cpp/domains/ble/ble_channelmap.cpp:24-34 | Adds exactly that channel to the set; a channel outside 0..39 changes nothing. |
| `ChannelMap.ChannelMap.DisableChannel` | src/cpp/domains/ble/ble_channelmap.cpp:36-46 | Removes exactly that channel; a channel outside 0..39 changes nothing. |
| `ChannelMap.ChannelMap.IsChannelEnabled` | src/cpp/domains/ble/ble_channelmap.cpp:48-61 | True iff the channel is in the set. |
| `ChannelMap.ChannelMap.IsNull` | src/cpp/domains/ble/ble_channelmap.cpp:19-22 | True iff the set is empty. |
| `ChannelMap.BytesFromChannels` | src/cpp/domains/ble/ble_channelmap.cpp:24-61 | Channel 8k + o is bit o of byte k: each byte is the sum of the powers of two of its channels. |
| `ChannelMap.SameChannelsSameBytes` | src/cpp/domains/ble/ble_channelmap.cpp:7-22 | Two maps with the same channels have identical bytes. |
| `ChannelMap.UpdatesRefineSet` | src/cpp/domains/ble/ble_channelmap.cpp:24-61 | After any updates with any arguments, a channel is enabled iff it is one of the 40 and its last update enabled it. |

## Left out

- The UART behind the send callback, the hardware, and the nanopb library: the codec of the message layer is a pair of functions, and the Board encoding follows the field lists and the Protocol Buffers encoding guide.
- A configuration with `max_txbuf_size` below 1, negative sizes given to the ring's skip, and a callback that re-enters `send_pending`: callers must not do these.
- Transport.Transport.PushBytes: an interrupt runs between two pushes, never inside one; in `SpscTx` it may run between any two accesses of a push.
- Weak memory, several producers on one ring, and two `send_pending` calls racing: one producer and one consumer per ring, sequentially consistent.
- Aliasing between the library's static buffers and the buffers callers pass in.
- Whad.Whad.SendMessage: which parts of a message are freed; `released` says only whether and when they are.
- BoardValidators.ValidateRuntimeConfig: a union whose tag is none of the three operations is one constructor without contents.
- The Board validators that consist of range tests only: they are their conditions in `BoardMessages.Acceptable`; `EnumTest` relates such a condition to the C test and `AcceptableExactly` to the declarations.
- The contents of Board byte arrays: validators and sizes depend on the lengths alone, and encodings hold zeros in their place; `BoardPack` carries values as raw bytes.
- BoardReading.TopWireTells: what is not transmitted, characters behind a terminator and elements beyond a count, is taken to be zero.
- Spsc.CallIsAtomic: the result code of a call; its effect on ring and deliveries only.
- BoardPack.RoundTrip: reading the union through a struct type is not modelled, a validator is any predicate on the bytes.
- PHY parsers applied to a message of another variant, and the fields of PHY messages without a timestamp.
- The other builders and parsers of the BLE, ESB, 802.15.4, Unifying and PHY domains: field copies with one branch.
- The C++ wrapper classes, message ownership, exceptions and `BDAddress`; `getChannelMapBuf`, which hands out the bytes.
- Message-type and domain switches: finite tables.
