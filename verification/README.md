# SystemScale: protocols and codecs, verified

A Dafny model of the parts of SystemScale where bytes and interleavings decide correctness, with
proofs of what they keep.

* **Telemetry.** The edge agent encodes envelopes by hand, stores them in the slots of a ring buffer
  over a byte array, and streams them length-prefixed to the relay; the ingest service decodes them
  with a hand-written decoder of its own. `Bytes`, `Varint`, `Wire`, `Envelope`, `Encoders`,
  `FastReaders`, `Fifo`, `Ring`, `RingInterleaving` and `Telemetry` model this path. A message is a
  byte string; `Wire.Parse` is the one reference reading of it as fields, and every loop in Rust, Go
  and Python is a method proved equal to a function of those fields (Protocol Buffers, Encoding guide).
* **Commands.** `Commands` covers the way from the service through the relay to the agent and the
  acknowledgements back; `Malformed` says what the decoders outside the ingest service make of damaged
  messages. `RestAcks`, `SendCommand` and `AckOnce` are the three coordination protocols, as state
  machines whose steps interleave freely.
* **Connections.** `WebSocketFrames` and `WebSocket` are the operator SDK's reader of RFC 6455
  frames; `WsManager` is the dashboard's reconnecting connection.
* **Storage.** `VideoRing` is the video relay's record file, `IlpWriter` the batched database
  writer, `Escaping` the two string escapers, `Keys` the flattening and renaming of data keys.

Results about wire formats, replies and limits are stated in literal octets, status codes and numbers
beside the functions that compute them. Numbers are unbounded; 64-bit and 32-bit wrap-around,
truncating casts and sign conversions are written out where the code has them. Floating-point values
are bit patterns. `Outcome` tells a decoder's error (`Rejected`) from a failed slice or allocation
(`Panicked`).

Where the code and its comments disagree, the model follows the code: the tail of the ring can pass
its head (`RingInterleaving.TailBehindHead` says when it cannot), the dashboard's subscriptions are a
set and not reference counted (`WsManagers.CountedUnlessNested`), command priorities are numbered 1 to
3, and the agent's acknowledgement layout is not the one the service reads
(`Commands.AgentAckKeepsOnlyId`).

`dafny verify dfyconfig.toml` checks the project.

## Model

| member | source | states |
|---|---|---|
| `Telemetry.EndToEnd` | agent/quic-transport/src/lib.rs:163-180 | Any interleaving of pushes and pops, laps included: what was popped and framed is unframed by the relay, in strictly increasing push order, up to the first frame over its limit (slots of at most 65,552 bytes hold none); the ingest service decodes each frame whose envelope fits a slot to what the ring encoder sends of it, with its push number modulo 2^32; short vehicle ids are routed by their type; without a lap nothing between the first and the last popped frame is missing |
| `Telemetry.DecodeCut` | agent/ring-buffer/src/lib.rs:182-187 | An envelope that does not fit its slot is decoded exactly if the cut falls between two fields, and then to the fields before it |
| `Telemetry.InterleavedEndToEnd` | agent/quic-transport/src/lib.rs:163-180 | The same over the interleaved atomic steps of push and pop, when no push starts on a full buffer: the i-th delivery decodes to the i-th envelope and nothing is lost |
| `Telemetry.CleanDeliveriesDecode` | agent/quic-transport/src/lib.rs:163-180 | Over every interleaving, laps included: each pop that finished reading before its slot was reused is decoded to the envelope of its own number, in increasing order |
| `Telemetry.DeframeStream` | server/relay/relay-core/src/session.rs:145-187 | Unframing a framed sequence gives the frames up to the first one longer than 65,536 bytes, and closes the stream exactly if there is one |
| `Telemetry.DeframeCut` | server/relay/relay-core/src/session.rs:145-167 | A stream that breaks off at any point inside a frame gives the frames before it and nothing of it; only a complete length prefix over 65,536 is an error |
| `Telemetry.HandleTelemetryStream` | server/relay/relay-core/src/session.rs:145-187 | On every stream the relay loop publishes the unframed payloads in order under the types its reader finds, up to one on which the reader panics, and ends as TooLarge exactly on an oversize announcement before that |
| `Telemetry.WellFormedPublished` | server/relay/relay-core/src/session.rs:145-187 | Well-formed frames are all published, in order, each under its first stream type field if that is tagged early |
| `Telemetry.PublishedInTurn` | server/relay/relay-core/src/session.rs:145-187 | Each frame is published in its place under the type the reader gives, and one on which the reader panics is the last one looked at |
| `Telemetry.SendBuffered` | agent/quic-transport/src/lib.rs:163-180 | The sending loop writes exactly the framed contents of the ring, oldest first, and empties it without dropping anything |
| `Telemetry.RingOpsPush` | agent/agent-core/src/main.rs:137-163 | The frames that a run of pushes and pops puts into the ring are the encodings of the pushed envelopes, in order, under consecutive numbers |
| `Telemetry.StoreAllAt` | agent/agent-core/src/main.rs:137-163 | Frame i of a run that starts at number n is the encoding of envelope i with number (n + i) modulo 2^32, cut to its slot |
| `Telemetry.Sequence` | agent/agent-core/src/main.rs:137-163 | The sequencer's loop over a wrapping 32-bit counter pushes every envelope, in order, under consecutive numbers modulo 2^32, into the bounded queue |
| `Bytes.LittleEndianByte` | agent/ring-buffer/src/lib.rs:329-337 | Byte order of every fixed-width field and length prefix: byte i of the encoding is v / 256^i modulo 256 |
| `Bytes.FromLittleEndianByte` | server/api/ingest/main.go:217-229 | Byte i of what is read from a fixed-width field is value / 256^i modulo 256 |
| `RingBuffers.RingBuffer.constructor` | agent/ring-buffer/src/lib.rs:115-118 | A new buffer, whatever its file holds, is an empty queue of capacity/slot_size frames |
| `RingBuffers.RingBuffer.Push` | agent/ring-buffer/src/lib.rs:177-216 | On the byte array and the counters, a push is the push of the bounded queue: the encoding cut to the slot is appended and, exactly when the queue is full, the oldest frame is dropped |
| `RingBuffers.RingBuffer.Pop` | agent/ring-buffer/src/lib.rs:223-267 | A pop hands out the oldest frame byte for byte and removes it; the bad-magic and oversize branches are dead; replay mode ends exactly when the ring is found empty |
| `RingBuffers.RingBuffer.OnReconnect` | agent/ring-buffer/src/lib.rs:270-277 | Replay mode starts exactly if something is buffered |
| `RingBuffers.WriteSlot` | agent/ring-buffer/src/lib.rs:194-201 | Filling a slot writes magic, length, timestamp and payload and touches no byte outside it |
| `RingBuffers.SlotOctets` | agent/ring-buffer/src/lib.rs:194-201 | The slot octet by octet: AF BE AD DE, the length in four octets, least significant first, and the payload from octet 16 |
| `RingBuffers.ResiduesDiffer` | agent/ring-buffer/src/lib.rs:190-192 | Two of any num_slots consecutive frame numbers never share a slot |
| `Fifos.StepIsBoundedQueue` | agent/ring-buffer/src/lib.rs:173-216 | The specification is a bounded queue that discards its oldest element when full |
| `Fifos.RunConsistent` | agent/ring-buffer/src/lib.rs:77-84 | Over every run: each frame number below the tail was popped or dropped and not both, never more than the capacity is held, and both lists are increasing |
| `Fifos.GapsAreDrops` | agent/agent-core/src/main.rs:137-163 | Numbers handed out strictly increase; the numbers between two successive ones are exactly the frames dropped in between, and the gap is their count |
| `Fifos.NoLapDeliversAll` | agent/ring-buffer/src/lib.rs:77-84 | If nothing was dropped, exactly the first frames were handed out, in order |
| `RingInterleaving.CounterBounds` | agent/ring-buffer/src/lib.rs:77-84 | Every interleaving of the atomic loads, slot accesses and fetch_adds keeps head - slots - 1 <= tail <= head + 1, and head - slots <= tail while no push is between its counter updates |
| `RingInterleaving.DeliveriesAreFrames` | agent/ring-buffer/src/lib.rs:223-266 | In every interleaving deliveries come in strictly increasing order, and a pop that finishes reading before a push reusing its slot has started delivers exactly the pushed bytes |
| `RingInterleaving.PopSkips` | agent/ring-buffer/src/lib.rs:223-254 | Undisturbed, a pop waits on an empty buffer, and passes over a slot that does not start with AF BE AD DE, handing nothing out |
| `RingInterleaving.PopSkipsOversize` | agent/ring-buffer/src/lib.rs:256-261 | Undisturbed, a pop passes over a slot whose length goes beyond it, handing nothing out |
| `RingInterleaving.SkipsOnlyLapped` | agent/ring-buffer/src/lib.rs:248-261 | A slot is skipped only if a push that reuses it has started |
| `RingInterleaving.TailCanPassHead` | agent/ring-buffer/src/lib.rs:80-80 | For every number of slots n the documented tail <= head is false: a run in which n pops end between the check for a lap and its drop ends with tail = head + 1, having delivered the bytes of a later push |
| `RingInterleaving.TailBehindHead` | agent/ring-buffer/src/lib.rs:203-210 | When the documented bound holds: in every run in which at most b pops end between a check for a lap and its drop, tail <= head, if and only if b is smaller than the number of slots |
| `RingInterleaving.DropMovesTail` | agent/ring-buffer/src/lib.rs:206-210 | In every run, a drop leaves the tail behind the head by the capacity less the pops that ended since the check |
| `RingInterleaving.DeliversEverything` | agent/ring-buffer/src/lib.rs:177-266 | In every interleaving in which no push starts on a full buffer, delivery i is frame i with its exact bytes, and none is lost |
| `RingInterleaving.FrameLostUnread` | agent/ring-buffer/src/lib.rs:206-210 | For every number of slots a run in which a pop that ends after a drop takes the tail past frame 1, whole and unread |
| `RingInterleaving.FrameDroppedUnread` | agent/ring-buffer/src/lib.rs:203-210 | For every number of slots a run in which the producer drops frame 1, whole, unread and not being popped |
| `RingInterleaving.FrameGivenUp` | agent/ring-buffer/src/lib.rs:223-237 | For every number of slots a run in which a pop gives up after a drop, and the next frame pushed can never be read |
| `RingInterleaving.LossExactly` | agent/ring-buffer/src/lib.rs:203-266 | In every run, a step loses a frame (it was to come, in hand, delivered or overwritten, and is none of these afterwards) if and only if it is a drop after a pop has ended since the check that is not of the frame being popped, a pop that ends after a drop with the next slot not being reused, or a pop that gives up after a drop |
| `RingInterleaving.NothingLost` | agent/ring-buffer/src/lib.rs:203-266 | In every run without those schedules, every frame the tail has passed was delivered, is in hand, or has given its slot to a later push |
| `RingInterleaving.LossIsFinal` | agent/ring-buffer/src/lib.rs:203-266 | Each of those schedules loses a frame that no continuation ever delivers |
| `RingInterleaving.PassesExactly` | agent/ring-buffer/src/lib.rs:203-266 | In every run, the tail passes a published whole frame that is not the one just read if and only if a drop comes after one to n pops since the check, or a pop ends after a drop with the next frame whole |
| `Varints.VarintRoundTrip` | server/api/ingest/main.go:281-293 | Reading what was written, followed by anything, returns the value and the rest |
| `Varints.VarintFits` | agent/ring-buffer/src/lib.rs:305-312 | Every 64-bit number is written in at most 10 bytes |
| `Varints.VarintByte` | agent/ring-buffer/src/lib.rs:305-312 | Byte i of a varint holds v / 128^i modulo 128 in its low seven bits, and its top bit is set exactly if another byte follows |
| `Varints.ReadVarintStable` | server/api/ingest/main.go:281-293 | What follows a readable varint changes neither its value nor its length |
| `Varints.ReadVarintValue` | server/api/ingest/main.go:281-293 | A varint is readable exactly if it ends within ten bytes, and its value is its seven-bit groups modulo 2^64 |
| `Varints.EncodeVarint` | agent/ring-buffer/src/lib.rs:305-312 | The ring buffer's (and the MAVLink adapter's) writer emits the base 128 varint of the number |
| `Varints.AppendVarintFlagged` | agent/quic-transport/src/lib.rs:297-305 | The transport's writer emits the same bytes |
| `Varints.AppendVarint` | server/api/commands/main.go:939-945 | The Go and Python writers emit the same bytes |
| `Varints.ConsumeVarint` | server/api/ingest/main.go:281-293 | The slice reader (also in the relay's gateway and the socket adapter) agrees with the reference on every byte string: success, value modulo 2^64 and bytes consumed |
| `Varints.ReadVarintAt` | agent/quic-transport/src/lib.rs:413-424 | The cursor reader (also in the relay and the MAVLink adapter) agrees with the reference on every byte string and start |
| `Varints.ZigzagBijection` | agent/protocol-adapters/mavlink/src/lib.rs:461-466 | Zigzag numbers 0, -1, 1, -2 and so on in this order, a bijection between the signed and the unsigned 32-bit numbers |
| `Wire.ParseConcat` | server/api/ingest/main.go:189-279 | Parsing a concatenation whose first part is well-formed parses the parts one after the other |
| `Wire.ParsePrint` | sdk/python/systemscale/core/proto.py:14-98 | Parsing printed fields gives the fields back |
| `Wire.CutPrint` | sdk/python/systemscale/core/proto.py:14-98 | A prefix of printed fields is well-formed only if it ends between two fields, and then parses to the fields before |
| `Wire.ParseFieldPrinted` | server/api/ingest/main.go:200-275 | A printed field followed by anything is read back with its exact length |
| `Envelopes.DecodeDataEnvelope` | server/api/ingest/main.go:189-279 | The decoder loop computes the reference decoding on every byte string, errors included |
| `Envelopes.DecodeIsLastOneWins` | server/api/ingest/main.go:189-279 | Decoding succeeds exactly on well-formed messages and gives every component its last occurrence, or its default |
| `Envelopes.DecodeIsMerge` | server/api/ingest/main.go:189-279 | Decoding a concatenation is the last-one-wins merge of the two decodings, and fails if the second part does not decode |
| `Envelopes.UnknownFieldIgnored` | server/api/ingest/main.go:189-279 | A field the decoder does not know, of any of the four wire types and inserted between any two messages, changes nothing |
| `Encoders.EncodeEnvelopeToBuf` | agent/ring-buffer/src/lib.rs:284-303 | The ring encoder appends the printed form of its field list, which RingWire spells out |
| `Encoders.RingWire` | agent/ring-buffer/src/lib.rs:284-303 | The message read back field by field: 1 to 4, then 5 and 6 together if the latitude has a bit set below the sign, 7 likewise for the altitude, and 8 |
| `Encoders.RingRoundTrip` | agent/ring-buffer/src/lib.rs:284-303 | What the ingest service decodes from it, in the bits alone: fields 1-4 and 8 always; the latitude and the longitude as they are unless all bits of the latitude but the top one are zero, else 0 and 0; the altitude as it is unless all its bits but the top one are zero; nothing of 16-22 |
| `Encoders.RingLossless` | agent/ring-buffer/src/lib.rs:284-303 | The ring path preserves an envelope if and only if it has only what the encoder sends, stated in the bits |
| `Encoders.PyEncodeDataEnvelope` | sdk/python/systemscale/core/proto.py:61-98 | The Python encoder emits the printed form of its nonzero fields, which PyWire spells out |
| `Encoders.PyWire` | sdk/python/systemscale/core/proto.py:61-98 | The message read back field by field: each of the fifteen is there exactly if it is not empty or zero, a float counting as zero whatever its sign bit |
| `Encoders.PyRoundTrip` | sdk/python/systemscale/core/proto.py:61-98 | The decoder inverts the Python encoder on all fifteen fields, up to the sign of zero: latitude, longitude and altitude each on its own, in the bits alone |
| `Encoders.PyLossless` | sdk/python/systemscale/core/proto.py:61-98 | It does so exactly if none of the three numbers is the negative zero |
| `FastReaders.FastReadStreamType` | server/relay/relay-core/src/session.rs:322-349 | The fast reader's loop computes its reference on every byte string: malformed tags, cursors beyond the end and failed reads included |
| `FastReaders.FastOnWellFormed` | server/relay/relay-core/src/session.rs:322-349 | On every well-formed message that is the first stream type field tagged before offset 64, or 1 |
| `FastReaders.FastMatchesDecoder` | server/relay/relay-core/src/session.rs:322-349 | On every message with exactly one stream type field, tagged before offset 64, the relay's type is the one the full decoder finds |
| `FastReaders.FastReadsRing` | server/relay/relay-core/src/session.rs:322-349 | For the agent's messages the relay's type is right if and only if the tag starts before offset 64 or the type is the default; ids of at most 50 bytes always meet the bound, for any timestamp |
| `FastReaders.FastReadsPy` | server/relay/relay-core/src/session.rs:322-349 | The same for the Python encoder |
| `FastReaders.PeekDataEnvelope` | server/api/commands/main.go:1109-1163 | The peek loop computes its reference on every byte string, giving what it has where it can read no further |
| `FastReaders.PeekMatchesDecoder` | server/api/commands/main.go:1109-1163 | When vehicle id and stream type occur at most once, the peek returns what the full decoder finds |
| `FastReaders.EnvelopeToJsonFrame` | server/relay/ws-gateway/src/main.rs:305-366 | The gateway's loop computes its reference on every byte string: an unreadable tag ends the message, an unreadable value rejects it |
| `FastReaders.FrameMatchesDecoder` | server/relay/ws-gateway/src/main.rs:305-366 | On every well-formed message with field numbers below 2^29 the frame has the seven components of the full decoding, each in its place |
| `Malformed.FastOnBroken` | server/relay/relay-core/src/session.rs:322-349 | Where the fields end in damage before a stream type came: the default for an unreadable tag, an unknown wire type or a skip beyond the end, 0 for an unreadable stream type, a panic for a length beyond 64 bits; behind any other unreadable number or length reading resumes ten bytes on |
| `Malformed.PeekOnBroken` | server/api/commands/main.go:1109-1163 | Damage behind well-formed fields changes nothing of what the filter has seen, unless it looks on and meets a length beyond the signed 64-bit numbers |
| `Malformed.FrameOnBroken` | server/relay/ws-gateway/src/main.rs:305-366 | Behind well-formed fields an unreadable tag leaves the frame as it is, an unreadable value rejects it, a length beyond 64 bits panics |
| `Malformed.AgentOnBroken` | agent/quic-transport/src/lib.rs:318-355 | Behind well-formed fields an unreadable tag or value rejects the command, an unknown wire type or a fixed-width value that is cut off counts as the end, a length beyond 64 bits panics |
| `Malformed.AckOnBroken` | server/api/commands/main.go:363-408 | Behind well-formed fields an unreadable tag counts as the end, an unreadable number or length fails, and a value longer than the message takes in exactly the bytes behind it in the buffer, or panics where these end |
| `Commands.EncodeCommandEnvelope` | server/api/commands/main.go:190-206 | The service's encoder emits the printed form of its field list |
| `Commands.CommandWire` | server/api/commands/main.go:190-206 | The message read back field by field: 1 to 4 always, a negative priority as its 64-bit two's complement, 5 to 7 exactly if not empty or zero |
| `Commands.DecodeCommandEnvelopeInto` | server/api/commands/main.go:987-1043 | The service's decoder loop computes the reference decoding on every byte string |
| `Commands.CommandIsLastOneWins` | server/api/commands/main.go:987-1043 | Decoding succeeds exactly on well-formed messages without fixed-width fields and gives every component its last occurrence, cut to its width, or its default |
| `Commands.CommandRoundTrip` | server/api/commands/main.go:987-1043 | Decoding inverts encoding on every command, negative priorities included |
| `Commands.DecodeCommandEnvelope` | agent/quic-transport/src/lib.rs:318-355 | The agent's decoder computes its reference on every byte string: fixed-width fields may end beyond the message, an unknown wire type ends it, empty ids are rejected |
| `Commands.TakeOnWellFormed` | agent/quic-transport/src/lib.rs:318-355 | On well-formed messages that is every field in order, then the check of the ids |
| `Commands.AgentIsLastOneWins` | agent/quic-transport/src/lib.rs:318-355 | On well-formed messages with field numbers below 2^29 every component is its last occurrence, priority 2 is High, 3 Emergency and anything else Normal, and a message without a vehicle or command id is rejected |
| `Commands.ReceiveCommands` | agent/quic-transport/src/lib.rs:183-214 | On every stream the receiving loop forwards exactly the commands that decode, in order, skips the frames that do not, and ends as the stream, an oversize announcement or a panicking decoder makes it |
| `Commands.ReceivedInTurn` | agent/quic-transport/src/lib.rs:197-211 | A frame that decodes is forwarded in its place, one that does not is skipped, and one on which the decoder panics is the last one looked at |
| `Commands.CommandsArrive` | server/relay/relay-core/src/session.rs:218-232 | Any sequence of commands with well-formed nonempty ids and encodings within the frame limit, encoded by the service, framed by the relay and decoded by the agent, arrives as the same sequence with equal ids, payloads and times to live and priorities 1 to 3 as Normal, High, Emergency |
| `Commands.SendCommandsFromChannel` | server/relay/relay-core/src/session.rs:218-232 | The relay writes exactly the framed commands, in order |
| `Commands.EncodeAck` | agent/quic-transport/src/lib.rs:262-295 | The agent's acknowledgement encoder, with its literal tags, emits the printed form of its field list, which AgentAckWire spells out |
| `Commands.AgentAckWire` | agent/quic-transport/src/lib.rs:262-295 | The message read back field by field: id, status as 1 to 5 in the order of the enumeration, the message if it is not empty, and the time |
| `Commands.EncodeCommandAckProto` | server/api/commands/main.go:966-984 | The service's acknowledgement encoder emits the printed form of its nonzero fields |
| `Commands.ServiceAckWire` | server/api/commands/main.go:966-984 | The message read back field by field: each component is there exactly if it is not empty or zero, a negative status as its 64-bit two's complement |
| `Commands.DecodeCommandAck` | server/api/commands/main.go:363-408 | The decoder computes its reference on every byte string and whatever the buffer holds behind it: a bad tag ends the message, a value past the end is read on into the buffer, and past that it panics |
| `Commands.AckOnWellFormed` | server/api/commands/main.go:363-408 | On well-formed messages it never panics, fails exactly on a fixed-width field and never reads on |
| `Commands.AckIsLastOneWins` | server/api/commands/main.go:363-408 | On well-formed messages reading succeeds exactly without fixed-width fields and gives every component its last occurrence, cut to its width, whatever the buffer holds behind the message |
| `Commands.AgentAckKeepsOnlyId` | agent/quic-transport/src/lib.rs:255-295 | Of an agent's acknowledgement the service reads the command id and nothing else |
| `Commands.AckRoundTrip` | server/api/commands/main.go:966-984 | The service reads back its own acknowledgements whole, negative statuses included |
| `RestAcks.RunConsistent` | server/api/commands/main.go:523-604 | Over every interleaving: once the listener is done no identifier has both an entry and waiters, no channel is sent to twice, so the drop branch is never taken, and every served entry carries its request's identifier |
| `RestAcks.NoLostWakeUp` | server/api/commands/main.go:686-746 | A request waiting when an acknowledgement for its identifier arrives holds, or has been served, exactly that acknowledgement once the listener is done (or the earlier one its channel held already), however the run goes on, unless its client disconnected |
| `RestAcks.WaitingEnds` | server/api/commands/main.go:726-745 | A waiting request is served exactly what its channel holds, and one whose client disconnects nothing; either way it then stands in no list |
| `RestAcks.RequestServedOrWaits` | server/api/commands/main.go:711-724 | After every run, a request is served the entry held for its identifier, or waits with an empty channel at the end of that list |
| `RestAcks.NothingInvented` | server/api/commands/main.go:584-597 | Over every run, whatever is kept, announced, held or served is an acknowledgement that was read, whole |
| `RestAcks.ExpiryExactly` | server/api/commands/main.go:555-562 | Expiry keeps exactly the entries received at or after the cutoff and changes nothing else |
| `RestAcks.WaitingMissedNothing` | server/api/commands/main.go:711-724 | A request that waits with an empty channel is registered exactly once and no entry for it is held |
| `RestAcks.AcknowledgedEnds` | server/api/commands/main.go:589-599 | Undisturbed, the listener stores the entry, puts it into the channel of every waiter and of nobody else, forgets the waiters and releases the lock |
| `RestAcks.ListenerEnds` | server/api/commands/main.go:589-599 | From every reachable state in which the listener holds the lock, whatever receivers and clients do in between, it finishes once it has run as often as waiters are left, with the entries unchanged and the waiters gone |
| `RestAcks.RestServer.OnAck` | server/api/commands/main.go:589-599 | The notifying loop is the run of its single sends between taking and releasing the lock: afterwards the entry is stored, every channel of the old list holds it, nothing else has changed and the list is gone |
| `RestAcks.RestServer.OnRequest` | server/api/commands/main.go:714-724 | Serves the stored entry, or registers a new channel at the end of the list, in one region |
| `RestAcks.RestServer.OnExpiry` | server/api/commands/main.go:555-562 | Exactly the entries received at or after the cutoff stay, as they are; waiters and requests are untouched |
| `RestAcks.RestServer.OnLeave` | server/api/commands/main.go:726-736 | The request's channel is removed from its own list, and stands in none afterwards |
| `RestAcks.RemoveChannel` | server/api/commands/main.go:728-734 | The search removes the first occurrence of the channel |
| `SendCommand.OneReplyPerCommand` | server/api/commands/main.go:230-359 | Over every interleaving: no issued identifier is replied to twice; a goroutine that has ended has replied exactly once, with an acknowledgement the router received for its identifier or with TIMEOUT for it, and its identifier is no longer pending; only a cancelled session leaves a command behind |
| `SendCommand.DecidedIsAnswered` | server/api/commands/main.go:331-350 | From every reachable state in which a goroutine has left its select, whatever runs in between: after its two regions it has ended, its command is not pending, and the operator has been told exactly once, the acknowledgement it got or status 4 with its own id and vehicle |
| `SendCommand.AckIsAnswered` | server/api/commands/main.go:252-338 | Undisturbed, an acknowledgement for a waiting command is routed, taken and appended to the stream as it is, and the command removed |
| `SendCommand.TimeoutIsAnswered` | server/api/commands/main.go:339-348 | Undisturbed, a timer that runs out removes the command and appends one reply with status 4 and the command's id and vehicle |
| `SendCommand.FailureIsAnswered` | server/api/commands/main.go:280-317 | A command refused or not published is answered at once by exactly one reply with status 3, its id and its vehicle, and is not pending |
| `SendCommand.PublishedWaits` | server/api/commands/main.go:319-326 | A published command is registered under its fresh id with an empty channel and a waiting goroutine |
| `SendCommand.CancelledIsSilent` | server/api/commands/main.go:349-350 | A goroutine whose session ends replies nothing, and no continuation replies for it |
| `SendCommand.AckInTimeIsReported` | server/api/commands/main.go:252-271 | An acknowledgement read while its command is registered and waiting is exactly what the operator hears, whatever else is read for the command, unless the channel holds an earlier one, which it then hears, or the timer or the session ends first |
| `SendCommand.EarlyAckIsLost` | server/api/commands/main.go:303-323 | An acknowledgement the router reads before its command is registered is lost in every continuation: unless another one is read, whatever the operator hears of the command is TIMEOUT |
| `SendCommand.ReportedExactlyIfInTime` | server/api/commands/main.go:253-356 | The only acknowledgement ever read for a command, its timer and session not running out on a waiting goroutine, is the reply the operator hears if and only if the goroutine was registered and waiting when it was read |
| `AckOnce.ExactlyOneAck` | sdk/go/systemscale/message/receiver.go:308-332 | Over every interleaving of any number of calls and every way a handler ends: at most one acknowledgement is sent, and when callHandler is over exactly one call has claimed it and exactly one is sent once the calls under way are over |
| `AckOnce.SilentHandlerFails` | sdk/go/systemscale/message/receiver.go:308-332 | Over every interleaving: what is sent is the status of a call that was started, or failed once the handler is over; a handler that never acknowledges, whether it returns, fails or panics, is reported as failed, once |
| `AckOnce.EndSends` | sdk/go/systemscale/message/receiver.go:308-332 | Undisturbed, the handler's end is followed by one failed if nothing was acknowledged and by nothing otherwise, also when the transport panics under it |
| `AckOnce.CallSends` | sdk/go/systemscale/message/receiver.go:45-54 | Undisturbed, a call sends its status if the flag is clear, and nothing if it is set |
| `AckOnce.FirstClaimWins` | sdk/go/systemscale/message/receiver.go:45-54 | Once the flag is set, nothing but the status of the call that set it is ever sent |
| `AckOnce.RunnerEnds` | sdk/go/systemscale/message/receiver.go:308-332 | After the handler the runner ends within four of its own steps |
| `AckOnce.CallHandler` | sdk/go/systemscale/client.go:831-855 | For a handler that makes its calls itself: the first one is sent, or `failed` if there is none, and nothing else, whether it returns, fails or panics |
| `AckOnce.Command.SendAck` | sdk/go/systemscale/client.go:239-248 | A call sends exactly if it is the one that sets the flag |
| `AckOnce.HandleEvent` | sdk/go/systemscale/message/receiver.go:256-279 | A command that arrives is answered by its handler's first call, or failed if there is none; without a handler it is queued unanswered while the queue holds fewer than 256, and failed otherwise |
| `WebSocketFrames.ParseEncoded` | sdk/go/systemscale/operator.go:618-663 | Any valid frame, masked or not, in any length form, followed by anything, is read back with its exact size (section 5.2 of RFC 6455) |
| `WebSocketFrames.EncodeParsed` | sdk/go/systemscale/operator.go:618-663 | Whatever is read is a valid frame and the octets taken are its encoding |
| `WebSocketFrames.MaskTwice` | sdk/go/systemscale/operator.go:659-663 | Unmasking undoes masking |
| `WebSocketFrames.MaskedBit` | sdk/go/systemscale/operator.go:659-663 | Bit k of octet i of a masked payload is the sum without carry of bit k of the octet and of the key octet i modulo 4 (section 5.3 of RFC 6455) |
| `WebSocketFrames.BigEndianOctet` | sdk/go/systemscale/operator.go:631-644 | Byte order of the extended length: counted from the end, octet i is v / 256^i modulo 256 |
| `WebSocket.ReadIsExchange` | sdk/go/systemscale/operator.go:614-683 | A read yields a message (or a close), a rest and written bytes if and only if the input is the encoding of frames read past and one that ends it, the message is the data of those frames in order, and one pong per ping was written, in order |
| `WebSocket.FragmentedRead` | sdk/go/systemscale/operator.go:614-683 | Every message as section 5.4 of RFC 6455 describes it, with control frames anywhere before its end, is returned whole, the suffix is left unread, and every ping is answered by an unmasked pong frame with its payload |
| `WebSocket.PingOctets` | sdk/go/systemscale/operator.go:672-674 | In octets: 89, a length up to 125 and a payload are answered at once by 8A, the same length and payload, and reading goes on |
| `WebSocket.PongCloseOctets` | sdk/go/systemscale/operator.go:670-676 | In octets: 8A is passed over and 88 ends the connection, whatever was collected |
| `WebSocket.DataOctets` | sdk/go/systemscale/operator.go:665-682 | In octets: opcodes 0, 1 and 2 add their payload and 3 to 7 nothing; with the final bit the message is returned, without it reading goes on |
| `WebSocket.MaskedOctets` | sdk/go/systemscale/operator.go:646-663 | In octets: a masked text frame, key and masked payload, is returned unmasked |
| `WebSocket.LongOctets` | sdk/go/systemscale/operator.go:630-644 | In octets: payloads with a length of 126 and two octets, or 127 and eight, most significant first, are returned whole |
| `WebSocket.CutRead` | sdk/go/systemscale/operator.go:618-658 | An input that breaks off anywhere inside a frame fails, after the pings before it have been answered |
| `WebSocket.OverlongRead` | sdk/go/systemscale/operator.go:638-656 | An announced length of 2^63 or more panics, after the pings before it have been answered |
| `WebSocket.PongFaithful` | sdk/go/systemscale/operator.go:685-692 | A pong carries its ping's payload if and only if that has at most 125 octets |
| `WebSocket.WsConn.ReadMessage` | sdk/go/systemscale/operator.go:614-616 | The stepwise reader computes the reference reading on every input, failures and the negative-length panic included |
| `WebSocket.WsConn.ReadFrame` | sdk/go/systemscale/operator.go:618-663 | Header, length, key and payload reads compute the reference parse and consume exactly the frame |
| `WebSocket.Unmask` | sdk/go/systemscale/operator.go:659-663 | The in-place loop masks the payload |
| `WebSocket.WsConn.SendControl` | sdk/go/systemscale/operator.go:686-692 | Writes one control frame; the length octet is the length modulo 256 |
| `WsManagers.OneSourceOfReconnection` | server/dashboard/src/ws/WsManager.ts:57-150 | After every sequence of calls and events: with a nonempty set exactly one live socket or armed timer exists, with an empty set none; the status is disconnected exactly if the set is empty and connected exactly if the live socket is past connecting, and then the ids last sent on it are the current set; every other socket is closing or closed |
| `WsManagers.RetriesBackOff` | server/dashboard/src/ws/WsManager.ts:143-150 | The next retry waits min(1000 * 2^k, 30000) after k retries since the last open or teardown, k counted on the events alone |
| `WsManagers.ConnectionRecovers` | server/dashboard/src/ws/WsManager.ts:97-150 | From every reachable state with a live socket: when it closes, a timer is armed with the current delay; when that runs, the delay doubles up to 30000 and a socket connects; when that opens, the delay is 1000, the status connected and the current set sent |
| `WsManagers.PeerCloses` | server/dashboard/src/ws/WsManager.ts:137-140 | While the peer closes an open socket nothing changes but its state: it stays the one live socket and the status connected |
| `WsManagers.CallsReconnect` | server/dashboard/src/ws/WsManager.ts:57-95 | After every history: subscribing a known vehicle or unsubscribing an unknown one changes nothing; a change to a nonempty set leaves a new connecting socket as the only source of the next connection; emptying the set leaves none and resets the delay |
| `WsManagers.NotReferenceCounted` | server/dashboard/src/ws/WsManager.ts:55-74 | Contrary to the comments, one unsubscribe ends any number of subscriptions, after every history |
| `WsManagers.LastCallDecides` | server/dashboard/src/ws/WsManager.ts:57-74 | After every run a vehicle is in the set if and only if the last call about it was a subscription |
| `WsManagers.CountedUnlessNested` | server/dashboard/src/ws/WsManager.ts:15-18 | The documented reference counting is what the manager does, at every point of a run, if and only if no vehicle is unsubscribed while more than one subscription of it is outstanding |
| `WsManagers.WsManager.Subscribe` | server/dashboard/src/ws/WsManager.ts:58-63 | A new vehicle joins the set, the manager is no longer destroyed and reconnects; a known one changes nothing |
| `WsManagers.WsManager.Unsubscribe` | server/dashboard/src/ws/WsManager.ts:66-74 | A known vehicle leaves the set; the manager is torn down if the set is then empty and reconnects otherwise |
| `WsManagers.WsManager.Teardown` | server/dashboard/src/ws/WsManager.ts:78-84 | The timer is cleared, the socket detached and closed, delay and status reset |
| `WsManagers.WsManager.Reconnect` | server/dashboard/src/ws/WsManager.ts:87-95 | The timer is cleared, an unclosed socket detached and closed, and a new one opened unless the manager is destroyed or the set empty |
| `WsManagers.WsManager.OnOpen` | server/dashboard/src/ws/WsManager.ts:106-114 | A socket that was connecting is open: the delay is reset, the status set and the current set sent on the current socket |
| `WsManagers.WsManager.OnClose` | server/dashboard/src/ws/WsManager.ts:137-140 | A socket is closed: if its handler is still attached, the status is reset and a retry scheduled after the current delay |
| `WsManagers.WsManager.OnTimer` | server/dashboard/src/ws/WsManager.ts:146-149 | An armed timer runs: the delay doubles up to its bound and a socket is opened |
| `VideoRings.FileReadsBack` | server/relay/srt-relay/src/main.rs:108-135 | After any run of appends, failing ones included, the bytes before the write position parse as exactly the chunks since the last wrap, in order, with consecutive numbers ending at the last one given |
| `VideoRings.AppendExactly` | server/relay/srt-relay/src/main.rs:110-135 | After any run: a record goes behind the last one if it fits there to the last byte, else to the start of the file; exactly the bytes the disk takes are written, and only a whole record moves the position and uses up a number |
| `VideoRings.StaysInside` | server/relay/srt-relay/src/main.rs:121-124 | Nothing is ever written past the capacity if and only if no append has more than the capacity to write |
| `VideoRings.ChunksStayInside` | server/relay/srt-relay/src/main.rs:118-124 | For given chunks the file keeps its size whatever the disk answers if and only if every chunk fits the capacity with its header |
| `VideoRings.ParsePrinted` | server/relay/srt-relay/src/main.rs:82-83 | Printed records parse back |
| `VideoRings.RecordOctets` | server/relay/srt-relay/src/main.rs:127-130 | The record octet by octet: number, length and timestamp in 8, 4 and 8 octets, least significant first, then the data |
| `VideoRings.VideoRingBuffer.AppendChunk` | server/relay/srt-relay/src/main.rs:110-135 | The four writes, stopping at the first failure, compute the reference append |
| `IlpWriters.RunConserves` | server/api/ingest/main.go:494-554 | Over every run of adds, ticks and network failures: the batches in order followed by the buffer are all added lines, each once; no batch is split, empty or oversized; every connection has taken whole batches in order and, once given up, at most a part of one more; the buffer is below the batch size after every operation |
| `IlpWriters.BatchesLeave` | server/api/ingest/main.go:494-554 | After every run: a tick empties the buffer into one batch, or does nothing if it is empty; a line that fills the batch does the same, and a line below the batch size is only buffered |
| `IlpWriters.MayArriveTwice` | server/api/ingest/main.go:517-536 | A line can reach the database twice although its batch is handed over once: an attempt breaks off after the first of two lines, and the batch is sent again |
| `IlpWriters.LineArrivals` | server/api/ingest/main.go:516-541 | A flush empties the buffer and hands each connection a piece from the start of its batch's text; each line is whole in exactly as many pieces as there are attempts, up to the first success, that get the text up to that line across; it arrives more than once exactly if two of them do, and at all exactly if one does, written or dropped; the connection is left open exactly after a success |
| `IlpWriters.BatchArrivals` | server/api/ingest/main.go:516-541 | The same for the whole batch: it arrives more than once exactly if two attempts up to the first success get all of it across, and a batch dropped as failed has arrived exactly if one of them did |
| `IlpWriters.TextReadsBack` | server/api/ingest/main.go:498-499 | The text of a batch splits back into its lines when none holds a newline (10) |
| `IlpWriters.IlpWriter.AddLine` | server/api/ingest/main.go:495-504 | The buffer stays the text of the lines it holds, `count` their number, and a full buffer is flushed |
| `IlpWriters.IlpWriter.Flush` | server/api/ingest/main.go:509-541 | Three attempts with reconnection compute the reference flush |
| `Escaping.EscapersAgree` | server/api/ingest/main.go:446-452 | The four-pass escaper equals the one-pass escaper on every string |
| `Escaping.EscapeIlpString` | server/api/shared/storage/questdb.go:205-223 | The one-pass loop computes the reference between quotes |
| `Escaping.QuotedReadsBack` | server/api/shared/storage/questdb.go:205-223 | An escaped string is read back whole up to its closing quote, whatever follows: no inner quote ends it early |
| `Escaping.ReadIsEscaped` | server/api/shared/storage/questdb.go:205-223 | Everything readable up to a closing quote is an escaper's result |
| `Escaping.NoLineEnds` | server/api/ingest/main.go:446-452 | No raw line end survives |
| `Escaping.EscapedOne` | server/api/shared/storage/questdb.go:205-223 | Quotes and backslashes get a backslash before them, line feed and carriage return become backslash n and backslash r, anything else stays |
| `Keys.RenamingUndone` | sdk/python/systemscale/operator.py:152-161 | Renaming '/' to '__' is undone on the results if and only if no '_' in the key is followed by '_' or '/' |
| `Keys.FlattenLastWins` | sdk/python/systemscale/stream/emit.py:42-51 | For any keys: the flat map is what putting the leaves in one by one under their full keys makes, the last one under a key winning |
| `Keys.FlattenKeepsLeaves` | sdk/python/systemscale/stream/emit.py:42-51 | For any keys: no leaf is lost if and only if no two leaves with different values have the same full key |
| `Keys.FlattenFaithful` | sdk/go/systemscale/stream/emitter.go:169-185 | For every path, the flat map holds a value under the joined path if and only if the nested data has that leaf there |
| `Keys.SplitUndoesJoin` | sdk/go/systemscale/stream/emitter.go:169-185 | Splitting a joined path at its slashes gives the path back if and only if no key on it has a slash |
| `Keys.SplitUndoesFlatten` | sdk/python/systemscale/stream/emit.py:42-51 | For any keys: splitting the flat key of a leaf at its slashes gives its path if and only if no key on the path has a slash and the path does not go down from an empty key |
| `Keys.SplitUndoes` | sdk/python/systemscale/stream/emit.py:42-51 | Splitting a flat key at its slashes gives the path of its leaf |
| `Keys.FlattenInjective` | sdk/go/systemscale/client.go:609-625 | Data with the same flat map have the same leaves under the same paths |
| `Keys.FlattenCounts` | sdk/go/systemscale/client.go:609-625 | For any keys: there are as many flat keys as leaves if and only if no two leaves have the same full key, and nonempty keys without slashes never do |
| `Keys.OtherKeysMerge` | sdk/go/systemscale/stream/emitter.go:169-185 | A key with a slash or an empty key can merge two leaves, an empty map leaves no trace, and different data can have the same flat map |
| `Keys.FlattenKeys` | sdk/go/systemscale/stream/emitter.go:169-185 | The filling loop computes the reference flattening |

## Left out

- Telemetry.EndToEnd: pushes and pops are atomic there, as the queue they implement; CleanDeliveriesDecode has their interleaved steps.
- Telemetry.InterleavedEndToEnd: no push starts on a full buffer; with laps frames can be lost, as LossExactly says, and CleanDeliveriesDecode holds.
- Keys.FlattenFaithful: keys are nonempty and without slashes, as the documented naming has them; what holds for any keys is stated by FlattenLastWins, FlattenKeepsLeaves and FlattenCounts.
- Keys.SplitUndoes: the same restriction; SplitUndoesFlatten is exact for any keys.
- Keys.FlattenInjective: the same restriction, which OtherKeysMerge shows to be needed.
- FastReaders.PeekDataEnvelope: a length that takes the 64-bit end offset out of order is one outcome, `Panicked`; for fields other than the vehicle id the Go code moves its cursor backwards instead.
- SendCommand.OneReplyPerCommand: identifiers are assumed fresh; refusals repeat an identifier the operator chose and are not counted; the fixed message texts are left out.
- RestAcks.NoLostWakeUp: an acknowledgement that arrived and expired before the request is gone, as in the code.
- Weak memory, the mapping of the ring file by two processes, and counters beyond 2^64: steps are sequentially consistent and counters unbounded.
- Cursor overflow in the Rust decoders is the outcome `Panicked`, as in a checked build.
- Well-formedness of UTF-8: repair is a function parameter, assumed to keep well-formed identifiers.
- The gateway's routing decoder and its event, alert and assistance decoders: the same loop as its frame decoder over fewer fields.
- Widening of 32-bit floats for JSON, packing of Python floats into 32 bits, and float formatting.
- Masking of what the WebSocket client sends, which section 5.1 of RFC 6455 requires and the code does not do.
- Allocation limits below 2^63 bytes in the WebSocket reader, and the opening handshake.
- Listeners that call back into the dashboard's manager from a status change, and messages arriving on its sockets.
- Sleeps, jitter, replay pacing and wall-clock time: timers fire at any moment.
- QUIC, TLS, NATS, gRPC, HTTP and database calls: ordered byte streams or steps that may fail.
- Tag-value escaping, JSON fields, MAVLink command tables and the remaining services: no harder than what is modelled.
