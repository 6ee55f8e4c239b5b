# Verified model of the greengrass-ipc client engine

The project models the EventStream RPC engine of the Greengrass IPC client: one socket, shared by any
number of concurrent callers, whose incoming frames one background loop hands out by stream-id. Four
layers are modelled, and the last two are linked.

- **Framing** (`Bytes`, `Frame`, `Transport`): the frame layout of `docs/WIRE_PROTOCOL.md`, typed headers,
  CRC-32; the framed reader as an object with a growing buffer and a decoder that remembers whether it has
  taken the prelude; the write half as an object that may break after any number of bytes.
- **Messages** (`RpcMessage`, `Messages`): message types, flag bits on signed 32-bit values, the parser as a
  loop with early exit, and the messages the client builds.
- **Demultiplexer** (`Demux`, `ReadLoop`, `Connection`, `Client`): the registry, the per-operation channels
  and the stream-id counter. The connection, its read loop, the handshake, the two halves of `request` and
  `subscribe`, and the event stream are imperative and proved against functions on the demultiplexer's state.
- **The whole client** (`System`, `Invariant`, `Preservation`, `Theorems`, `Stutter`, `Outbound`,
  `AfterTeardown`, `Witnesses`): a transition system of callers, read loop and socket in which one event is
  one atomic step: a region under the registry lock, taking or releasing the write lock, a partial write, a
  channel operation, a frame read. An invariant said of one operation at a time is preserved by every event,
  and the theorems hold of every reachable state.
- **The link between the two** (`Runs`, `Simulation`): every method of the connection and of the event
  stream, run undisturbed, ends in the state its events lead to and returns what the operation's phase says.
  The transition system interleaves these events freely.

Operations are numbered in the order they take stream-ids. `Bounded` says that fewer than 2^32 have been
started, which keeps ids distinct and different from 0, the connection's own stream: `StreamIdArithmetic`
shows that operation number 2^32 - 1, counting from 0, gets id 0 and the one after it the first id again.
`IdTakenExactlyWhen` says when an id is in use beyond the bound, `CollisionDropsTheOlderSink` what happens
then, and `CollisionIsReachable` that it does. Within the bound the theorems are for any interleaving, any
frames from the peer and any point of failure; `WellFormed`, `InertReadsStutter` and the runs of `Simulation`
need no bound.

## Facts of the code that differ from its documentation

- `src/client.rs:33-34` says the subscribe handshake is bounded by the request timeout. It is not
  (`src/connection.rs:219`): `WaitEndsExactlyWhen` says that a request's wait always has an end and a
  subscription's exactly while an item is queued, `StuckExactlyWhen` which operations of all do not go on by
  themselves.
- `src/connection.rs:273-275` says that whatever ends the read loop fails every operation in flight. It
  fails those registered before the drain: `WaitersReleasedExactlyWhenRegisteredBefore` is the exact
  condition, `SubscribeAfterTeardownHangs` a reachable counterexample, `LateWaiterNeverReturns` its
  consequence.
- `src/connection.rs:71-72` says the read loop shares the write half to shut it down on a connection-level
  error. It never does, so writes go on succeeding after such an error; the counterexample above uses this.
- `src/connection.rs:38` says `Ok(None)` means a clean end of file. End of file in the middle of a frame
  gives the same: `Transport.FramedReader.NextFrame`.
- A payload that fails to serialize leaves its sink in the registry (`src/connection.rs:170`, `211`), and
  so does a dropped caller future. `RegisteredExactlyWhen` is the exact condition, `OrphansStay` says for how
  long, and `SerializationOrphanExists` and `AbandonedOrphanExists` are reachable states of both kinds.
- `src/connection.rs:179` says that a request whose sender was dropped has lost its connection. Beyond the
  id bound it may have lost its stream-id to another operation instead: `CollisionIsReachable`.
- `docs/WIRE_PROTOCOL.md:48-49` allows a ConnectAck on stream 0 only; the handshake does not look at the
  ack's stream-id: `AckStreamIdIsNotChecked`.

## Model

| member | source | states |
|---|---|---|
| Bytes.Wrap32Unique | src/connection.rs:152-154 | wrapping to `i32` is the only value of that type congruent modulo 2^32 |
| Bytes.ReadBe32Bytes | docs/WIRE_PROTOCOL.md:25-27 | integers on the wire stand most significant byte first |
| Bytes.CrcCheckValue | docs/WIRE_PROTOCOL.md:25-27 | the checksum is CRC-32: its published check value comes out for the digits 1 to 9 |
| Bytes.Utf8ExactlyWhen | docs/WIRE_PROTOCOL.md:28-31 | text passes exactly if it is the UTF-8 encoding of a sequence of Unicode characters |
| Frame.FrameLayout | docs/WIRE_PROTOCOL.md:19-27 | lengths, headers, payload and both checksums of an encoded message stand where the layout puts them |
| Frame.HeaderLayout | docs/WIRE_PROTOCOL.md:28-31 | name length, name, type number and value of every header stand where the layout puts them, integers in two's complement and most significant byte first |
| Frame.ValueRoundTrip | docs/WIRE_PROTOCOL.md:28-31 | every typed header value is decoded back from its encoding, whatever follows it |
| Frame.HeadersRoundTrip | docs/WIRE_PROTOCOL.md:28-31 | every encodable header list is decoded back exactly |
| Frame.FrameRoundTrip | docs/WIRE_PROTOCOL.md:19-27 | an encoded message declares its own length and decodes to itself |
| Frame.DecodesExactlyWhen | docs/WIRE_PROTOCOL.md:19-27 | bytes decode to a message exactly if they are its encoding; a wrong length, checksum, header or text is rejected |
| Frame.FirstFrameMonotone | src/connection.rs:39-55 | a decoder verdict never changes when more bytes arrive; only an incomplete frame waits |
| Frame.FirstFrameExactlyWhen | src/connection.rs:39-55 | a frame is at the front exactly if the encoding of a message is; the decoder waits exactly as long as the prelude, or what it declares, is not there |
| Frame.CutExactlyWhen | src/connection.rs:39-55 | a stream is cut into exactly those frames whose encodings, and a rest that opens with none, it is made of |
| Frame.FramesOfEncoded | src/connection.rs:21-55 | frames encoded one after another come back in order, whatever stands behind them |
| Frame.ProperPrefixIsPartial | src/connection.rs:50-53 | a frame cut short is still only the beginning of a frame |
| Frame.LeftoverIsNoFrame | src/connection.rs:50-53 | what is left over at the end of input is a suffix of it that holds no whole frame, and is defective exactly if decoding failed |
| Transport.FramedReader.DecodeFrame | src/connection.rs:39-48 | the stateful prelude-then-rest decoder takes exactly the first frame of the bytes held, or nothing |
| Transport.FramedReader.NextFrame | src/connection.rs:39-55 | the outcome depends on the unread bytes alone, not on how reads cut them; nothing behind the frame is lost; end of input in mid-frame is `None` |
| Transport.WriteHalf.WriteFrame | src/connection.rs:416-422 | a frame goes out whole or, if the socket breaks, a proper prefix of it does |
| Transport.WriteHalf.WriteMessage | src/connection.rs:245-268 | as for a frame, and exactly a failed write shuts the write half down |
| RpcMessage.FromI32Inverts | src/eventstream/mod.rs:32-46 | a number is a message type exactly if it is in 0..7, and each type is inverse to its number |
| RpcMessage.TypeNumbers | src/eventstream/mod.rs:20-46 | which number is which message type |
| RpcMessage.FlagTests | src/eventstream/message.rs:23-30 | the two masked tests read bits 0 and 1 of the two's complement flags, negative flags included |
| RpcMessage.RpcFlags | src/eventstream/message.rs:22-30 | a message terminates its stream exactly by bit 1 of its flags, and accepts the connection exactly by bit 0 |
| RpcMessage.ProtocolTexts | src/eventstream/headers.rs:3-24 | every header name and fixed text is spelled as the protocol spells it |
| RpcMessage.FieldOfSpelled | src/eventstream/message.rs:93-110 | a header selects a variable of the parser exactly by the spelling of its name |
| RpcMessage.HeaderI32ExactlyWhen | src/eventstream/message.rs:138-156 | an integer header yields n exactly if it is Byte, Int16, Int32 or Int64 of that value in 32-bit range, and which error it yields otherwise |
| RpcMessage.Parse | src/eventstream/message.rs:87-124 | the loop with early exit computes the declarative parse of every header list |
| RpcMessage.ParsesExactlyWhen | src/eventstream/message.rs:87-124 | parsing yields a message exactly if no integer header is bad and the last headers of each spelled name, by their values on the wire, say so, flags and stream-id defaulting to 0 |
| RpcMessage.TypeErrorsExactlyWhen | src/eventstream/message.rs:112-115 | otherwise, with no bad integer, the error is a missing message type exactly if none is there, or the unknown number that is there |
| RpcMessage.ParseSucceedsExactlyWhen | src/eventstream/message.rs:87-124 | parsing succeeds exactly when every integer field decodes and the last message type is in 0..7, and then yields the last setters with their defaults |
| RpcMessage.LastSetterIsLast | src/eventstream/message.rs:93-111 | the setter a field is read from is the last one in the list, and there is none exactly if no header sets the field |
| RpcMessage.FirstFaultIsFirst | src/eventstream/message.rs:93-104 | of several bad integer headers the first one's error, out of range for an Int64 and not an integer for any other type, is what parsing returns |
| RpcMessage.ParseByField | src/eventstream/message.rs:93-111 | header lists that agree field by field parse alike, so the order of headers of different fields does not matter; only which error is reported may differ, exactly if the first bad header does |
| RpcMessage.UnknownHeaderIgnored | src/eventstream/message.rs:109-110 | inserting an unknown header anywhere changes nothing, neither a result nor an error |
| RpcMessage.HeadersOfDifferentFieldsCommute | src/eventstream/message.rs:93-111 | neighbouring headers of different fields may change places, exactly unless both are bad and none before them is: then the error is that of the other |
| RpcMessage.IntegerWidthIrrelevant | src/eventstream/message.rs:138-156 | any header may be re-encoded among Byte, Int16, Int32 and Int64 of the same value without changing result or error |
| Messages.ConnectParses | src/eventstream/message.rs:33-40 | a Connect message parses to type, flags, stream 0 and its payload |
| Messages.ActivateParses | src/eventstream/message.rs:43-59 | an activate message parses to its type, stream-id, model and payload |
| Messages.TerminateParses | src/eventstream/message.rs:62-70 | a terminate message parses to an empty application message with the terminate flag |
| Messages.PingResponseParses | src/eventstream/message.rs:76-84 | a ping response parses to stream 0 and the echoed payload |
| Messages.HeaderBlocks | src/eventstream/message.rs:33-84 | the header block of every built message, name by name and value by value as the protocol spells them, and its payload |
| Messages.TextHeadersOfRequests | src/eventstream/message.rs:33-59 | the headers only the nucleus reads carry the operation, the model, the content type and the protocol version |
| Messages.BuiltMessagesSurviveTheWire | src/eventstream/message.rs:33-84 | each built message, encoded, decoded and parsed by a peer, yields every field again; a terminate message always fits a frame |
| Messages.ActivateEncodable | src/connection.rs:245-247 | an activate message within the size limits of names and payload always encodes |
| Demux.ItemReports | src/connection.rs:362-370 | a sink is sent a message as it is, or an application error as a service error with its own model, or the default one, and its payload |
| Demux.DeliveryReports | src/connection.rs:353-387 | item by item a delivery reports the stream's messages in order, up to the first that is final by its type or flag, for a request up to the first |
| Demux.DeliveryShape | src/connection.rs:362-381 | a delivery is non-terminating messages and then at most one final one; errors in it are service errors; no Ok item is an application error |
| Demux.DeliverySnoc | src/connection.rs:361-386 | one more message reaches the sink unless an earlier one closed it |
| Demux.DispatchAllByStream | src/connection.rs:353-387 | a run of dispatches sends every registered sink the delivery of its own stream's messages, keeps it registered exactly while that is unfinished, and changes nothing else |
| Demux.InterleavingIndependence | src/connection.rs:353-401 | runs of dispatches whose messages are equal on every stream leave equal registries and channels, also after teardown; with callers in between see `Theorems.InterleavingIndependence` |
| Demux.DispatchesCommute | src/connection.rs:353-387 | dispatches on different streams commute |
| Demux.UnknownStreamIgnored | src/connection.rs:383-385 | a message changes nothing exactly if its stream has no sink |
| Demux.DrainStep | src/connection.rs:389-401 | failing one sink now and the rest later is the whole teardown |
| Connection.Connection.AllocStreamId | src/connection.rs:152-154 | hands out the counter's old value, wraps it on, and numbers the operation |
| Connection.Connection.Dispatch | src/connection.rs:353-387 | remove, send and reinsert together are one `Demux.Dispatch` |
| Connection.Connection.FailAll | src/connection.rs:389-401 | draining the registry sink by sink, in any order, is `Demux.FailAll` |
| Connection.Open | src/connection.rs:163-175 | the first half of both calls: sink in, frame out as far as the socket takes it; a failed encode or write takes the sink out, a payload that does not serialize leaves it in; every error drops the receiver |
| Connection.AwaitReply | src/connection.rs:177-190 | an answer that is there wins; a sender gone without one is `ConnectionClosed`; otherwise the timeout, and only that, takes the sink out |
| Connection.TakeAck | src/connection.rs:219-235 | the first item is consumed; anything but an acknowledgement, a vanished sender included, takes the sink out and is returned as an error |
| Connection.CloseStream | src/connection.rs:239-243 | the sink is removed and a terminate frame written; a write error is ignored |
| Connection.Connect | src/connection.rs:92-142 | the handshake's outcome is a function of the unread bytes, and on success the reader holds exactly what follows the ack |
| Connection.HandshakeSucceedsExactlyWhen | src/connection.rs:103-120 | success exactly on a whole, parsable ConnectAck with bit 0 of the flags set |
| Connection.HandshakeByCases | src/connection.rs:103-120 | what each other first frame, or its absence, makes the handshake fail with |
| Connection.HandoffIsLossless | src/connection.rs:103-131 | all whole frames pipelined behind the ack are decoded by the read loop, and the beginning of one more is kept |
| Connection.ConnectAndServe | src/connection.rs:92-131 | handshake and read loop on one reader: the connection ends up as the frames behind the ack say, and the replies to them stand behind the Connect frame |
| Connection.AckStreamIdIsNotChecked | src/connection.rs:108-120 | an accepted ConnectAck opens the connection whatever its stream-id |
| Connection.HandleFrame | src/connection.rs:283-295 | parse, then dispatch or handle on the connection level; an unparsable frame is skipped; the loop is to end exactly after a stream-0 ProtocolError or InternalError |
| Connection.HandleProtocolMessage | src/connection.rs:315-351 | a ping is answered with its payload; exactly the two error reports end the loop |
| Connection.Loop | src/connection.rs:276-310 | run alone, in whatever chunks the bytes come, the loop dispatches the frames up to the first error report or the end of input and writes the replies to their pings as far as the socket takes them; then it fails every registered sink and publishes `closed` |
| ReadLoop.FramesMean | src/connection.rs:283-350 | which frames, by what they parse to, end the loop, are answered and with what, are dispatched, discarded or skipped, and which are inert |
| ReadLoop.RunMeans | src/connection.rs:276-310 | a run of frames comes to the dispatches of those up to the first error report, and the replies to their pings, in order |
| ReadLoop.FrameReaches | src/connection.rs:353-387 | one frame adds one item to at most one channel, never grows the registry and shrinks it by at most one |
| ReadLoop.FatesAddUp | src/connection.rs:284-294 | frames read = unparsable + connection-level + discarded + delivered |
| Stutter.InertReadsStutter | src/connection.rs:284-350 | leaving exactly the frames that are inert when read out of any run of callers, socket and read loop leaves a run that ends in the same registry, channels, counter, socket, reader, pings and operations |
| Client.FinishSubscribe | src/client.rs:147-160 | an acknowledgement as first item becomes a fresh event stream for everything sent after it; a queued error comes back as it is, an application error with its own model and payload, nothing at all as `ConnectionClosed`, and the sink is out |
| Client.AccountsSurvive | src/client.rs:396-402 | no dispatch, teardown, allocation, insertion or removal, and no receiving or closing by another operation, upsets the account of what an event stream was given |
| Client.EventStream.PollNext | src/client.rs:409-416 | yields the queued items in order, and ends once the queue is empty and the sender gone |
| Client.EventStream.Drop | src/client.rs:419-431 | the close task is spawned exactly the first time |
| Client.DropAndClose | src/client.rs:419-431 | dropping removes the sink and writes one terminate frame, or what the socket takes of it, once |
| Simulation.Connect | src/connection.rs:92-142 | a successful handshake leaves a new connection in the initial state of the transition system |
| Simulation.Open | src/connection.rs:163-175 | the first half of a call is the run of allocation, insertion, serialization, lock, partial writes and removal that its outcome asks for, and returns what the phase says |
| Simulation.AwaitReply | src/connection.rs:177-190 | the second half of a request is a reply, or timeout and removal, or a vanished sender, whoever holds the write lock, and returns the outcome the operation then has |
| Simulation.TakeAck | src/connection.rs:219-237 | the second half of `subscribe` is the acknowledgement, or a failure and the removal, whoever holds the write lock; its result is the consumed item or the outcome |
| Simulation.FinishSubscribe | src/client.rs:147-160 | finishing `subscribe` is the run of taking the acknowledgement: it yields the event stream of the streaming operation, or the error that is its outcome |
| Simulation.CloseStream | src/connection.rs:239-243 | the close task is removal, lock and the write of the terminate frame |
| Simulation.PollNext | src/client.rs:409-416 | a poll takes one item as the event `Poll` does, or is no event; it ends exactly if the sender is gone |
| Simulation.Drop | src/client.rs:419-431 | dropping the event stream is the event `Drop` the first time, and no event afterwards |
| Simulation.HandleFrame | src/connection.rs:283-332 | one turn of the loop is the event `Read` and, for a ping, lock and write of the reply; other frames are handled whoever holds the write lock |
| Simulation.Serve | src/connection.rs:276-310 | the whole loop over the bytes on the wire is a run of reader events that reads exactly the frames up to the end or the first error report and tears down |
| Theorems.EventsAreLockRegions | src/connection.rs:165-401 | every event changes the demultiplexer by at most one lock region; an operation's other acts and the failure of its write only receive from or close its own channel |
| Preservation.InvStep | src/connection.rs:157-401 | every event of any caller, of the read loop or of the socket preserves the invariant |
| Preservation.ReachableInv | src/connection.rs:157-401 | every reachable state within the id bound satisfies the invariant |
| Preservation.ActLeavesOthers | src/connection.rs:163-243 | no act of one operation changes anything that concerns another |
| Preservation.SenderNeverGone | src/connection.rs:179-180 | the arms for a sender that vanished without sending are unreachable |
| Theorems.StreamIdArithmetic | src/connection.rs:137-154 | the k-th id is the wrap of 1+k; ids collide exactly at multiples of 2^32, the first 2^31-1 are positive, 0 first comes as number 2^32-1 |
| Theorems.NextIdCountsAllocations | src/connection.rs:152-154 | in every reachable state the counter is where the number of allocations says |
| Theorems.RegistryEntriesAreOwn | src/connection.rs:165-184 | within the bound an insertion never replaces a sink and a removal never takes another operation's |
| Theorems.IdTakenExactlyWhen | src/connection.rs:152-168 | with any number of operations, the id of one about to insert its sink is in use exactly if an operation a multiple of 2^32 away is registered |
| Theorems.CollisionDropsTheOlderSink | src/connection.rs:152-180 | then the insertion silently replaces the live sink, and a waiter with nothing queued finds its sender gone |
| Witnesses.CollisionIsReachable | src/connection.rs:152-180 | such a state is reached by a request that waits while 2^32 further operations take ids |
| Theorems.DeliveryRefinesProjection | src/connection.rs:353-401 | in every reachable state what was sent to a sink is the delivery of the frames read on its stream between registration and removal, plus `ConnectionClosed` exactly if teardown found it open |
| Theorems.InterleavingIndependence | src/connection.rs:353-401 | two reachable states of the same calls at the same teardown point, with the same insertions and removals, in which every sink saw the same messages on its stream, have equal registries and equal channel histories |
| Theorems.ChannelShape | src/connection.rs:219-223 | channels are non-final items and at most one final one, after which the sink is gone; `subscribe`'s application-error arm is dead |
| Theorems.AtMostOneAnswer | src/connection.rs:362-370 | no request is ever answered twice across dispatch, timeout, write failure and teardown |
| Theorems.NoEventLostOrDuplicated | src/connection.rs:203-235 | `subscribe` consumed exactly the first item; what was yielded, then what is queued, is exactly the rest |
| Theorems.DroppedStreamGotAPrefix | src/client.rs:409-431 | a dropped event stream yielded a prefix of what followed the acknowledgement |
| Theorems.OutcomesAreFinal | src/connection.rs:177-190 | no event changes the outcome of a returned operation |
| Theorems.LateRepliesAreDiscarded | src/connection.rs:181-189 | a frame for a stream its owner has given up changes neither registry nor channels |
| Theorems.TimeoutExactlyWhenUnanswered | src/connection.rs:177-190 | a waiting request can time out exactly if nothing has ever been sent to it, and its sink is then registered; otherwise its one answer is there for it |
| Theorems.TimedOutIsRemoved | src/connection.rs:181-189 | a timed-out request is out of the registry for good |
| Theorems.RegisteredExactlyWhen | src/connection.rs:165-241 | exactly when an operation is registered, by its phase and its stream; of operations that are over exactly those that failed to serialize or were dropped stay behind |
| Theorems.OrphansStay | src/connection.rs:165-216 | such an orphan stays registered over every event but teardown and a frame on its stream |
| Witnesses.SerializationOrphanExists | src/connection.rs:165-170 | a state is reachable in which a call returned a serialization error and its sink is registered |
| Witnesses.AbandonedOrphanExists | src/connection.rs:165-177 | a state is reachable in which a dropped call has its sink registered |
| Theorems.TeardownIsComplete | src/connection.rs:307-310 | after teardown what is registered was inserted later; every other sink finished, was removed by its owner, or got `ConnectionClosed` last; `closed` comes only then |
| Theorems.FailedByTeardownOnly | src/connection.rs:389-401 | no other event than the teardown fails an operation, it fails exactly those registered, and exactly those are sent `ConnectionClosed` by it |
| Theorems.FailedExactlyWhen | src/connection.rs:307-401 | a sink its owner has not taken out was failed exactly if teardown came after its insertion and before it finished |
| Theorems.TeardownIsFinal | src/connection.rs:145-150 | `closed` never reverts, and nothing is read or dispatched after teardown |
| Theorems.WaitersReleasedExactlyWhenRegisteredBefore | src/connection.rs:273-310 | after teardown a waiting caller finds an item exactly if it registered before it |
| Outbound.PeerDecodesTheFramesWritten | src/connection.rs:245-268 | for any interleaving of chunked writers a peer decodes exactly the frames written, in lock order, and the leftover is what the current or failed writer has put out |
| Outbound.DecodedIsWire | src/connection.rs:245-268 | what a peer decodes is the frames completed and the one whose last byte is out; all are activate frames, terminate frames and ping replies |
| Outbound.OnStreamIsByOp | src/connection.rs:171-242 | the frames carrying a stream-id are those its own operation wrote |
| Outbound.OutboundGrammar | src/connection.rs:195-243 | a peer decodes on a stream nothing, an activate, or an activate and one terminate, exactly as the phase of its operation and a frame whose last byte is out say; a terminate only after a successful `subscribe`, never for a request |
| Outbound.NoStrayStreams | src/connection.rs:152-172 | a peer decodes no frame on any other stream than 0 and those handed out |
| Outbound.OutcomesAreExplained | src/connection.rs:177-190 | every returned outcome is the channel's first item, or the timeout of a request, or the failure of its own serialization, encoding or write; and a peer decodes the activate frame unless the call failed before its last byte was out |
| Outbound.RepliesAreToOwnRequest | src/connection.rs:353-387 | against a nucleus that answers frames it has decoded on their own stream, every item an operation gets reports, with its own payload and model, an answer to its own activate frame, even before the writer has released the lock |
| Outbound.RequestsReturnTheirOwnReply | src/connection.rs:157-191 | so a request returning Ok or a service error returns the reply to its own request |
| Outbound.PingFidelity | src/connection.rs:315-332 | the ping replies a peer decodes are, in order, the payloads of the pings read, all but one in progress unless the socket broke |
| Outbound.PingsAndInertFramesChangeNothingElse | src/connection.rs:319-350 | a ping or an inert frame touches neither registry, channels nor `closed` |
| Outbound.FramesAreConserved | src/connection.rs:284-294 | over every interleaving the fates of the frames read add up, and every channel holds exactly its own deliveries |
| AfterTeardown.LateWaiterNeverReturns | src/connection.rs:206-219 | an operation whose sink went in after teardown waits for ever, short of a request's timeout or its caller giving up |
| AfterTeardown.OnlyAnItemEndsTheAckWait | src/connection.rs:218-234 | nothing but an item, or its caller giving up, ends `subscribe`'s wait for the acknowledgement |
| AfterTeardown.WaitEndsExactlyWhen | src/connection.rs:177-235 | a waiting operation can go on without its caller giving up exactly if it is a request, which has a timeout, or an item is queued |
| AfterTeardown.StuckExactlyWhen | src/connection.rs:157-268 | with the write lock free, the operations that do not go on by themselves are exactly those that are over and the subscriptions waiting on an empty queue |
| AfterTeardown.HeldLockIsReleased | src/connection.rs:245-268 | a holder of the write lock can always release it by its own steps, having written its whole frame if the socket works |
| AfterTeardown.SubscribeAfterTeardownHangs | src/connection.rs:206-219 | a state is reachable in which the connection is closed and a subscription waits like that |
| AfterTeardown.CallsReachWaiting | src/connection.rs:163-177 | from any reachable state with an idle, unbroken socket a new call gets as far as waiting |

## Left out

- The typed operation methods of the client and the shapes under `src/model/`: one-line wrappers. Payloads are byte sequences, and serializing one succeeds or fails.
- JSON decoding of responses and events, and the message text of a service error, which is read from the payload the error carries here; events are the raw messages.
- Base64 blobs, environment discovery, logging, `Display` and `Clone` of errors.
- The frame crate's own error kinds: every decoding failure is one error. Header text is bytes with a UTF-8 check, since Rust's string type guarantees it; the header value encoding is that of the Amazon event stream format.
- Sockets, scheduling, clocks and wakers: reads deliver arbitrary non-empty chunks and then end of file or an error, a timeout is an event enabled while a request waits with nothing queued, flushing is part of writing, and a socket that failed a write stays broken.
- A caller future dropped in the middle of a write, and a `Connection` dropped while its read loop runs. Futures dropped while waiting for the write lock or for an answer are modelled.
- Progress under back-pressure: that the read loop eventually gets the write lock for a ping reply.
- Connection.Loop: is proved for a run without other callers in between, and so are the other methods; each is a run of events by `Simulation`, and the interleavings of events are those of the transition system.
- PingFidelity: counts only pings whose answer fits a frame; the others are logged and skipped by the code.
