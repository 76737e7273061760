# sansrpc, verified

A Dafny model of the sans-IO RPC stack sansrpc, with proofs about every schedule of calls.
`dafny verify dfyconfig.toml` checks the whole project (Dafny 4.11).

The stack has three layers, and the proofs are stacked the same way:

1. **Framed connection state** (`ConnectionState`, `Reader`, `Writer`, `Pipe`). Items become frames, an 8-byte
   little-endian length followed by the payload, in a bounded writer; a bounded reader turns arbitrary chunks back
   into items. `Wire` holds the format and the batch parser everything is measured against. `Pipe` joins a writer,
   bytes in transit and a reader and shows that every interleaving refines a FIFO queue of items.
2. **Poll drivers** (`TokioConnection`, `CompioConnection`). The classes run the loops of `poll_next`, `poll_ready`,
   `start_send`, `poll_flush` and `poll_close`. `Io` stands for the outside: a future that is polled gives pending, a
   result, or a failure, nondeterministically, over a byte source and a byte sink. `Chunking` says exactly when the
   refused-feed branch of the drivers can be reached, `DecodeErrors` what is lost behind a frame that does not decode.
3. **Service router** (`Router`, `Network`, `Service`, `Serving`, `Submissions`, `RequestRouting`, `StreamRouting`,
   `NetworkSafety`, `Waiters`, `Receivers`). The class `SansService` routes requests, responses and streams by id; its methods are
   proved to be actions of a node in a network of two endpoints with a FIFO channel each way, which is shown safe in
   every run.

Two compositions join the layers. `Drivers` closes a sink and lets both read drivers collect what it wrote: they
return the encodable items started on it. `Stack` replaces both channels of the network by framed pipes and shows that
each run is a run of that network; `Realization` shows the converse for messages whose frames fit.

How the model is set up:

- The coder is a pair of function values. `Faithful` is what the bincode and JSON coders provide: the length is the
  payload's length, and decoding undoes encoding. Both may fail.
- The read side is specified by bounded parsing (`ParseUpTo`), the write side by the longest encodable run of the
  queue (`GoodRun`), not by the loops that compute them.
- A call in which a driver's loop would repeat for ever on an unchanged state returns `Spins`; the contract of
  `PollNext` says that its state is then exactly a state from which it returns `Spins` again.
- A finished future is not polled again: `CanPollNext`, `CanPollSink` and `CanPoll` are the panics of doing so. An I/O
  error is such an end.
- `NextMessage` is one poll of the `next_message` future, over the outcomes its `select!` resolves to; `Waiting` means
  that the future is pending. Other tasks of the endpoint (handles, reply and stream senders) act between polls, the
  peer at any time.
- Theorems about one endpoint are stated for endpoint `a`; the two are alike.
- The outside keeps a record of what its futures answered, so that contracts can say which answer a result comes from.
  An `eager` source has arrived as a whole, and an `eager` writer takes everything; any other is arbitrary.
- Channel ends (`oneshot::Sender`, `UnboundedSender`) are numbers, and what comes out of them is a log.

Places where the code does not do what its documentation or its use promises, each proved:

- A frame longer than the receive buffer can block a connection for good. `Pipe.DrainableIffFramesFit` gives the exact
  condition on the items, `Chunking.RefusalIffOversized` the one on the bytes a driver reads. On such a stream the
  tokio driver loops for ever, and the compio driver keeps `buf[..fed]`, which is empty, so it throws the chunk away
  (`sansrpc-compio/src/lib.rs:110` and `:179`). Both `PollNext` contracts refer to the same chunks as that condition.
- Items decoded in front of an undecodable frame are not all delivered: `poll_next` returns the error before it pops
  what is queued. What is lost in any run, however the source was cut into chunks, is the end of the batch of items
  that the last chunk read has completed: `queueSize - 1` of them, or all if there are fewer. So nothing is lost
  exactly when that chunk completed no item or the queue holds a single one (`PollNext` and `Collect` of both
  drivers). Over all ways of reading a source that fits, `DecodeErrors.NothingLostIff` gives the exact condition on
  the source; `Drivers.TokioLoses` and `Drivers.CompioLoses` are runs that lose items.
- `available_space` is documented as the free space in items and is always 0 (`AvailableSpace`).
- A response reaches the waiter of its own request only while request ids are distinct. `Waiters.LosesNoneIffIdFree`
  gives the exact condition: submitting a request under an id can lose no waiter of that id if and only if no request
  under it is outstanding. `Waiters.DuplicateIdMisdelivers` is a run in which, besides, the reply to the first request
  goes to the waiter of the second one and the second reply is dropped. `Waiters.WaiterFate` holds of every run, with
  distinct ids or not.
- Stream ids, likewise: `Receivers.DisplacesNoneIffIdUnused` gives the exact condition for opening a stream without
  displacing a receiver, and in `Receivers.DuplicateIdMisdelivers` an item of the first stream goes to the receiver of
  the second.

## Model

| member | source | states |
|---|---|---|
| Wire.LeRoundTrip | sansrpc-proto/src/connection_state.rs:213 | reading back a little-endian length gives the number written |
| Wire.LeRoundTripBack | sansrpc-proto/src/connection_state.rs:292 | writing back a length that was read gives the same bytes: the header codec is a bijection |
| Wire.LittleEndian | sansrpc-proto/src/connection_state.rs:292 | the byte at position i of a written length is its multiple of 256 to the i, modulo 256: least significant byte first |
| Wire.LaterBytesWeighMore | sansrpc-proto/src/connection_state.rs:213 | a length is read as a positional sum in which later bytes weigh more |
| Wire.FrameLayout | sansrpc-proto/src/connection_state.rs:292-294 | a frame, byte by byte: the eight bytes of the payload's length, least significant first, and the payload |
| Wire.PeekLayout | sansrpc-proto/src/connection_state.rs:209-225 | what is recognised at the front of a buffer, in terms of its first eight bytes and of what the coder makes of the bytes behind them |
| Wire.WireSnoc | sansrpc-proto/src/connection_state.rs:289-294 | one more item adds its frame to the wire and itself to the items sent, or nothing to either when it does not encode |
| Wire.ParseAppend | sansrpc-proto/src/connection_state.rs:203-227 | parsing bytes in two parts, keeping the rest of the first, yields the same items and the same rest as parsing them at once |
| Wire.ParseUpToIsPrefix | sansrpc-proto/src/connection_state.rs:203-227 | bounded parsing takes the first frames of the batch parse, as many as wanted or there, leaves the others for later, and shrinks the buffer by at least 8 bytes a frame |
| Wire.ParseWire | sansrpc-proto/src/connection_state.rs:289-294 | parsing what the writer frames gives back exactly the encodable items, with nothing left over |
| Wire.FramesArePrefixFree | sansrpc-proto/src/connection_state.rs:209-217 | no proper prefix of a frame is taken for a frame |
| Wire.UniquelyDecodable | sansrpc-proto/src/connection_state.rs:289-294 | two item sequences have equal wire bytes if and only if their encodable items are equal |
| Wire.WireIsFifo | sansrpc-proto/src/connection_state.rs:178-297 | any received prefix of the written bytes parses to a prefix of the items sent, and to all of them when complete |
| Wire.WrittenIsReadable | sansrpc-proto/src/connection_state.rs:188-227 | what a writer has written fits the reader's buffer if the frames do, for every received prefix, and parses to the items sent |
| ConnectionState.ConnectionReadState.ConsumeItem | sansrpc-proto/src/connection_state.rs:183-185 | pops the oldest queued item, or nothing from an empty queue, and leaves the buffer alone |
| ConnectionState.ConnectionReadState.FeedBytes | sansrpc-proto/src/connection_state.rs:188-200 | takes the chunk whole unless the buffer is full, then none of it, and reports how much |
| ConnectionState.ConnectionReadState.Process | sansrpc-proto/src/connection_state.rs:203-227 | the loop moves the frames bounded parsing yields into the queue, keeps it within its size, and fails exactly on an undecodable frame met with a slot free |
| ConnectionState.GoodRun | sansrpc-proto/src/connection_state.rs:289-290 | the length of the longest run of items at the front of the queue that all encode |
| ConnectionState.ConnectionWriteState.AvailableSpace | sansrpc-proto/src/connection_state.rs:235-238 | is 0 always, so it is the free space in items exactly when the queue is full |
| ConnectionState.ConnectionWriteState.ConsumeBytes | sansrpc-proto/src/connection_state.rs:241-256 | hands over the first bytes, at most as many as asked for, and keeps the rest |
| ConnectionState.ConnectionWriteState.ConsumeAll | sansrpc-proto/src/connection_state.rs:259-269 | hands over the whole buffer and empties it |
| ConnectionState.ConnectionWriteState.FeedItem | sansrpc-proto/src/connection_state.rs:272-279 | queues the item, or hands it back when the queue is full |
| ConnectionState.ConnectionWriteState.Process | sansrpc-proto/src/connection_state.rs:286-297 | the loop frames the items up to the first refused one, drops that one, keeps the later ones queued, and fails exactly when there is one |
| Reader.IncrementalEqualsBatch | sansrpc-proto/src/connection_state.rs:182-227 | for every schedule of feeds, processing and popping: popped, queued and still parsable items are the batch parse of all accepted bytes, with the same rest |
| Reader.ProcessExactly | sansrpc-proto/src/connection_state.rs:203-227 | processing moves exactly min(free slots, complete frames) in order, ends with a full queue or no complete frame, is idempotent, and fails exactly when a bad frame is reached with a slot free |
| Reader.BadFrameIsFinal | sansrpc-proto/src/connection_state.rs:219-227 | after a decode error no later schedule gets past the offending frame; the items obtainable are exactly the frames before it |
| Reader.LostBehindError | sansrpc-tokio/src/tcp.rs:75-81 | from any read side with a bad frame in its buffer, any number of polls returns the items in front of it except the last queueSize - 1, which stay queued behind the error for good; so all are returned if and only if there are none or queueSize is 1 |
| DecodeErrors.ErrorSeesAll | sansrpc-proto/src/connection_state.rs:203-227 | however a source was cut, a driver that meets its bad frame has parsed exactly the items in front of it |
| DecodeErrors.NothingLostIff | sansrpc-tokio/src/tcp.rs:75-81 | over every way of reading a source that fits, in chunks of at most a given size, nothing is lost behind its bad frame if and only if queueSize is 1, there are no items in front, or a chunk has no room for the bad frame and a byte before it |
| Reader.BoundsHold | sansrpc-proto/src/connection_state.rs:188-206 | over every schedule the queue stays within its size and the buffer below its size plus the largest chunk |
| Reader.Perform | sansrpc-proto/src/connection_state.rs:182-227 | any calls on a read state, one after the other, are the run the theorems speak of |
| Writer.WriterConserves | sansrpc-proto/src/connection_state.rs:241-297 | for every mix of calls, bytes handed out followed by bytes buffered are the frames of the items no longer queued, in order; a refused item adds nothing and the queue is the suffix still to come |
| Writer.Perform | sansrpc-proto/src/connection_state.rs:241-297 | any calls on a write state, one after the other, are the run the theorems speak of |
| Pipe.NothingLostOrReordered | sansrpc-proto/src/connection_state.rs:183-297 | over every interleaving of writer, transit and reader steps, consumed items and those under way are exactly the encodable accepted ones, in order |
| Pipe.RefinesQueue | sansrpc-proto/src/connection_state.rs:183-297 | every call is a push, a pop or no change of one FIFO queue of items |
| Pipe.NeverHeavier | sansrpc-proto/src/connection_state.rs:183-297 | no call but feeding an item raises the weight of what is under way |
| Pipe.MoveHelps | sansrpc-proto/src/connection_state.rs:188-227 | with frames that fit, while anything is under way some call strictly lowers the weight: a full buffer holds a whole frame and a full queue can be popped |
| Pipe.Drain | sansrpc-proto/src/connection_state.rs:183-297 | with frames that fit, a schedule no longer than the weight delivers everything accepted |
| Pipe.Bring | sansrpc-proto/src/connection_state.rs:188-227 | with frames that fit, whatever is under way can be brought into the reader's queue without consuming an item |
| Pipe.OversizedFrameBlocks | sansrpc-proto/src/connection_state.rs:189-191 | one item whose frame exceeds the receive buffer can block the pipe for every continuation |
| Pipe.DrainableIffFramesFit | sansrpc-proto/src/connection_state.rs:188-227 | every reachable state can be drained if and only if each encodable item that may be sent has a frame that fits the receive buffer |
| Chunking.FittingIsNeverRefused | sansrpc-proto/src/connection_state.rs:188-200 | a stream that fits is never refused, however it is cut into chunks |
| Chunking.OversizedIsRefused | sansrpc-proto/src/connection_state.rs:188-200 | a stream that does not fit is refused when it arrives byte by byte |
| Chunking.RefusalIffOversized | sansrpc-compio/src/lib.rs:175-184 | the refused-feed branch is unreachable for every chunking of a source if and only if all its frames and its rest fit; both driver classes keep the chunks they offered equal to this fold |
| TokioConnection.CopyWithin | sansrpc-tokio/src/tcp.rs:91 | the in-place shift puts the unfed part of the read buffer in front and leaves the tail as it was |
| TokioConnection.TokioSansConnection.constructor | sansrpc-tokio/src/tcp.rs:22-34 | a new connection is idle both ways, with a read buffer of twice the receive buffer's size |
| TokioConnection.TokioSansConnection.TakeItem | sansrpc-tokio/src/tcp.rs:75-81 | processing and popping returns the next item of the stream, or an error that stays, or shows that nothing complete is buffered |
| TokioConnection.TokioSansConnection.KeepUnfed | sansrpc-tokio/src/tcp.rs:90-97 | after a partial feed what is carried over is exactly the unfed suffix |
| TokioConnection.TokioSansConnection.FeedCarried | sansrpc-tokio/src/tcp.rs:84-106 | no byte is fed twice or skipped; the branch that repeats for ever is taken exactly when jammed, and then the source does not fit |
| TokioConnection.TokioSansConnection.FinishRead | sansrpc-tokio/src/tcp.rs:108-114 | polls the read once, and waits, ends, fails or goes on exactly as that poll answers; while waiting and at the end all complete frames received have been delivered |
| TokioConnection.TokioSansConnection.JamIsRefusal | sansrpc-tokio/src/tcp.rs:87-97 | a jam is the refusal of the last chunk after the chunks accepted so far, which are all the bytes read |
| TokioConnection.TokioSansConnection.PollNext | sansrpc-tokio/src/tcp.rs:68-117 | for every chunking: items come out in stream order, the end comes only after all complete frames, errors stay, every call terminates; it waits, ends or fails exactly when the read polled last was pending, empty or failed; it spins only on a source that does not fit, and exactly when the fold over the chunks read refuses one; at a decode error exactly the tail of the last batch is missing |
| TokioConnection.TokioSansConnection.Collect | sansrpc-tokio/src/tcp.rs:68-117 | over any number of polls the items are a prefix of the parsed source, and all of it at the end; at an error they are all but the tail of the last batch, so all if and only if that batch is empty or queueSize is 1 |
| TokioConnection.TokioSansConnection.PollReady | sansrpc-tokio/src/tcp.rs:130-144 | is ready at once when idle, stays pending while closing, and otherwise polls the write and answers as it does; loses no byte |
| TokioConnection.TokioSansConnection.StartSend | sansrpc-tokio/src/tcp.rs:146-156 | takes every item unless closing, leaves the send queue empty also after an encode error, and adds exactly the item's frame |
| TokioConnection.TokioSansConnection.PollFlush | sansrpc-tokio/src/tcp.rs:158-189 | success means that the bytes written are the frames of all items started, and comes at once from a writer that takes everything; it is pending or fails exactly when the write polled last is or does, and refused exactly when closing; the writer is always there |
| TokioConnection.TokioSansConnection.PollClose | sansrpc-tokio/src/tcp.rs:191-231 | success means that the frames of all items started are written and the writer is shut, and comes at once from a writer that takes everything; it is pending or fails exactly when the future polled last is or does; closing is never left |
| CompioConnection.CompioSansReadConnection.TakeItem | sansrpc-compio/src/lib.rs:163-169 | processing and popping returns the next item of the stream, or an error that stays, or shows that nothing complete is buffered |
| CompioConnection.CompioSansReadConnection.FeedChunk | sansrpc-compio/src/lib.rs:172-196 | an accepted chunk goes to the buffer whole; a refused one is gone, the buffer unchanged, and then the source does not fit |
| CompioConnection.CompioSansReadConnection.AtEnd | sansrpc-compio/src/lib.rs:202-208 | at the end the first queued item is returned, and it is the end exactly with an empty queue |
| CompioConnection.CompioSansReadConnection.PollNext | sansrpc-compio/src/lib.rs:156-212 | delivers the same stream in order and terminates; it waits, ends or fails exactly when the read polled last was pending, empty or failed; bytes are thrown away if and only if the fold over the chunks read has refused one, never with frames that fit, and then the end comes only after all complete frames; at a decode error exactly the tail of the last batch is missing |
| CompioConnection.CompioSansReadConnection.Collect | sansrpc-compio/src/lib.rs:87-143 | over any number of polls the items are a prefix of the parsed source, and all of it at the end if frames fit; at an error they are all but the tail of the last batch, so all if and only if that batch is empty or queueSize is 1 |
| CompioConnection.CompioSansWriteConnection.PollReady | sansrpc-compio/src/lib.rs:245-259 | is ready at once when idle or closing, and otherwise polls the write and answers as it does; loses no byte |
| CompioConnection.CompioSansWriteConnection.StartSend | sansrpc-compio/src/lib.rs:261-273 | is refused exactly while closing and blocks exactly on a full queue otherwise; with nothing queued before it takes every item, never blocks and leaves nothing queued, also after an encode error |
| CompioConnection.CompioSansWriteConnection.ProcessQueue | sansrpc-compio/src/lib.rs:284-289 | the early exit that loses the writer is taken exactly when a queued item is refused |
| CompioConnection.CompioSansWriteConnection.PollFlush | sansrpc-compio/src/lib.rs:275-311 | success means that the bytes written are the frames of all items started; a writer that takes everything gives it at once, unless a queued item is refused; it is pending or fails exactly when the write polled last is or does; with nothing queued before the writer is never lost |
| CompioConnection.CompioSansWriteConnection.PollClose | sansrpc-compio/src/lib.rs:313-353 | success means that the writer is shut and all frames of started items are written, save for items still queued, and comes at once from a writer that takes everything; it is pending or fails exactly when the future polled last is or does; closing is never left |
| Drivers.DriversAgree | sansrpc-tokio/src/tcp.rs:68-117 | over one source, whatever chunks each driver reads, one has delivered a prefix of the other's items, and both the same at the end if frames fit |
| Drivers.TokioLoses | sansrpc-tokio/src/tcp.rs:75-81 | on every source with a bad frame that has arrived as a whole and fits the read buffer, the driver returns the error and loses the last queueSize - 1 items in front of it |
| Drivers.CompioLoses | sansrpc-compio/src/lib.rs:163-169 | so does the compio driver |
| Drivers.TokioEndToEnd | sansrpc-tokio/src/tcp.rs:191-231 | once a tokio sink has closed, either driver reading what it wrote returns the encodable items started on it in order, and all of them at the end |
| Drivers.CompioEndToEnd | sansrpc-compio/src/lib.rs:313-353 | the same for a compio sink |
| Service.SansService.OnMessage | sansrpc-service/src/sans_service.rs:59-77 | one-shots, requests and openings, and nothing else, are handed over; a response goes to its waiter, who is then forgotten, a stream item to its receiver, and both are dropped for an unknown id; closing an unknown stream, and nothing else, is a panic |
| Service.SansService.OnInteraction | sansrpc-service/src/sans_service.rs:88-104 | the oldest submission leaves the queue, is registered under its id, and its message is sent |
| Service.SansService.NextMessage | sansrpc-service/src/sans_service.rs:50-107 | for any sequence of select outcomes it returns on the first one with a result and not before: the message that has just arrived, the end or the failure of the reader; up to there node and messages sent are those of the node's actions |
| Service.SansService.RecvStream | sansrpc-service/src/sans_service.rs:109-129 | is the node's action of taking up a stream; the outlet given back is the one just added, empty |
| Service.SansService.RecvRequest | sansrpc-service/src/sans_service.rs:131-152 | is the node's action of taking up a request; the slot given back is the one just added, without a reply |
| Serving.PollIsRun | sansrpc-service/src/sans_service.rs:50-107 | in any network run in which an endpoint only takes turns of its loop, serving the events it sees brings the node and the channel where the run brings them, whatever the peer does meanwhile |
| Serving.PollUnharmed | sansrpc-service/src/sans_service.rs:65-75 | with well-behaved applications no event of such a run is a panic and none drops a message |
| Serving.PollSafely | sansrpc-service/src/sans_service.rs:50-107 | `NextMessage` itself in such a network: never panics, drops nothing, leaves node and channel where the run does up to the last event used, and returns the message the run hands over, if any |
| Submissions.SubmissionsArriveInOrder | sansrpc-service/src/sans_service.rs:88-104 | in every run, well used or not, and both directions: what is handed over, in the channel and in the queue is what was submitted, with its data and in order |
| Submissions.OneshotsArriveInOrder | sansrpc-service/src/sans_service.rs:100-102 | so for the one-shots alone |
| Submissions.OpeningsArriveInOrder | sansrpc-service/src/sans_service.rs:92-95 | so for the data streams are opened with, for every id |
| RequestRouting.ClientKeeps | sansrpc-service/src/sans_service.rs:96-99 | every action of the requesting side keeps its requests in order, one at a time, with the waiter registered exactly while they are past the queue |
| RequestRouting.ServerKeeps | sansrpc-service/src/sans_service.rs:131-152 | so does every action of the answering side |
| StreamRouting.ClientKeeps | sansrpc-service/src/sans_service.rs:69-72 | every action of the opening side keeps its streams in order with their receiver registered since the opening was sent |
| StreamRouting.ServerKeeps | sansrpc-service/src/sans_service.rs:109-129 | so does every action of the feeding side, for every merge of its streams |
| NetworkSafety.ActSafe | sansrpc-service/src/sans_service.rs:50-107 | every action of an endpoint whose application behaves keeps both directions routed for all ids and discards nothing |
| NetworkSafety.NothingDiscarded | sansrpc-service/src/sans_service.rs:65-74 | in every run with well-behaved applications the unknown-id branches are never taken and closing an unregistered stream never happens |
| NetworkSafety.ResponsesReachTheirWaiters | sansrpc-service/src/sans_service.rs:64-67 | in every such run, for every id, the k-th answer carries the k-th reply to the waiter of the k-th request; one request is outstanding at most, in exactly one place, its waiter registered exactly between |
| NetworkSafety.StreamsArriveInOrder | sansrpc-service/src/sans_service.rs:69-82 | in every such run, for every stream id, delivered, on the wire and pending items are what the peer put in, in order, all for the one receiver |
| Waiters.OnePlaceAlways | sansrpc-service/src/sans_service.rs:96-99 | in every run, well used or not, a waiter is queued, registered or answered once, never two of these, and under its own request's id |
| Waiters.LostForEver | sansrpc-service/src/sans_service.rs:64-67 | a waiter in none of these places is never answered, however the run goes on |
| Waiters.WaiterFate | sansrpc-service/src/sans_service.rs:64-67 | in every run a registered waiter waits exactly until a response under its id is routed, which alone it is given, whichever request that answers, or another request is sent under its id, and exactly then it is lost |
| Waiters.LosesNoneIffIdFree | sansrpc-service/src/sans_service.rs:96-99 | after any well-used run, no well-used continuation of submitting a request loses a waiter of its id if and only if no request under that id is outstanding |
| Waiters.DuplicateIdLosesWaiter | sansrpc-service/src/sans_service.rs:96-97 | a run for every id in which a second request under an outstanding id leaves the first waiter unanswered for ever |
| Waiters.DuplicateIdMisdelivers | sansrpc-service/src/sans_service.rs:64-67 | with a peer that behaves, the reply to the first of two requests under one id goes to the waiter of the second, and the second reply is dropped |
| Receivers.DisplacedForEver | sansrpc-service/src/sans_service.rs:69-72 | a receiver neither queued nor registered gets nothing any more, however the run goes on |
| Receivers.DisplacesNoneIffIdUnused | sansrpc-service/src/sans_service.rs:92-95 | after any well-used run, no well-used continuation of opening a stream displaces a receiver of its id if and only if no stream was opened under that id |
| Receivers.DuplicateIdMisdelivers | sansrpc-service/src/sans_service.rs:69-72 | with a peer that behaves, an item of the first of two streams under one id goes to the receiver of the second |
| Stack.RefinesNetwork | sansrpc-service/src/sans_service.rs:50-107 | each step over framed pipes is a step of the network of FIFO channels or invisible in it |
| Stack.RoutingOverTheWire | sansrpc-service/src/sans_service.rs:50-107 | over framed bytes, for every chunking and backpressure, nothing is discarded, and for requests and streams of both endpoints responses reach their waiters and stream items arrive in order |
| Stack.SubmissionsOverTheWire | sansrpc-service/src/sans_service.rs:88-104 | over framed bytes, in every run, what handles submit reaches the peer's application in order and with its data |
| Realization.RealizesNetwork | sansrpc-service/src/sans_service.rs:50-107 | the converse: every run of the network whose messages encode and fit is what some run over framed pipes looks like |

## Left out

- Sockets, listeners, runtimes, pinning and wakers, and the 100 ms pause of the tokio driver: I/O plumbing.
- The insides of bincode and serde_json: only the contract `Faithful` and the possibility of failure remain.
- Wrap-around of `8 + next_len` for headers within 8 of 2^64: lengths are unbounded naturals here.
- The unsplit `CompioSansConnection` (`sansrpc-compio/src/lib.rs:146-213` and `356-475`): its bodies are those of the
  two halves.
- The capacity of the write buffers (`send_buffer_size` is nothing else) and the configuration builder.
- The futures behind a merge of streams: a merge may yield any ready item, so fairness and order between streams are
  not modelled.
- Errors of the writer inside the service, dropped response senders and dropped stream receivers: they end the run or
  panic.
- A handle that is gone: its `select!` branch repeats without effect, and the model's interaction turn does nothing.
- Liveness of the router: only safety is claimed for it; `Pipe` has the progress theorem.
- The `map` closures of `recv_stream` and `recv_request`: items and replies are modelled after mapping.
- `sansrpc-macros`, `sansrpc/src/lib.rs`, `sansrpc-service/src/service.rs`, `sansrpc-compio/src/tcp.rs`: thin wrappers
  and examples.
- CompioConnection.CompioSansWriteConnection.PollClose: says nothing about items still queued, because the code does not process the queue here; `StartSend` and `PollFlush` leave none.
