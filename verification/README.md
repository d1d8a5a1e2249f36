# hcnet, modelled and proved in Dafny

hcnet puts TCP, KCP and WebSocket connections behind one callback interface. This project
models the four parts of it that carry hard properties and proves those properties for all
inputs, all runs and all interleavings:

1. **The framed message channel** of TCP and KCP: the codec, the read and write buffers, the
   `select!` run loop with its Open, Closing and Closed states, and two such endpoints joined
   by byte pipes that delay and split bytes at will.
2. **The WebSocket connection**: handshake and closing states of server and client, driven by
   the run loop, with frames and HTTP messages abstract.
3. **The connection limit**: a shared counter checked and then increased by a listener, while
   connection tasks drop their guards concurrently.
4. **Id allocation**: the process-wide counter with its wrap-around, and the 64-bit ids
   composed by listeners.

Code that changes objects in place is modelled by classes (`BinaryMut`, `FramedConn`,
`NetSender`, `Endpoint`, `WsConn`, `OnlineCount`, `Listener`, `IdCenter`, `WrapListener`).
Their methods are proved against functions on values: `DecodeMessage` and `EncodeMessage`
against `Framing.Parse` and `Framing.Encode`; the run loops against the step functions of
`Channel` and `WebSocket`, one event per branch of a `select!`; the listener and the counter
against those of `ConnectionLimit` and `Ids`. What is promised is then proved about every run
of those step functions.

## How the run loops are modelled

- An event is the completion of one `select!` branch, or one suspension point inside
  `process()`. A branch that completes drops the other futures, so every event is also the
  cancellation of `process()`. Timers may fire at any moment.
- The loops compute their guards. `FramedConn` is given turns: poll one branch, with whatever
  the stream, the clock and the handler have ready. What is not ready changes nothing, so
  every sequence of turns is a run (`Session.PlayIsRun`), and every run is one
  (`Session.EveryRunIsPlayed`). `WsConn` is offered events and takes those its state has a
  branch for.
- A command comes from the head of the queue that `NetSender` fills, and senders may act
  between any two turns.
- In Open, the read, write and timer branches are there only after the decoder has asked for
  more and the read buffer is below its limit (`Channel.Idle`).
- The socket library is taken at its word: a dropped read or write has transferred nothing,
  and a completed write of a non-empty buffer has transferred at least one byte.
- Handlers are arbitrary: any callback may fail the run, and `on_ping` may answer anything or
  nothing.
- Limits are those of the `settings` field the connection holds while it runs. (A listener
  made by `TcpConn::bind_with_listener` holds the defaults until `set_settings` is called.)
- A Rust `String` is a byte string valid by section 4 of RFC 3629.
- The fields of `Channel.Conn` and `WebSocket.Conn` that record history (what was encoded,
  written, received, delivered, called back) do not influence any step;
  `ChannelRuns.RunHistories` shows that they are what the events did.

## Main results

- `EndToEnd.Fifo`, `QueuedNetwork.QueueToCallbacks`: the composition of two framed endpoints
  refines a FIFO of messages, from `send_message` to the peer's callbacks.
  `EndToEnd.GracefulClose`: a close that empties its buffer delivers everything before it, and
  exactly one `on_close`. `Delivery.EverythingIsDelivered`: nothing
  gets stuck on the way, so that prefix grows to everything sent.
- `Framing.RoundTripExact`, `Framing.OnlyCanonicalFrames`, `Framing.PrefixCode`,
  `Chunks.ChunkIndependence`: the codec is exact, canonical, a prefix code, and independent of
  how the stream is cut.
- `Utf8.Utf8Exact`, `Wire.FrameLayout`, `Wire.DecodesExactly`, `Wire.RefusesExactly`: the format
  itself, said without the functions that print and parse it.
- `Outcomes.RunIsHeard`, `Outcomes.OutcomesExact`, `Outcomes.OnCloseExactly`, and the same three
  in `WebSocketEffects`: what a handler hears and how a run ends, said in terms of its events.
- `ChannelRuns.ClosingTerminates`, `ChannelRuns.OnCloseAtMostOnce`,
  `ChannelRuns.RunConserves`, `ChannelRuns.OverflowExactly`,
  `AfterClose.StreamAfterFirstClose`, `AfterClose.ToldAndKeptAgreeExactly`.
- `WebSocketResults.FirstCloseWins`, `WebSocketResults.OnOpenComesFirst`,
  `WebSocketResults.NothingUnreachableIsReached`, `WebSocketResults.ClosingTerminates`.
- `ConnectionLimit.LimitHolds` and `ConnectionLimit.Listener.ProcessAccept`,
  `Ids.IdsAreUnique` and `Ids.IdCenter.NextConnectId`, `Ids.AcceptsAreDistinct`.

## Where the code does not do what one may expect

- The phase of a TCP connection can go back from Closed to Closing, when it is told to close
  during the linger sleep (`ChannelRuns.TcpFallsBackToClosing` is a run that does); this is the
  only case (`ChannelRuns.RankFallsExactly`), and Open is never entered again.
- Commands are still encoded after a Close, so bytes may follow the Close frame on the wire
  (`AfterClose.BytesFollowClose` is a run that does it). What follows is what the commands
  taken after the first close post, and it is nothing exactly when they are all `Unvaid`
  (`AfterClose.StreamAfterFirstClose`). The receiver stops at the first Close all the same.
- The receiver is told the first Close, while the closing state keeps the last code and reason
  (`AfterClose.KeptIsNotTold` is a run in which they differ). The two agree exactly when both
  have the same reason and the same code on the wire (`AfterClose.ToldAndKeptAgreeExactly`).
- The limit on the write buffer does not hold for Pongs: a peer that pings and reads nothing makes
  the buffer as long as it likes (`WriteLimit.PongsPassAnyLimit`). But for Pongs it is exceeded by
  less than one command (`WriteLimit.WriteBound`), and at the limit nothing but an answered Ping
  makes it grow (`WriteLimit.AtLimit`).
- A frame of 2^24 bytes or more loses the top of its length (`Framing.TooLongFails`).
- A WebSocket connection does not answer a Close with a Close, which section 5.5.1 of RFC 6455
  asks for (`WebSocketResults.RemoteCloseUnanswered`); an `Unvaid` command goes out as an empty
  Close frame.
- `on_close` is described as the callback for a close from the other side; it is also the
  callback for a failed run. It is not called at end of stream, after a local close, or when
  all senders are gone, nor by `run_handler` when a WebSocket stream cannot be accepted.
- The listener's own `OnlineCount` is dropped with it although it was never added, so the
  counter is one short once the listener is gone (`ConnectionLimit.LimitHolds`).
- The comments on the default buffer limits in src/settings.rs do not agree with the values;
  the model uses the values.

## Model

| member | source | states |
|---|---|---|
| Protocol.CanonCodeExact | src/protocol.rs:71-115 | the only codes a trip over the wire changes are `Other(n)` with a named `n`; two codes have the same number exactly when they have the same wire form |
| Wire.CodeNumbers | src/protocol.rs:71-115 | the numbers of the named codes rise from 0 over 1000 to 1015, without 1004 and 1014; every other number is an `Other` |
| Wire.OpcodeRanges | src/message.rs:45-72 | data opcodes are 1 and 2, control opcodes 8 to 10, and no other byte is read |
| Utf8.Utf8Exact | src/decode.rs:34-38 | a byte string is accepted as text exactly when it is the UTF-8 encoding of some scalar values, by the arithmetic of section 3 of RFC 3629 |
| Wire.FrameLayout | src/encode.rs:7-48 | every frame byte by byte: its own length cut to 24 bits, most significant byte first; the opcode 1, 2, 8, 9 or 10; the content, a close code before its reason |
| Wire.HeadsCompare | src/lib.rs:53-58 | the heads of frames compare in dictionary order as their lengths do |
| Wire.DecodesExactly | src/decode.rs:18-57 | the decoder hands over a message exactly when its frame, within the limits, is at the front of the buffer, and takes just that |
| Wire.RefusesExactly | src/decode.rs:15-57 | when it asks for more, and which error it gives for what, having taken how much |
| Wire.RawDecodes | src/decode.rs:6-13 | a raw decoder takes the whole buffer as one binary |
| Wire.RawIsPayloads | src/encode.rs:7-24 | raw mode writes the bytes of texts and binaries and nothing else |
| Codec.ReadU24 | src/lib.rs:45-50 | takes three bytes, most significant first, or nothing and 0 when fewer are there |
| Codec.EncodeU24 | src/lib.rs:53-58 | appends the three low bytes |
| Codec.EncodeMessage | src/encode.rs:5-56 | appends exactly the encoding of the message, framed or raw |
| Codec.DecodeMessage | src/decode.rs:5-58 | result and leftover for every input: undecided leaves the buffer as it was, errors keep what was taken |
| Framing.RoundTripExact | src/decode.rs:18-57 | decode after encode gives the canonical message and leaves the rest, for every continuation, if and only if the frame is within the limit and below 2^24 bytes |
| Framing.TooLongFails | src/lib.rs:53-58 | what the decoder does instead with a frame over the limit, or whose length was cut to 24 bits |
| Framing.OnlyCanonicalFrames | src/decode.rs:30-54 | whatever the decoder takes is byte for byte the encoding of the canonical message it returns |
| Framing.EncodeInjective | src/encode.rs:5-48 | messages with the same frame are the same in wire form |
| Framing.ParseStable | src/decode.rs:15-58 | a message or an error is not changed by bytes that follow |
| Framing.PrefixCode | src/encode.rs:5-48 | frames form a prefix code: a stream of frames has one reading |
| Framing.IncompleteIsSmall | src/decode.rs:15-29 | an undecided decoder holds fewer than max(4, min(`onemsg_max_size`, 2^24-1)) bytes |
| Framing.IncompleteOfAnyLength | src/decode.rs:15-29 | and every shorter length occurs |
| Chunks.DrainInTwo | src/tcp/mod.rs:206-225 | decoding what has arrived and then the rest is decoding everything |
| Chunks.ChunkIndependence | src/tcp/mod.rs:206-225 | every way of cutting a byte string into reads gives the same messages and the same leftover or error |
| Chunks.DrainConserves | src/decode.rs:6-33 | the decoded messages encode back to the bytes taken, framed and raw |
| Chunks.FeedConserves | src/tcp/mod.rs:214-225 | the same over any sequence of reads |
| Channel.PhaseEffect | src/tcp/mod.rs:240-261 | the phase changes only by a local close, by the write that empties a closing buffer, and by the closing timer |
| ChannelInvariants.StepInv | src/tcp/mod.rs:202-356 | every branch keeps the eight invariants: byte conservation both ways, canonical deliveries, a Close ends the run, the shape of the callbacks, the Close is sent, KCP ends in Closed, an overflow has its cause |
| ChannelInvariants.CutIgnoresLater | src/tcp/mod.rs:317-320 | messages after the first Close do not change what the receiver is to see |
| ChannelRuns.OnCloseAtMostOnce | src/tcp/mod.rs:314-373 | `on_close` at most once and last; called exactly when a Close was delivered or the run failed |
| Outcomes.OutcomesExact | src/tcp/mod.rs:306-355 | exactly which events fail a run, with which error, and exactly which end it without one |
| Outcomes.OnCloseExactly | src/tcp/mod.rs:314-373 | `on_close` is called by a run's last event only, exactly by one that delivers a Close, with its code and reason, or fails the run, with the error close; so not at end of stream, after a local close or when the senders are gone |
| Outcomes.RunIsHeard | src/tcp/mod.rs:314-328 | over every run: `on_open` first, then for every delivered message the callback of its kind with its content, `on_message` for texts and binaries only, and last the error close of a failed run |
| Outcomes.DeliverWrites | src/tcp/mod.rs:321-325 | an answered Ping is answered with one Pong of the handler's data; no other delivery writes |
| Outcomes.CommandWrites | src/tcp/mod.rs:333-349 | a command is written as it is, a Shutdown as a Close with code Away and its own reason, an Unvaid not at all |
| Outcomes.BranchesExactly | src/tcp/mod.rs:202-261 | which branches a running connection has in each phase |
| WriteLimit.AtLimit | src/tcp/mod.rs:333 | at its limit the write buffer takes no command and grows exactly by answered Pings |
| WriteLimit.WriteBound | src/tcp/mod.rs:333-349 | over every run it stays below its limit plus the largest command, but for the Pongs encoded |
| WriteLimit.PongsPassAnyLimit | src/tcp/mod.rs:321-325 | runs in which Pongs alone pass any bound |
| ChannelRuns.NothingDeliveredAfterLocalClose | src/tcp/mod.rs:203-261 | out of Open there is no way back, nothing is decoded and no callback but the error close is made |
| ChannelRuns.RankFallsExactly | src/tcp/mod.rs:240-261 | the phase goes back exactly when a lingering TCP connection is told to close |
| ChannelRuns.TcpFallsBackToClosing | src/tcp/mod.rs:249-251 | a run in which that happens |
| ChannelRuns.KcpRankNeverFalls | src/kcp/mod.rs:186-206 | over a KCP run the phase never goes back |
| ChannelRuns.RunHistories | src/tcp/mod.rs:214-233 | what the history fields hold is what the events read and encoded |
| ChannelRuns.RunConserves | src/tcp/mod.rs:214-233 | after every run, whatever was cancelled: bytes encoded are bytes written and the write buffer, bytes read are the frames delivered and the read buffer; framed and raw |
| ChannelRuns.IdleHasDrained | src/tcp/mod.rs:206-213 | a run that waits for input has decoded all that its bytes contain |
| ChannelRuns.DeliveryDependsOnBytesOnly | src/tcp/mod.rs:206-225 | two waiting runs that read the same bytes made the same callbacks, whatever the pieces and the other events |
| ChannelRuns.ClosingTerminates | src/tcp/mod.rs:240-261 | from Closing on, the length of a run is bounded by the write buffer and by what commands and `on_logic` add, the fall back to Closing included |
| ChannelRuns.ClosingCanEnd | src/tcp/mod.rs:254-261 | and the event that ends the run is always there |
| ChannelRuns.OverflowExactly | src/settings.rs:47-63 | some run overflows the read buffer if and only if `in_buffer_max` is below the bound; none does with the defaults |
| Network.ProjectA | src/tcp/mod.rs:295-356 | each endpoint of the network makes a run of its own |
| Network.WhatIsLeft | src/tcp/mod.rs:214-233 | the bytes in the receiver's buffer, the pipe and the sender's buffer are the frames after those delivered |
| Network.NoRejection | src/decode.rs:18-57 | a receiver never rejects what a sender within its limits encoded |
| EndToEnd.Fifo | src/tcp/mod.rs:202-239 | in every reachable state of two framed endpoints the messages b's callbacks tell of are, but for the error close, a prefix of those a encoded, in order, cut after the first Close, and all of them once a Close was delivered |
| EndToEnd.SentIsEncoded | src/tcp/mod.rs:333-349 | the sequence compared with is what a's events passed to the encoder |
| EndToEnd.FifoBothWays | src/tcp/mod.rs:202-239 | both directions of one run are such FIFOs at once |
| EndToEnd.CommandsToCallbacks | src/tcp/mod.rs:333-349 | apart from Pongs, b's callbacks see a prefix of what a's commands ask for, Shutdown as its Close and Unvaid dropped |
| QueuedNetwork.QueueToCallbacks | src/sender.rs:30-36 | the messages the queue accepted are those taken and those queued; apart from Pongs, b's callbacks see a prefix of what they ask for, in order, up to the first Close |
| EndToEnd.NoDecodeError | src/decode.rs:18-57 | within the receiver's limits no decode error and no overflow occurs |
| EndToEnd.StreamConserved | src/tcp/mod.rs:214-233 | framed or raw, the bytes a encoded are those b decoded, buffered, in flight, and waiting at a |
| EndToEnd.RawEndToEnd | src/tcp/mod.rs:214-233 | in raw mode, the bytes of the texts and binaries a's commands carry are those b was handed, then those in b's buffer, in flight, and in a's buffer |
| EndToEnd.GracefulClose | src/tcp/mod.rs:240-253 | after a closing buffer was emptied and read, however the network goes on and whatever b's loop takes besides, as long as b does not close, refuse or lose its senders itself, b goes on, by at most one delivery per byte, until it was handed every message up to the first Close, then one `on_close` with its code and reason, and returns |
| Delivery.CarryKeepsMoving | src/tcp/mod.rs:214-233 | every write of a, read of b and delivered message of b brings bytes strictly nearer to b's callbacks, and neither side stops for another reason |
| Delivery.NeverStuck | src/tcp/mod.rs:202-239 | while b runs and was not handed everything a sent, a write, a read or a delivery is possible |
| Delivery.EverythingIsDelivered | src/tcp/mod.rs:202-253 | from any reachable state where a can write and b runs open within its limits, a bounded number of writes, reads and deliveries, in any order and among writes and commands (but no close) of b and `on_logic` completions, ends only when b was handed all that a sent, up to the first Close |
| FramedConnection.FramedConn.constructor | src/tcp/mod.rs:68-80 | a new connection is the initial state |
| FramedConnection.FramedConn.ProcessDecode | src/tcp/mod.rs:206-213 | decode, then the read limit |
| FramedConnection.FramedConn.ProcessRead | src/tcp/mod.rs:216-225 | bytes read are appended; none means end of stream |
| FramedConnection.FramedConn.ProcessWriteOpen | src/tcp/mod.rs:227-233 | bytes written leave the buffer |
| FramedConnection.FramedConn.ProcessWriteClosing | src/tcp/mod.rs:244-253 | the write that empties the buffer closes; KCP returns at once |
| FramedConnection.FramedConn.Close | src/tcp/mod.rs:285-293 | the Close frame is appended and the state replaced, in any state |
| FramedConnection.FramedConn.ReturnError | src/tcp/mod.rs:366-371 | a failed run ends with the error close |
| FramedConnection.FramedConn.HandlePolled | src/tcp/mod.rs:309-332 | the callback, the Pong reply and the outcome for every result of `process()` |
| FramedConnection.FramedConn.HandleCommand | src/tcp/mod.rs:333-349 | Close and Shutdown close, everything else is encoded |
| FramedConnection.FramedConn.PollProcess | src/tcp/mod.rs:202-261 | a poll of `process()` in any state: decode first, then the `select!` with its guard on the write buffer, makes exactly the event the state machine has for it, or none |
| FramedConnection.FramedConn.Receive | src/tcp/mod.rs:333-349 | the receive branch is there while the write buffer is below its limit; it takes the oldest command, or returns when no sender is left |
| FramedConnection.FramedConn.TakeTurn | src/tcp/mod.rs:306-355 | every turn of the loop is the step the state machine makes of it, queue included |
| FramedConnection.FramedConn.RunWithHandler | src/tcp/mod.rs:295-356 | for all turns whatever the loop makes the run described by `Play`, and returns when it ends |
| Session.TurnsAreEvents | src/tcp/mod.rs:306-355 | the turns of a running loop make exactly the events that are enabled |
| Session.PlayIsRun | src/tcp/mod.rs:306-355 | all turns make a run of the state machine |
| Session.EveryRunIsPlayed | src/tcp/mod.rs:306-355 | every run of the state machine is made by some turns |
| Session.SessionProjects | src/tcp/mod.rs:306-355 | the connection of a session with a queue makes a run of its own |
| AfterClose.ClosedStillEncodes | src/tcp/mod.rs:333-349 | out of Open every command is still encoded, and nothing else |
| AfterClose.StreamAfterFirstClose | src/tcp/mod.rs:285-293 | what follows the first Close on the stream is what the later commands post, nothing exactly when they are all `Unvaid` |
| AfterClose.LastCloseIsKept | src/tcp/mod.rs:285-293 | a closing connection holds the code and reason of its last local close |
| AfterClose.ToldAndKeptAgreeExactly | src/tcp/mod.rs:285-293 | the peer is told the first close; it is the one held exactly when first and last have the same reason and code on the wire |
| AfterClose.BytesFollowClose | src/tcp/mod.rs:333-349 | a run that writes bytes behind its Close |
| AfterClose.KeptIsNotTold | src/tcp/mod.rs:285-293 | a run that holds another close than the one its peer is told |
| WebSocket.OwnedRoundTrip | src/message.rs:121-150 | through the WebSocket library a message keeps its wire form; Shutdown and Unvaid become an empty Close |
| WebSocketEffects.ConversionsKeep | src/message.rs:121-150 | both conversions keep the kind of a message and its content |
| WebSocketEffects.FrameIsHandled | src/ws/mod.rs:271-287 | every frame is told in the callback of its kind with its content; only an answered Ping is answered, with one Pong of the handler's data |
| WebSocketEffects.CommandIsQueued | src/ws/mod.rs:288-307 | every command queues the frame of its kind with its content, a close only from Open; no callback |
| WebSocketEffects.HandshakeIsAnswered | src/ws/mod.rs:242-270 | a server shows the request and queues the response, and a Close with code 1000 after one other than a 101; a client calls and queues nothing |
| WebSocketEffects.RestIsQuiet | src/ws/mod.rs:233-236 | `on_open` at the head of an open connection's loop and the request of a client's first poll; nothing else calls or queues anything but the error close |
| WebSocketEffects.UpgradeGoesOutOnce | src/ws/client.rs:141-165 | a client queues its request once before it waits, a server the one response of its handshake |
| WebSocketEffects.OutcomesExact | src/ws/mod.rs:232-312 | exactly which events fail a run, with which error, and exactly which end it without one |
| WebSocketEffects.RunIsHeard | src/ws/mod.rs:271-287 | over every run the handler hears exactly the delivered messages, each in the callback of its kind and in order, and last of a failure |
| WebSocketEffects.OnCloseExactly | src/ws/mod.rs:271-331 | `on_close` is called by a run's last event only, exactly by one that brings a Close or fails the run, except a failed accept in `run_handler` |
| WebSocketEffects.BranchesExactly | src/ws/mod.rs:232-312 | which branches a running connection has in each state; commands are taken in all |
| WebSocketEffects.DrainedCloses | src/ws/server.rs:179-201 | the closing arm ends in Closed with the close the connection holds |
| WebSocketRuns.StepInv | src/ws/mod.rs:223-313 | every event keeps the invariants of states, suspended arms, opening order and callbacks |
| WebSocketRuns.HandshakeIs | src/ws/mod.rs:242-270 | what a handshake comes to, with the branches left out that are not reached |
| WebSocketResults.RankNeverFalls | src/ws/server.rs:108-201 | Wait, WaitRet, Open, Closing, Closed are passed in this order |
| WebSocketResults.StepMoves | src/ws/client.rs:141-259 | how one step moves the state; Closed only from Closing, with the same code and reason |
| WebSocketResults.NothingUnreachableIsReached | src/ws/server.rs:45-54 | no panic, no bad-status error, no server left in WaitRet, on any run |
| WebSocketResults.ClientHandshakeExact | src/ws/client.rs:191-199 | a client opens on 101 and fails on any other status inside `process()`, so the loop's own check is dead |
| WebSocketResults.FirstCloseWins | src/ws/server.rs:62-71 | the stored code and reason are those of the first close asked for, to the end; exact number of Close frames queued |
| WebSocketResults.RemoteCloseUnanswered | src/ws/mod.rs:290-296 | a Close from the other side is not answered |
| WebSocketResults.ClosingTerminates | src/ws/server.rs:179-189 | from Closing on, a run has at most three events, and three more for every command and `on_logic` completion |
| WebSocketResults.ClosingCanEnd | src/ws/server.rs:179-189 | and left alone it returns with these events |
| WebSocketResults.OnOpenComesFirst | src/ws/mod.rs:233-286 | `on_open` at most once, only after a 101, before every message, ping, pong and remote close |
| WebSocketResults.OnCloseAtMostOnce | src/ws/mod.rs:315-331 | `on_close` at most once and last, exactly when a Close was delivered or the run failed, except for a failed accept in `run_handler` |
| WebSocketResults.AcceptFailedExactly | src/ws/mod.rs:323-324 | when a failed run makes no callback at all |
| WsConnection.Endpoint.SendMessage | src/ws/server.rs:56-60 | the message's frame is queued in any state |
| WsConnection.Endpoint.Close | src/ws/client.rs:81-90 | a frame from Open only; a connection already closing keeps its reason |
| WsConnection.Endpoint.HandlerResponse | src/ws/server.rs:45-54 | opens from WaitRet, fails otherwise |
| WsConnection.Endpoint.ClosingToClosed | src/ws/server.rs:196-201 | called in Closing only; the reason survives |
| WsConnection.Endpoint.Poll | src/ws/client.rs:141-165 | what `process()` does before it first waits |
| WsConnection.WsConn.HandleMsg | src/ws/mod.rs:288-306 | callback, Pong and outcome of a message |
| WsConnection.WsConn.StepHead | src/ws/mod.rs:233-236 | `on_open` at the head of the loop |
| WsConnection.WsConn.StepRequest | src/ws/mod.rs:245-258 | the response goes out; unless it is a 101 the connection closes at once |
| WsConnection.WsConn.StepResponse | src/ws/mod.rs:259-270 | a client opens on 101 |
| WsConnection.WsConn.StepDrained | src/ws/server.rs:179-189 | Closing is left for Closed, which ends the run |
| WsConnection.WsConn.Ready | src/ws/mod.rs:237-312 | which branches are there, computed from the object's own state, are those of the state machine |
| WsConnection.WsConn.Dispatch | src/ws/mod.rs:232-312 | every event taken makes exactly one step of the state machine |
| WsConnection.WsConn.Run | src/ws/mod.rs:223-313 | whatever is offered to the loop, it makes the run of the events it has branches for |
| WsConnection.OffersAreRuns | src/ws/mod.rs:223-313 | that is a run of the state machine, and every run can be offered |
| ConnectionLimit.OnlineCount.Add | src/online_count.rs:22-31 | a new guard on the same counter, which is one higher |
| ConnectionLimit.LimitHolds | src/tcp/mod.rs:181-201 | with any interleaving of drops the counter is the number of live connections, never above the limit, and never falls back; a connection is refused exactly when the limit is used up; exact value after the listener is gone |
| ConnectionLimit.Listener.Check | src/tcp/mod.rs:183-190 | a stream is let in exactly when fewer than `max` connections hold guards |
| ConnectionLimit.Listener.AddConnection | src/tcp/mod.rs:191-200 | the new connection holds a new guard, and there are at most `max` |
| ConnectionLimit.Listener.DropConnection | src/online_count.rs:43-51 | a connection's end makes the step that takes its guard away |
| ConnectionLimit.Listener.ProcessAccept | src/tcp/mod.rs:181-201 | the whole branch, with other tasks ending between check and addition: accepted exactly when the limit is not used up, and the shared counter is the number of connections, at most `max` |
| Ids.IdCenter.FetchOne | src/id_center.rs:11-12 | returns the counter and makes the thread's step |
| Ids.IdCenter.StoreOne | src/id_center.rs:13 | the counter is 1 again |
| Ids.IdCenter.NextConnectId | src/id_center.rs:8-18 | with other threads moving before each of its steps the call ends with an id in 1..2^31-1, drawn in its last step; alone it returns the counter, or 1 when that is past the end |
| Ids.IdsAreUnique | src/id_center.rs:5-18 | any threads, any interleaving: the counter's range, the ids' range, and a reset between two calls that return the same id |
| Ids.WrapListener.constructor | src/listener.rs:42-48 | the counter starts at 0 |
| Ids.WrapListener.Accept | src/listener.rs:53-59 | the n-th accept composes the server id and n modulo 2^32 |
| Ids.ComposeInjective | src/listener.rs:53-59 | composed ids are equal exactly when counters and the low 32 bits of the server ids are |
| Ids.AcceptHalves | src/listener.rs:53-59 | the high half of an accepted id is the server's id, the low half the number of the accept modulo 2^32 |
| Ids.AcceptsAreDistinct | src/kcp/listener.rs:23-27 | the m-th and n-th accept of a listener get the same id exactly when 2^32 divides n - m |
| Ids.AcceptedIdsAreApart | src/id_center.rs:9 | no accepted id is one the `IdCenter` hands out |
| Sender.NetSender.constructor | src/sender.rs:24-28 | the capacity is cut to an eighth of the largest usize |
| Sender.NetSender.SendMessage | src/sender.rs:30-36 | accepted in order, or given back because the receiver is gone or the queue is full |
| Sender.NetSender.CloseWithReason | src/sender.rs:46-49 | posts a Close, under the same conditions |
| Sender.NetSender.Receive | src/tcp/mod.rs:333-337 | takes the oldest command; without one, it tells whether all senders are gone or nothing has come yet; accepted is always taken followed by queued |

## Left out

- Sockets, name lookup, TLS, certificates, connecting and binding: I/O. Accepting a stream is one step that works or fails.
- The unconnected TCP or KCP connection that connects inside `process()`: one I/O step before the model starts.
- The listener's side of the run loop beyond the limit and the ids: it hands each connection to `on_accept` and returns at the first command.
- WebSocket frame bytes, masking, fragments and HTTP parsing: done by a library that is not part of this model. A message arrives as one event; fragments lost when `process()` is dropped are messages that never arrive, so nothing is claimed about delivery over WebSocket.
- The handshake key: only the status of the response matters.
- The WebSocket output limit: commands may arrive at any time, which allows more runs than the source has.
- A failure to serialise a WebSocket message or response is not a separate event; a handler that refuses ends the run the same way.
- KCP below the byte stream: an external transport, taken to be reliable.
- Durations: every timer may fire at any time.
- Lock poisoning, and atomic orderings beyond one total order for each atomic.
- TLS, ids and addresses of the accepted connection objects, `Display`, logging, the builder and the examples: nothing hard to prove there.
- Ids.IdsAreUnique: for fewer than 2^64 - 2^31 threads; more could carry the 64-bit counter around.
