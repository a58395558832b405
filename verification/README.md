# A Dafny model of the Pitaya client connection

This project models libpitaya-cpp, a single-threaded asynchronous client for the Pitaya/Pomelo wire
protocol, and proves what it keeps over whole runs. It has five layers.

- **Wire formats.** `Packets`, `Framing`, `Varint`, `Messages` and `EndToEnd` give packets, the one-shot
  parser over a byte string, message ids, the message codec and the route dictionary, and prove the
  round trips, with the exact condition where a round trip does not always hold. `Wire` states the
  formats once more in literal bytes, so that nothing rests on writer and reader merely agreeing.
- **The transition system.** `Runtime` and `Protocol` model the connection: a state with the posted
  tasks, the pending socket operations and timer waits, the connection state, the in-flight requests and
  the histories of what was sent, answered and broadcast; one function per callback; a `Step` for
  everything that can happen next; and `Exec`, the state after a run.
- **Steps.** `Batches`, `Causes`, `Halts`, `Refusals`, `Offers`, `Deadlines` and `Sessions` say exactly what
  a step does, as if-and-only-if statements about the state before it: which handlers it calls and with
  what, which event it broadcasts, what it sends, which timers it starts and for when, what it puts in
  flight or takes out, and what ends the run.
- **Invariants and theorems.** `SendPipeline`, `Requests`, `Replies`, `Timeouts`, `Handshake`,
  `Heartbeats`, `Attention`, `Silence`, `Reading` and `Ownership` each prove one invariant kept by every
  step. `Theorems` puts them together and states what holds after every run; `Posts` follows a request
  from the call to the wire, `Schedule` is about deadlines, `Exchanges` about one response in literal
  bytes; `Settling` shows that every run can come to rest, and `Witnesses` gives runs that establish the
  connection, keep time, and show each of the failures described. `Runs` has the prefixes and
  continuations of runs.
- **The objects.** `Rotation`, `PacketStreams` (file TcpPacketStream.dfy) and `Connections` (file
  Connection.dfy) are the program in its own form: classes with a fixed read buffer that is parsed and
  rotated in place, queues, maps and counters. Each method is proved to do what the corresponding
  function says, and `Connections.Connection.Run` ties whole runs of the objects to `Exec`, so the
  theorems are about them.

How the source is read:

- Bytes are the integers 0 to 255; shifts and masks are written as division and remainder by powers of
  two. The 32-bit write id and the 64-bit request id wrap explicitly.
- A request handler is identified by a token, the number of the `PostRequest` call that supplied it.
  Calling a handler appends to `answers`; broadcasting an event appends to `events`.
- Asserts are taken as enabled: a failed one ends the run, recorded in `halted`. So do the exception for
  a route that is not in the dictionary, which nothing catches on the worker thread, and a read or shift
  in the message decoder for which C++ defines no result. The one exception is the assertion that a
  batch holds exactly one packet (src/connection.cpp:397), which its own comment marks for removal: the
  loop below it is modelled for any batch.
- Posted tasks run in order. Every other pending operation may complete at any time with any outcome,
  each exactly once and never inside the call that started it. A timer wait completes with success once
  it has expired; destroying or re-timing the timer aborts it unless it has expired already. The clock
  is one counter that never goes back.
- What the code does is modelled where it differs from what its names or comments suggest. The
  differences that matter are stated: `Messages.MessageRoundTripIff` (the type bits are never written
  and the route code is read back as one byte), `Messages.RequestDataArrivesIff` (`NewRequest` does not
  store its data), `Framing.FrameRoundTripIff` (lengths of 2^24 and more), `Refusals.RefusedIff` (a
  full queue drops the packet with its handler), `Theorems.StuckIff` (a frame larger than the read
  buffer), `Theorems.TimeoutPossibleIff` (the heartbeat timeout is not waited on again) and
  `Theorems.HandshakeFailureAnnouncedIff` (errors before the connection is established are dropped);
  `Witnesses` has a run for each of the last four.

## Model

| member | source | states |
|---|---|---|
| Packets.SplitJoin | src/protocol/packet.cpp:10-26 | joining the three length bytes undoes splitting a length, modulo 2^24, for every length |
| Packets.JoinSplit | src/connection/tcp_packet_stream.cpp:194-196 | splitting undoes joining, for every three bytes |
| Packets.HeaderReadsBack | src/protocol/packet.cpp:33-38 | a reader finds in any header the packet's type and its length modulo 2^24 |
| Packets.SerializeInto | src/protocol/packet.cpp:28-41 | appends the frame of the packet to the buffer, byte by byte |
| Wire.PacketOnWire | src/protocol/packet.cpp:28-41 | a packet is the number of its type, 1 to 5, the length in three bytes with the most significant first, and the body |
| Framing.ParseFrames | src/connection/tcp_packet_stream.cpp:163-232 | serialized packets followed by arbitrary bytes: exactly those packets come off, in order, and the rest is parsed as if it stood alone |
| Wire.FrameOffWire | src/connection/tcp_packet_stream.cpp:174-229 | what the parser finds at the front of any bytes, in literal bytes: too few, a bad type, an unwanted frame, or which packet |
| Framing.FrameRoundTripIff | src/protocol/packet.cpp:28-41 | a packet survives serialization and parsing if and only if the parser accepts its type and its body is shorter than 2^24 bytes |
| Framing.OversizeBodyIsLost | src/protocol/packet.cpp:36-38 | a body of exactly 2^24 bytes is framed as empty and its bytes are read as further frames |
| Framing.ParseConserves | src/connection/tcp_packet_stream.cpp:174-231 | on every input that parses, the packets serialized again, followed by the leftover, are the input |
| Framing.UniqueDecoding | src/protocol/packet.cpp:28-41 | two packet lists with the same concatenated bytes are equal |
| Framing.PrefixFree | src/protocol/packet.cpp:28-41 | if two serialized packets with arbitrary tails start alike, packets and tails are equal, for all types |
| Framing.ParseInPieces | src/connection/tcp_packet_stream.cpp:174-203 | parsing a prefix and later its leftover with the rest gives what one parse of everything gives |
| Framing.RefusalIsFinal | src/connection/tcp_packet_stream.cpp:187-191 | once a prefix is refused no continuation is accepted, and the refusal is the same |
| Framing.ParseRefusesIff | src/connection/tcp_packet_stream.cpp:186-228 | the parser throws, or fails an assertion, if and only if the input is good frames followed by a header with a bad type byte, or by a complete frame that it does not want |
| Framing.FeedIsParse | src/connection/tcp_packet_stream.cpp:94-128 | for every list of reads, what the read loop has delivered and holds back, or its refusal, is that of one parse of all bytes received |
| Framing.FeedRefusesFirst | src/connection/tcp_packet_stream.cpp:115-126 | a refusal is reported at the first read after which the bytes received are refused, and what was delivered is the parse of the reads before it |
| Framing.ChunkIndependence | src/connection/tcp_packet_stream.cpp:94-128 | however the bytes of a packet list are cut into reads, exactly that list is delivered, in order, and nothing is held back |
| Framing.FeedConserves | src/connection/tcp_packet_stream.cpp:112-121 | after any reads, the delivered packets serialized, followed by the buffered bytes, are all bytes received |
| Framing.BadTypeUnderChunking | src/connection/tcp_packet_stream.cpp:186-191 | a bad type byte behind good frames: under any chunking a prefix of the good frames is delivered, and the error comes at exactly the read that brings the fourth byte from the bad position, and only if there is one |
| Framing.FullBufferHoldsOversizeFrame | src/connection/tcp_packet_stream.cpp:198-203 | a parse leaves the buffer full only if it holds the front of a frame larger than the buffer |
| Framing.FrameCanCompleteIff | src/connection/tcp_packet_stream.cpp:198-203 | a held-back frame can be completed within the buffer if and only if the length it announces fits the buffer |
| Framing.ReadProgress | src/connection/tcp_packet_stream.cpp:98-113 | if every announced frame fits the buffer, every parse leaves room for the next read |
| Varint.RoundTrip | src/protocol/message.cpp:51-64 | every 64-bit id is written in one to ten bytes and read back, in any surroundings, stopping exactly behind them, with every shift below 64 and every addition within 64 bits |
| Varint.UndefinedIff | src/protocol/message.cpp:119-126 | the reader's shift goes out of range exactly on more than ten bytes whose first ten all have the continuation bit |
| Varint.EncodeInto | src/protocol/message.cpp:53-63 | the encoding loop appends the base-128 digits of the id |
| Varint.DecodeId | src/protocol/message.cpp:115-127 | the decoding loop reads what the recursive reader reads, on every input |
| Wire.IdOnWire | src/protocol/message.cpp:51-64 | an id is written in base 128, least significant digit first, 128 added to all digits but the last |
| Wire.IdOffWire | src/protocol/message.cpp:114-128 | up to ten digits are read as the number they stand for, in 64 bits; without a terminator the offset stays where they began |
| Messages.InverseIsInverse | include/pitaya/connection/state.h:51-53 | for any iteration order the keys of codeToRoute are exactly the codes in use, each maps back to its code, and with distinct codes it is a two-sided inverse |
| Messages.InverseKeepsFirst | include/pitaya/connection/state.h:51-53 | of the routes that share a code, the first in the iteration order is kept for it |
| Messages.BuildCodeToRoute | include/pitaya/connection/state.h:51-53 | the loop of the Connected constructor builds that inverse |
| Messages.FlagReadsBack | src/protocol/message.cpp:37-48 | every flag byte written is read as a Request with a compressed route, never as gzip, with the error bit it was given |
| Messages.DecodeOfRequest | src/protocol/message.cpp:92-168 | any encoded Request decodes to itself with the route found under the low byte of its code, or is rejected if there is none |
| Messages.DecodeUndefinedIff | src/protocol/message.cpp:113-146 | the decoder shifts or reads out of range if and only if the id runs over ten bytes or the bytes end within the route |
| Messages.MessageRoundTripIff | src/protocol/message.cpp:28-83 | a message encoded and decoded with a dictionary and its inverse comes back unchanged if and only if it is a Request whose code is in 0..255 and whose route is the one kept for that code |
| Messages.InjectiveIsRecoverable | src/protocol/message.cpp:132-141 | with distinct codes every Request whose route has a code in 0..255 round-trips |
| Messages.RequestDataArrivesIff | src/protocol/message.cpp:17-25 | the data given to NewRequest reaches the other side if and only if it was empty; id and route always do |
| Messages.SerializeInto | src/protocol/message.cpp:27-83 | fails exactly for a route outside the dictionary, and otherwise appends the encoding |
| Messages.Deserialize | src/protocol/message.cpp:91-168 | decodes as the pure decoder does, on every input, including malformed and undefined ones |
| Wire.RequestOnWire | src/protocol/message.cpp:27-83 | a request is the flag 1 or 33, its id, the two bytes of its route's code with the more significant one first, and its data |
| Wire.ResponseOffWire | src/protocol/message.cpp:92-168 | for every id and data, the flags 4 and 36 with the id and the data decode to a response without and with the error bit; 20 and 52 to one with the inflated data |
| Wire.RequestOffWire | src/protocol/message.cpp:92-168 | the flags 1 and 33 with an id and two code bytes decode to a request with the route of the second code byte, or are rejected |
| Wire.PushOffWire | src/protocol/message.cpp:132-141 | the flags 3 and 7 with two code bytes decode to a notification and a push without an id |
| Wire.PlainPushOffWire | src/protocol/message.cpp:142-146 | with the flags 2 and 6 the route is built from the length byte as character and the first byte as count, or the read is out of range |
| Wire.RejectedOffWire | src/protocol/message.cpp:95-110 | fewer than two bytes or a type above three are rejected |
| EndToEnd.EndToEndIff | include/pitaya/protocol/packet.h:103-110 | messages sent as Data packets, cut up arbitrarily, read and decoded: as many packets as messages, nothing held back, and every message recovered in order if and only if each is recoverable under the dictionary |
| Rotation.Rotate | src/connection/tcp_packet_stream.cpp:178-179 | rotates the buffer in place so that the chosen index comes first |
| PacketStreams.TcpPacketStream.constructor | src/connection/tcp_packet_stream.cpp:32-43 | an empty stream with a buffer of the given size |
| PacketStreams.TcpPacketStream.KeepFrom | src/connection/tcp_packet_stream.cpp:199-201 | compaction: the valid bytes from the offset on are then the valid bytes |
| PacketStreams.TcpPacketStream.FrameAt | src/connection/tcp_packet_stream.cpp:175-229 | classifies the bytes at an offset as the one-shot parser does |
| PacketStreams.TcpPacketStream.ParsePacketsFromReadBuffer | src/connection/tcp_packet_stream.cpp:163-232 | returns what the one-shot parser returns on the buffer's contents and leaves exactly its leftover; a refusal leaves the contents as they were |
| PacketStreams.TcpPacketStream.OnBytesRead | src/connection/tcp_packet_stream.cpp:101-127 | the completion of a read: another read, a batch, the error or a failed assertion, and the bytes then held |
| PacketStreams.TcpPacketStream.ReadChunks | src/connection/tcp_packet_stream.cpp:87-128 | the read loop on the buffer itself, over any reads that fit: what it delivers, holds back or refuses, and at which read, is what the one-shot reading of those reads gives |
| PacketStreams.TcpPacketStream.ReadAll | src/connection/tcp_packet_stream.cpp:87-128 | chunk independence on the buffer itself: reads that fit the free space deliver exactly the packets sent, with room before every read and an empty buffer at the end |
| PacketStreams.TcpPacketStream.Send | src/connection/tcp_packet_stream.cpp:76-85 | queues the packet and posts one send task, or with fifty queued drops both |
| PacketStreams.TcpPacketStream.SendFront | src/connection/tcp_packet_stream.cpp:130-161 | hands over the front packet with the given callback and keeps its bytes under its id, or reports which assertion failed |
| SendPipeline.SendPacketKeepsInv | src/connection/tcp_packet_stream.cpp:76-85 | queueing or dropping a packet keeps the pairing of queue and posted tasks and the write set |
| SendPipeline.SendingIsExact | src/connection/tcp_packet_stream.cpp:139-160 | before the counter wraps the id that is asserted free is free, and the write set stays exactly the outstanding and failed sends |
| SendPipeline.StepKeepsInv | src/connection/tcp_packet_stream.cpp:76-161 | every step keeps the pairing of queue and tasks, the numbering of sends and the write set |
| Requests.StepPlaced | src/connection.cpp:54-120 | every step moves request handlers so that each posted one stays in exactly one place, and each place knows it |
| Timeouts.StepKeeps | include/pitaya/request.h:31-40 | every step keeps a wait of its own, not aborted, for each request in flight |
| Timeouts.StepExpires | src/connection/state.cpp:66-75 | a wait becomes expired only in the step that expires it, at the time of that step |
| Ownership.StepOwned | include/pitaya/request.h:31-40 | every step keeps each wait that still waits the property of a request in flight or of the connection's own heartbeat timers, so that an answered request or a lost connection leaves none behind |
| Ownership.StepShared | src/connection.cpp:96-115 | every step keeps, until the ids wrap, each timeout that can still run that of the request in flight under its id |
| Handshake.StepStage | src/connection.cpp:122-347 | every step takes the connection from one stage to a stage, and the stage fixes what is pending, sent and broadcast |
| Heartbeats.StepKeeps | src/connection/state.cpp:11-91 | every step keeps the facts about when the tick and the timeout are due and how many heartbeats were offered |
| Heartbeats.StepOffers | src/connection/state.cpp:11-30 | a step offers a heartbeat packet if and only if an expired tick runs in it while connected |
| Replies.WireCarriesId | src/connection.cpp:82-83 | the packet of a request carries the request's id on the wire, readable by the decoder |
| Replies.StepIds | src/connection.cpp:82-87 | every step keeps ids growing along the accepted packets until the counter wraps, and each packet the one its callback belongs to |
| Replies.StepReplies | src/connection.cpp:87-115 | every step keeps, for each Ok or ServerError answer, a sent request and a received response that justify it, and the id assertion until the counter wraps |
| Attention.StepAttended | src/connection/state.cpp:25-30 | every step keeps the next tick, and before the first heartbeat the timeout, pending while connected |
| Attention.StepListens | src/connection.cpp:384-405 | every step keeps a receive pending while connected |
| Silence.StepStaysDeaf | src/connection/state.cpp:80-91 | once no live timeout wait is left, no step raises a heartbeat timeout or makes one possible |
| Reading.StepReads | src/connection/tcp_packet_stream.cpp:93-128 | every step keeps an incomplete frame in the buffer whenever a receive is pending |
| Reading.StepConserves | src/connection/tcp_packet_stream.cpp:112-121 | every step keeps the packets delivered so far, serialized, followed by the bytes held, equal to all bytes read |
| Batches.BatchAnswers | src/connection.cpp:451-493 | a batch gives exactly these answers: for each request in flight the first response for it that is reached while connected, with its data and error flag; and exactly those requests are no longer in flight |
| Batches.BatchEvents | src/connection.cpp:416-449 | a batch broadcasts exactly the first kick or undecodable message reached while connected |
| Batches.BatchBeats | src/connection.cpp:411-414 | a batch counts a heartbeat of the server, at the time of the batch, if and only if one is reached while connected |
| Causes.StepGrounded | src/connection.cpp:349-507 | every step calls a handler with an answer, or broadcasts an event, if and only if it has the stated cause for it, and at most one event |
| Causes.StepFlights | src/connection.cpp:87-118 | a request is in flight after a step if and only if its send succeeds in it, or it was in flight and neither its timeout runs nor a response for it is processed; a new one is tied to the wait started for it |
| Causes.StepHears | src/connection.cpp:411-414 | the heartbeats counted become non-empty exactly in a step that processes a heartbeat packet while connected |
| Offers.HelloBytes | src/connection.cpp:166-168 | the handshake text in literal bytes |
| Offers.StepOffersExactly | src/connection/tcp_packet_stream.cpp:76-85 | exactly which packet a step offers to be sent, in literal bytes, with which callback; that it is refused with fifty queued and otherwise accepted with one task behind all others; and which tasks are left |
| Deadlines.StepStarts | src/connection/state.cpp:11-78 | exactly which waits a step starts, with which deadlines: a request's timeout after its send, tick and threefold timeout when the connection is established, the next tick one interval after one runs; and waits keep their deadline while they wait |
| Sessions.StepState | src/connection/state.cpp:47-78 | the acknowledgement's send alone establishes a session, with its interval, its dictionary and the inverse, at the time of the step; a tick changes only the tick; anything else keeps the state or loses the connection |
| Sessions.StepSession | src/connection/state.cpp:47-78 | every step keeps the session that of the acknowledged response |
| Sessions.StepReceives | src/connection.cpp:384-405 | exactly which receive and connect are pending after a step: the receive goes on after every batch, even one that loses the connection, and after no error |
| Halts.BatchHaltsIff | src/connection.cpp:399-449 | a batch ends the run if and only if it has a packet of a type not expected, or an undecodable message while the connection is up, and the first such packet decides how |
| Halts.StepHaltsIff | src/connection/tcp_packet_stream.cpp:111-228 | for each assertion, exception or undefined read: a step runs into it if and only if the stated condition holds of the step and the state before it |
| Refusals.StepRefusesIff | src/connection/tcp_packet_stream.cpp:76-85 | a step drops a request if and only if it runs its task while connected, with a route of the dictionary, and fifty packets are queued |
| Refusals.RefusedIff | src/connection/tcp_packet_stream.cpp:76-85 | over every run, a request was dropped if and only if some step did so on that condition |
| Theorems.StepInv | src/connection.cpp:53-507 | every step that can happen keeps all invariants together |
| Theorems.RunInv | src/connection.cpp:53-507 | they hold after every run with one Start |
| Theorems.HandlersCalledAtMostOnce | src/connection.cpp:470-478 | after every run no request handler has been called twice, and only handlers of posted requests have been called |
| Theorems.RequestsConserved | src/connection.cpp:54-120 | while a run goes on, each posted request's handler is in exactly one of: posted task, send queue, send in progress, in flight, answered, refused |
| Theorems.InFlightHasTimer | include/pitaya/request.h:31-40 | each request in flight has its own timeout wait pending and not aborted |
| Schedule.RequestDeadline | include/pitaya/request.h:31-40 | the timeout of a request in flight is due exactly the time given in its PostRequest call after the step in which its send succeeded |
| Schedule.TimeoutIsDue | src/connection.cpp:99-115 | until the ids wrap, every Timeout answer is given no earlier than that |
| Theorems.QuiescenceMeansExactlyOnce | src/connection.cpp:452-507 | when nothing is pending any more, nothing is in flight and each posted request was answered exactly once, unless its task ran while connected, with a route of the dictionary, when fifty packets were queued, and then it was not answered |
| Settling.CanComeToRest | src/connection.cpp:54-120 | every run that has not ended can come to rest without another call of the client, and then has answered exactly the requests that had not been refused |
| Theorems.RepliesMatchRequests | src/connection.cpp:456-480 | an Ok or ServerError answer has the data and error flag of a response received for the id that the request's own packet carried on the wire |
| Theorems.ResponsesAnswerOneRequest | src/connection.cpp:464-478 | before the id counter wraps, no two answers come from responses with the same id |
| Theorems.LateRepliesAreIgnored | src/connection.cpp:495-507 | before the id counter wraps, an answered request's id is not in flight, so a late response answers nobody and its timeout changes nothing |
| Theorems.OutboundOrder | src/connection.cpp:158-179 | the packets handed to the socket are a handshake, its acknowledgement, then data and heartbeats, and none of those is even accepted before the acknowledgement's send has succeeded |
| Posts.SessionWasNegotiated | src/connection.cpp:301-347 | an established connection works with the interval, the dictionary and the inverse dictionary of the handshake response that was received |
| Posts.RequestCarriesItsRoute | src/connection.cpp:82-85 | in every run the packet of a request is the flag 1, its id and the two bytes of the code that the negotiated dictionary gives to the route of its own PostRequest call, with that call's timeout; if the route is recoverable, decoding gives exactly that route |
| Posts.RequestIsAccepted | src/connection.cpp:65-87 | a request that is run while connected with a route of the dictionary and fewer than fifty packets queued is accepted in those bytes with the next id |
| Posts.IssuedCounts | src/connection.cpp:82-83 | the count behind the ids is the number of requests run while connected |
| Posts.RequestsKeepTheirOrder | src/connection.cpp:53-87 | requests are accepted for sending in the order of their PostRequest calls |
| Theorems.EventsOfEveryRun | src/connection.cpp:349-382 | the events of a run are none, one failure, one connection, or a connection and then exactly one error or kick; the state is Connected exactly in the third case |
| Theorems.HandshakeFailureAnnouncedIff | src/connection.cpp:361-371 | after every run in which the handshake is over without a connection, nothing was broadcast if and only if a step of the run was a failed acknowledgement or a lone handshake response that cannot be used |
| Theorems.LostForGood | src/connection.cpp:349-382 | once the connection is lost or has failed, no continuation of the run establishes it again |
| Witnesses.CanEstablish | src/connection.cpp:301-347 | for every interval and dictionary some run establishes the connection with them |
| Witnesses.CanFailSilently | src/connection.cpp:247-250 | a run whose handshake response is not valid JSON: the handshake is over and nothing was broadcast |
| Witnesses.CanMissSilence | src/connection/state.cpp:80-91 | a run in which one heartbeat was processed in time, after which no continuation reports a heartbeat timeout |
| Witnesses.CanBeatOnTime | src/connection/state.cpp:11-30 | for every n, a run in which exactly n intervals have passed since the connection was established and exactly n heartbeats have been offered |
| Witnesses.CanGetStuck | src/connection/tcp_packet_stream.cpp:96-111 | a run that ends on the assertion that a receive returns bytes |
| Witnesses.CanRefuse | src/connection/tcp_packet_stream.cpp:82-84 | for every dictionary and route in it, a run in which the fifty-first request is dropped |
| Theorems.EveryAnswerHasACause | src/connection.cpp:65-118 | each handler call of a run was made by a step that appended it with grounds for its status: not connected when the task ran, a failed send, a timer expired while in flight, or a response for the id while in flight; Reset is never given |
| Theorems.AnsweredIff | src/connection.cpp:62-120 | after every run a handler has been given an answer if and only if some step of the run had the stated cause for it; so the first response for a request in flight is passed on to it |
| Exchanges.ResponseIsPassedOn | src/connection.cpp:451-480 | in every run, the literal bytes of a response for a request in flight, read at once, call its handler with Ok or ServerError and the data, and take it out of flight |
| Theorems.InFlightIff | src/connection.cpp:87-118 | a request is in flight exactly from the success of its send until its timeout runs or a response for it is processed |
| Theorems.EveryEventHasACause | src/connection.cpp:349-382 | each event of a run was broadcast by a step that appended it with grounds for exactly that event and error code |
| Theorems.BroadcastIff | src/connection.cpp:349-382 | after every run an event has been broadcast if and only if some step of the run had the stated cause for it |
| Theorems.HeartbeatTimeoutIsJustified | src/connection/state.cpp:66-75 | a heartbeat timeout is raised only by the callback of a timeout wait that a step of the run had expired, at a time when three intervals had passed since the connection was established and before which no heartbeat was processed |
| Theorems.EstablishedIsAttended | src/connection/state.cpp:47-78 | while connected a receive, the next tick and, before the first heartbeat, the timeout are pending, so a run at rest is not connected |
| Theorems.WaitingTimeoutMeansNoHeartbeat | src/connection/state.cpp:80-91 | the timeout is being waited for only until the first heartbeat is processed |
| Theorems.TimeoutPossibleIff | src/connection/state.cpp:89-90 | while connected some continuation raises a heartbeat timeout if and only if no heartbeat has been processed, or the timeout had expired already and its callback has not run |
| Theorems.HeartbeatsArePaced | src/connection/state.cpp:11-30 | as many heartbeat packets are offered as steps of the run in which an expired tick ran while connected, and n of them take at least n intervals |
| Schedule.TickDeadline | src/connection/state.cpp:11-30 | while connected, the next tick is due exactly one interval after the connection was established or the last tick ran |
| Schedule.HeartbeatsOnSchedule | src/connection/state.cpp:11-30 | in every run whose ticks expire and run when due, exactly one heartbeat has been offered per full interval since the connection was established, but for one that is due now |
| Schedule.SessionBegan | src/connection/state.cpp:47-78 | that time is the time of the step in which the acknowledgement's send succeeded |
| Theorems.HeardIff | src/connection/state.cpp:80-91 | heartbeats have been counted if and only if a step of the run processed a heartbeat packet while connected |
| Theorems.NoBeatsOnceLost | src/connection/state.cpp:11-30 | once the connection is lost or has failed, no continuation of the run offers another heartbeat packet |
| Theorems.SendsArePaired | src/connection/tcp_packet_stream.cpp:76-85 | as many posted sends as queued packets, at most fifty, and packets are handed over in acceptance order with the callbacks they were accepted with |
| Theorems.WriteBuffersAreExact | src/connection/tcp_packet_stream.cpp:139-160 | until the 32-bit id wraps, the write set holds exactly the serializations of the outstanding and the failed sends, all below the next id |
| Theorems.BytesConserved | src/connection/tcp_packet_stream.cpp:94-128 | after every run the packets delivered, serialized, followed by the bytes held, are all bytes read, and while a receive is pending both are what one parse of all bytes read gives |
| Theorems.NoRoomMeansOversizeFrame | src/connection/tcp_packet_stream.cpp:96-113 | while a receive is pending the 2048-byte buffer holds one incomplete frame, with no room left only if that frame is larger than the buffer; a receive that returns fails the assertion on a zero-byte read if and only if the buffer is full |
| Theorems.StuckIff | src/connection/tcp_packet_stream.cpp:96-113 | once a frame's header is held, the run can fail that assertion before delivering another packet if and only if the length announced does not fit the buffer |
| Theorems.RunEndsIff | src/connection.cpp:62-120 | a run ends in this way if and only if its last step has the cause stated for it |
| Theorems.AssertionsHold | src/connection/tcp_packet_stream.cpp:133-159 | the assertions on an empty send queue and an empty batch never fail, the one on write ids only after 2^32 sends, the one on request ids only after 2^64 requests |
| Connections.NewDataBody | include/pitaya/protocol/packet.h:103-110 | the body of a Data packet is the encoded message, and there is none exactly for a route outside the dictionary |
| Connections.Connection.constructor | src/connection.cpp:30-37 | a new connection is in the initial state, with a 2048-byte buffer |
| Connections.Connection.SetInited | src/connection/state.cpp:32-36 | leaves Connected, aborting both heartbeat waits unless they have expired |
| Connections.Connection.SetConnected | src/connection/state.cpp:47-78 | starts both heartbeat waits and builds the inverse dictionary |
| Connections.Connection.HeartbeatTick | src/connection/state.cpp:11-30 | offers a heartbeat and waits for the next tick, only while connected |
| Connections.Connection.ExtendHeartbeatTimeout | src/connection/state.cpp:80-91 | aborts the timeout wait and starts no new one |
| Connections.Connection.HandshakeFailed | src/connection.cpp:349-359 | returns to Inited and broadcasts the failure |
| Connections.Connection.ConnectionError | src/connection.cpp:361-371 | takes an established connection down with an error event, and does nothing otherwise |
| Connections.Connection.KickedFromServer | src/connection.cpp:373-382 | takes an established connection down with a kick event, and does nothing otherwise |
| Connections.Connection.PostRequest | src/connection.cpp:53-63 | posts the request's task under a new token |
| Connections.Connection.RunRequestTask | src/connection.cpp:62-87 | answers NotConnectedError when not connected, and otherwise takes the next id and sends the encoded request |
| Connections.Connection.OnRequestSent | src/connection.cpp:87-118 | answers InternalError on failure, and otherwise puts the request in flight with a timeout wait |
| Connections.Connection.OnHandshakePackets | src/connection.cpp:194-314 | each outcome of the handshake response, with its error or the acknowledgement sent |
| Connections.Connection.StartReceivingPackets | src/connection.cpp:316-347 | establishes the connection, announces it and starts receiving |
| Connections.Connection.OnSendDone | src/connection/tcp_packet_stream.cpp:147-156 | runs the packet's own callback and releases its bytes, which a failed send keeps |
| Connections.Connection.ProcessMessage | src/connection.cpp:451-493 | answers the request in flight under a response's id and ignores everything else |
| Connections.Connection.ProcessRequestTimeout | src/connection.cpp:495-507 | answers a request still in flight with Timeout |
| Connections.Connection.ProcessPacket | src/connection.cpp:407-449 | dispatches a packet by type, with every error branch |
| Connections.Connection.ProcessPackets | src/connection.cpp:399-401 | the loop over a batch does what its packets do one after the other, stopping if the run ends |
| Connections.Connection.OnReceiveDone | src/connection/tcp_packet_stream.cpp:100-127 | a completed receive fills and parses the buffer and does what the transition system says for each outcome |
| Connections.Connection.OnWaitDone | src/connection.cpp:105-115 | a finished wait runs its callback, or nothing if it was aborted |
| Connections.Connection.Perform | src/connection.cpp:509-517 | any step performed on the objects takes them where the transition system goes |
| Connections.Connection.Run | src/connection.cpp:509-517 | a whole run on the objects ends in the state that Exec gives |

## Left out

- zlib compression and decompression: a library; the message decoder takes the decompressor as a parameter, and decompressing the handshake response is part of its arbitrary outcome.
- JSON parsing of the handshake response: an arbitrary outcome, either unusable or an interval and a dictionary; the serializer name is not kept because nothing reads it.
- Sockets, DNS resolution, `Disconnect` and thread start and join: pending operations complete with arbitrary outcomes, and a send is all or nothing.
- An address that cannot be split or resolved: `Start` then does nothing or throws before any operation is pending.
- Repeated or overlapping `Start` calls: runs have one `Start`; stale callbacks of an earlier session are not modelled.
- Lifetimes of send buffers, mutexes and listeners that call back into the connection: a step is atomic on one worker thread.
- Overflow of the heartbeat interval in seconds, and clocks that jump: intervals and the clock are unbounded natural numbers.
- Encoding of routes outside the dictionary: unreachable, because the lookup throws first; decoding such routes is modelled as the code does it, but no round trip is claimed.
- Builds with assertions disabled.
- Logger, error message strings, stream output operators, the `Client` wrapper, the example and the build files.
- Schedule.TimeoutIsDue: until the 64-bit ids wrap; after that a timeout that had expired for an answered request can meet a later request with the same id.
- Settling.CanComeToRest: for fewer than 2^32 accepted packets; beyond that, handing over the packets still queued can run into the write-id assertion, and whether it must depends on which earlier sends failed.
- Connections.Connection.ConnectionError: disconnecting the socket has no effect of its own; its pending operations still complete with any outcome, which includes being cancelled.
- Connections.Connection.KickedFromServer: the same.
- Connections.Connection.OnHandshakePackets: decompression and the field checks on the JSON are one arbitrary outcome.
- PacketStreams.TcpPacketStream.ReadChunks: the driver of the read loop is a loop over the reads; in the program each round is a callback that starts the next receive.
- PacketStreams.TcpPacketStream.ReadAll: the driver of the read loop is a loop over the reads; in the program each round is a callback that starts the next receive.
- Connections.Connection.HeartbeatTick: the source's `State` object and its timers are fields of the connection and of the io_context here, because its callbacks are the connection's own.
