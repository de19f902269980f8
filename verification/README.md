# Fomoxa: a verified model of the connection runtime and the simulation

This project models the network runtime that the example games use to talk to their
server, the wire codec beside it, and the authoritative simulation, and proves
properties of them. `dafny verify dfyconfig.toml` checks all of it.

* **Frames** (`Frame`, `FrameWire`, `StreamDecoder`, `GodotFrame`). Printing and parsing
  are inverses, printed frames form a prefix code, and the frames of a stream do not
  depend on how it was cut. The C decoder with its reclaiming buffer and the
  GDScript decoder are both shown to implement the same incremental decoder. The layout
  and the errors are stated byte by byte.
* **Negotiation** (`Schema`, `Handshake`, `HandshakeWire`, `HandshakeBuffers`,
  `Negotiation`, `GeneratedHandshake`, `Session`, `SessionObject`, `SessionRuns`,
  `SessionTiming`, `Timeouts`, `Exchange`, `Verdicts`). A client announces a table of
  message fingerprints; the server accepts, refuses, or asks once for the fingerprints of
  prefixes. Both ends become ready exactly when the compared fingerprints agree. Where
  fingerprints tell the compared field lists apart, that means that on every shared
  message the shorter list is a prefix of the longer; what happens where they do not is
  stated too. The handshake ends against any peer. What each side makes of each payload,
  well-formed or not, and exactly when a tick probes or gives up, is told by the bytes and
  by the times alone.
* **Connections** (`Core`, `CoreLaws`, `ConnectionRuns`, `ConnectionSteps`, `Delivery`,
  `EventGrammar`, `Budget`, `UnresponsiveCauses`, `SessionOfCore`, `Endings`, `Liveness`,
  `Sending`, `CoreObject`). A connection is a session over a transport, with an outbox for
  what the transport would not take and budgets for what a tick may do. The transport
  answers each call from an arbitrary script. Messages arrive in order and none is lost,
  repeated or invented; events follow a grammar; a connection reports and sends exactly
  what its session does; it dies of exactly what it meets and says so; and a tick leaves
  nothing undone that its budget and its transport allow.
* **Values** (`Utf8`, `Utf8Grammar`, `Codec`, `CodecBuffers`, `Messages`, `Snapshot`,
  `ValueWire`). Round trips, version skew for every cut of every flat message, which bytes
  give which error, and an exact UTF-8 validator.
* **Simulation** (`World`, `WorldRuns`, `WorldLaws`, `WorldObject`). Who is in the world,
  which input a player obeys, where it walks and when it jumps; jump energy and its closed
  form, the speed limit, and the order of inputs.
* **UDP hub** (`Udp`, `UdpRuns`, `UdpLaws`, `UdpSlot`, `UdpHub`). Linked-list queues and a
  ring of arrivals: who gets which slot, the order of acceptance, and what a peer receives
  over the life of its slot.

Each part has a specification made of functions on values, laws about that
specification over every run, and classes whose methods update fields, arrays and
linked nodes in place and are proved to do what the specification says: their
postconditions equate the new abstract value with the specification applied to the
old one. `History` in `Core` (frames committed, frames taken in per state, events) is
bookkeeping for the proofs; the source has only the events.

Where comments in the source promise more than the code does, the model follows the
code.

* `core.c:192-199` says a refusal must not be lost behind a full outbox. Applying the
  refusal shuts the connection down and empties the outbox, so it reaches the peer only
  if nothing waits and the transport takes all of it at once
  (`CoreLaws.RefusalIsSentExactly`).
* The same comment says that passing the ceiling means the peer stopped reading, and the
  same reason is used as for a heartbeat timeout. A single blocked send of the largest
  default message is over the ceiling, and a peer that then sends a probe is called
  unresponsive in the tick that hears it (`UnresponsiveCauses.LivelyPeerIsBuried`).
  `UnresponsiveCauses.UnresponsiveHasACause` says what the report does mean.
* A session that calls its peer unresponsive closes without its connection dying, so it
  is not finished (`EventGrammar.UnresponsiveIsNotFinished`).

## Model

| member | source | states |
|---|---|---|
| Delivery.InOrderDelivery | clients/unreal/Source/FomoxaExample/ThirdParty/fomoxa/src/core.c:162-364 | over every run of a client and a server joined by byte pipes, whatever the transports take, give or refuse: the messages one end reports are a beginning of the sends that returned OK at the other, and no data reaches an end that is still handshaking |
| Delivery.NothingIsLost | clients/unreal/Source/FomoxaExample/ThirdParty/fomoxa/src/core.c:296-364 | once a ready end has taken in all that was committed to it, it has reported exactly the payloads sent to it |
| Delivery.OutboxConservation | clients/unreal/Source/FomoxaExample/ThirdParty/fomoxa/src/core.c:130-243 | on every run: bytes taken by the transport followed by the outbox are the print of the committed frames until shutdown, a beginning of it afterwards, and the outbox stays within its bound |
| Exchange.ExactNegotiation | clients/unreal/Source/FomoxaExample/ThirdParty/fomoxa/src/session.c:169-260 | for all schemas that pass the start-up check, exchanging the emitted payloads makes both ends READY iff the schemas are compatible and otherwise makes both report a schema conflict; no other failure occurs, and four payloads are enough |
| Negotiation.SettledMeaning | clients/unreal/Source/FomoxaExample/ThirdParty/fomoxa/src/handshake.c:125-317 | the verdict of the whole exchange is acceptance iff compatible, else conflict; never malformed, never unanswerable |
| Negotiation.NegotiationIsSymmetric | clients/unreal/Source/FomoxaExample/ThirdParty/fomoxa/src/handshake.c:125-317 | swapping the roles of the two schemas gives the same verdict |
| Negotiation.AcceptedExactly | clients/unreal/Source/FomoxaExample/ThirdParty/fomoxa/src/handshake.c:125-317 | with no assumption on fingerprints: acceptance holds iff the schema fingerprints agree or, on every shared message, one field list is a prefix of the other or the two collide in a fingerprint the exchange compares |
| Negotiation.AcceptedMeansPrefixes | clients/unreal/Source/FomoxaExample/ThirdParty/fomoxa/src/handshake.c:125-317 | if fingerprints tell apart the beginnings of the two field lists of each shared message, and equal schema fingerprints mean equal tables, acceptance holds iff on every shared message one field list is a prefix of the other |
| Negotiation.OneMessageDecides | clients/unreal/Source/FomoxaExample/ThirdParty/fomoxa/src/handshake.c:125-185 | with concrete non-empty field lists and a fingerprint that tells them apart, a grown list is accepted and a changed one refused; one with a colliding fingerprint is accepted wrongly |
| StreamDecoder.ChunkingIndependence | clients/unreal/Source/FomoxaExample/ThirdParty/fomoxa/src/frame.c:221-278 | two runs fed the same bytes and drained agree on the frames and on the error, however the bytes were cut and interleaved with takes |
| GodotFrame.SameFramesAsC | clients/godot/addons/fomoxa/fomoxa_frame.gd:81-157 | on every run the GDScript decoder has taken the same frames as the C decoder at the 16 MiB limit; when they differ on the error, the C decoder has met a wrong marker, which the other reports once eleven bytes are there |
| EventGrammar.EventsFollowTheGrammar | clients/unreal/Source/FomoxaExample/ThirdParty/fomoxa/src/session.c:262-354 | on every run over either kind of transport: CONNECTED first, READY at most once and second, traffic only after it, one terminal event at most and last, a failed handshake only without READY; `terminated` means closed; closed iff a terminal event was reported or the application closed |
| EventGrammar.RunsOnlyAdvance | clients/unreal/Source/FomoxaExample/ThirdParty/fomoxa/src/session.c:152-167 | however a run goes on, the state never moves back, no event is taken back, and a closed announced connection reports nothing more |
| SessionRuns.HandshakeTerminates | clients/unreal/Source/FomoxaExample/ThirdParty/fomoxa/src/session.c:169-260 | against arbitrary traffic a session leaves the handshake within two handshake frames and sends at most one query or reply |
| UnresponsiveCauses.UnresponsiveHasACause | clients/unreal/Source/FomoxaExample/ThirdParty/fomoxa/src/core.c:188-208 | with a clock that does not run backwards, whenever a call of any run reports an unresponsive peer it is a tick, and either the connection is dead because the very frame it owed to the last frame that tick took in, or the probe due after it, would have passed the outbox ceiling (with at least the ceiling waiting, once past the handshake), or the connection lives and the tick comes at least silence window plus heartbeat timeout after the start and after every call that took a frame in |
| UnresponsiveCauses.LivelyPeerIsBuried | clients/unreal/Source/FomoxaExample/ThirdParty/fomoxa/src/core.c:192-202 | the first cause does occur, from the start and for every schema: hello taken, acceptance heard, one wholly blocked send of the largest default message, and the tick that hears the peer's probe reports the probe and calls the peer unresponsive |
| UnresponsiveCauses.PeerIsHeardAndBuried | clients/unreal/Source/FomoxaExample/ThirdParty/fomoxa/src/core.c:192-202 | the same from every ready connection with nothing waiting: after a wholly blocked send of the largest default message, the tick that hears the peer's probe reports the probe and calls the peer unresponsive |
| UnresponsiveCauses.ProbeAtTheCeiling | clients/unreal/Source/FomoxaExample/ThirdParty/fomoxa/src/core.c:192-202 | a ready connection that hears a probe calls its peer unresponsive for it iff at least the ceiling is waiting |
| UnresponsiveCauses.HeardYetUnresponsive | clients/unreal/Source/FomoxaExample/ThirdParty/fomoxa/src/core.c:449-451 | with the ceiling waiting, a probe heard is reported together with the disconnection of the peer that sent it |
| UnresponsiveCauses.BlockedSendFillsOutbox | clients/unreal/Source/FomoxaExample/ThirdParty/fomoxa/src/core.c:455-475 | a wholly blocked send of 65536 bytes returns OK and leaves at least the ceiling waiting |
| SessionTiming.OnlySilentPeersAreUnresponsive | clients/unreal/Source/FomoxaExample/ThirdParty/fomoxa/src/session.c:311-344 | of the session alone: a tick of it that reports UNRESPONSIVE comes at least silence window plus heartbeat timeout after the start and after every frame heard; what the connection adds is said by UnresponsiveCauses |
| SessionTiming.UnresponsiveWithinBound | clients/unreal/Source/FomoxaExample/ThirdParty/fomoxa/src/session.c:311-344 | a ready session that hears nothing after `t` and is ticked at gaps of at most `gap`, on past `t` + interval + timeout + `gap`, has been closed by a tick no later than `t` + interval + timeout + 2 `gap` |
| SessionTiming.OneProbeAtATime | clients/unreal/Source/FomoxaExample/ThirdParty/fomoxa/src/session.c:311-344 | between two probes something was heard |
| Utf8.IsValidUtf8 | clients/unreal/Source/FomoxaExample/Protocol/Generated/runtime.hpp:462-489 | the validator accepts exactly the byte strings that are the encoding of some sequence of Unicode scalar values (RFC 3629, sections 3 and 4) |
| Utf8.TextIsUnique | clients/unreal/Source/FomoxaExample/Protocol/Generated/runtime.hpp:462-489 | no byte string encodes two different sequences of scalar values |
| Codec.EveryCut | server/src/generated/runtime.rs:286-306 | for every cut of every encoding of a flat record: between fields it decodes to the leading fields and zeros, inside a field it is an unexpected end in that field |
| Codec.DecodedWasWritten | server/src/generated/runtime.rs:313-465 | whatever decodes is the print of leading fields, and the other fields are zero because the bytes had ended |
| Snapshot.SnapshotRoundTrip | server/src/generated/world_snapshot_game.rs:38-66 | a snapshot with any list of players that the wire and the limit allow decodes to itself, over any old value and before any trailing bytes |
| Snapshot.SkewStopsAtLists | server/src/generated/world_snapshot_game.rs:54-66 | inside a list the skew rule fails: when an old list of two or more is decoded, its first element takes the next one's id for the field it lacks, and is right iff that id is zero |
| Snapshot.OldSnapshotIsMisread | server/src/generated/world_snapshot_game.rs:54-66 | an old snapshot of two or more players, the second with an id, never decodes to its players with the missing field zero |
| WorldRuns.RunIsSafe | server/src/world.rs:74-148 | on every run, for any step lengths and inputs: players stay in the plane square, directions are at most one long, pitch and yaw are in range, height and energy are bounded, ids are distinct |
| WorldRuns.JumpsAreBounded | server/src/world.rs:138-147 | height never exceeds JUMP_SPEED^2 / (2 GRAVITY) |
| WorldRuns.JumpIsBallistic | server/src/world.rs:108-147 | over any run with steps of one length, whatever inputs and other peers do in flight, a jump follows the closed form for exactly as long as that is above the plane, and the step that would take it lower lands it |
| WorldRuns.JumpLandsInTime | server/src/world.rs:108-147 | over any such run the player has been on the plane again once n steps were taken with (n + 1) GRAVITY dt at least twice the jump speed |
| WorldRuns.SpeedLimit | server/src/world.rs:130-136 | over any stretch of any run a player that does not leave gets no further than full speed for the time that passed |
| WorldRuns.RunInputOrderIsIrrelevant | server/src/world.rs:108-148 | two runs that bring a peer the same inputs, with distinct numbers and finite look angles, in any order and between any other happenings, leave its player the same direction, jump flag, look and number |
| WorldRuns.RunControls | server/src/world.rs:108-148 | over any run in which a peer stays, steps and other peers do not touch what its inputs decide |
| WorldRuns.InputOrderIsIrrelevant | server/src/world.rs:108-128 | the same inputs with distinct numbers and finite look angles leave a player the same in any order |
| WorldRuns.HighestInputWins | server/src/world.rs:108-128 | the result is that of the highest-numbered input alone |
| Udp.Play | clients/unreal/Source/FomoxaExample/ThirdParty/fomoxa/src/transport/udp.c:262-466 | on every run of the hub: used slots have distinct addresses, each is in line exactly once or owned by exactly one live peer, queues hold at most 64 datagrams |
| UdpRuns.SlotIsFifo | clients/unreal/Source/FomoxaExample/ThirdParty/fomoxa/src/transport/udp.c:262-423 | over the life of a slot: its queue is the end of what it held and its address has sent since, and what its peer was handed is, in order, part of what came before; only the oldest waiting are dropped |
| UdpRuns.NewcomerIsFifo | clients/unreal/Source/FomoxaExample/ThirdParty/fomoxa/src/transport/udp.c:295-349 | a slot claimed during a pump ends it with what its address sent in that pump, in order, cut to the latest 64 |
| Udp.PumpIsFifo | clients/unreal/Source/FomoxaExample/ThirdParty/fomoxa/src/transport/udp.c:262-349 | after a pump the queue of a slot in use is what it held followed by what its address sent, in order, cut to the latest 64 |
| Udp.NoNewcomerIsForgotten | clients/unreal/Source/FomoxaExample/ThirdParty/fomoxa/src/transport/udp.c:336-341 | the ring of arrivals never overflows: whenever a newcomer takes a slot there is room in line |
| GeneratedHandshake.DecidersAgree | server/src/generated/handshake.rs:244-265 | on any table of distinct ids the runtime's decider accepts, refuses or asks exactly when the generated one says current or outdated, reject or need more; the questions are the open entries in table order |
| Verdicts.WrongVersionIsRefused | clients/unreal/Source/FomoxaExample/ThirdParty/fomoxa/src/session.c:207-240 | a server that waits for a hello answers 1, closes and reports the wrong version for every hello of another version than 2 and for nothing else; it answers 3 and reports a malformed hello for whatever is no hello |
| Verdicts.ServerJudgesHello | clients/unreal/Source/FomoxaExample/ThirdParty/fomoxa/src/session.c:242-259 | a hello of version 2 from any client, repetitions and all: same schema is let in with 0; a table that leaves more open than the server has messages is answered 3; one with a conflict 2; one that leaves nothing open is let in; otherwise exactly what is open is asked |
| Verdicts.ServerJudgesReply | clients/unreal/Source/FomoxaExample/ThirdParty/fomoxa/src/session.c:211-229 | the payload after a query: 0 iff every question is answered in order with the right fingerprint, 2 iff the first answer that is not right names the right message, 3 for everything else; a second question is never asked |
| Verdicts.ClientJudges | clients/unreal/Source/FomoxaExample/ThirdParty/fomoxa/src/session.c:169-205 | a client becomes ready iff it hears the byte 0, reports the failure that 1, 2 or 3 stands for, answers its first fair query, and calls everything else a malformed peer |
| Verdicts.AnswerIsExact | clients/unreal/Source/FomoxaExample/ThirdParty/fomoxa/src/handshake.c:274-295 | a question is answerable iff it is about a message of the table and a beginning of its fields that is neither empty nor all of them, and is answered with the fingerprint of that |
| Verdicts.TrafficMeans | clients/unreal/Source/FomoxaExample/ThirdParty/fomoxa/src/session.c:262-309 | what every other frame does in every state: probes are acknowledged while open, data and heartbeats are reported exactly while ready, handshake frames are ignored once it is over, a closed session is deaf |
| Verdicts.OtherVersionsAreRefused | clients/unreal/Source/FomoxaExample/ThirdParty/fomoxa/src/session.c:207-240 | an exchange in which the client speaks any version but 2 ends with both ends closed, both reporting the wrong version, and neither ready |
| Verdicts.GarbageIsRefused | clients/unreal/Source/FomoxaExample/ThirdParty/fomoxa/src/session.c:207-236 | an exchange whose first payload is no hello ends with both ends closed and reporting a malformed hello |
| HandshakeWire.HelloOfParse | clients/unreal/Source/FomoxaExample/ThirdParty/fomoxa/src/handshake.c:96-123 | whatever is taken for a hello is the print of what was read from it |
| HandshakeWire.QueryOfParse | clients/unreal/Source/FomoxaExample/ThirdParty/fomoxa/src/handshake.c:204-229 | whatever is taken for a query is the print of what was read from it |
| HandshakeWire.ReplyOfParse | clients/unreal/Source/FomoxaExample/ThirdParty/fomoxa/src/handshake.c:247-272 | whatever is taken for a reply is the print of what was read from it |
| HandshakeWire.HelloLayout | clients/unreal/Source/FomoxaExample/ThirdParty/fomoxa/src/handshake.c:76-94 | where version, fingerprint, count and each line stand in a hello, in which width and byte order |
| HandshakeWire.QueryLayout | clients/unreal/Source/FomoxaExample/ThirdParty/fomoxa/src/handshake.c:187-202 | where the tag 4, the count and each item stand in a query |
| HandshakeWire.ReplyLayout | clients/unreal/Source/FomoxaExample/ThirdParty/fomoxa/src/handshake.c:231-245 | where the count and each item stand in a reply |
| Timeouts.TickIsExact | clients/unreal/Source/FomoxaExample/ThirdParty/fomoxa/src/session.c:311-344 | at any moment of any run, told by when the peer was last heard and probed: a tick reports a handshake timeout iff a client's handshake goes on past its time, calls the peer unresponsive iff a probe has gone unanswered for its time, probes iff none is out and the peer is silent for the window, and does nothing else |
| Timeouts.OnlyTicksTimeOut | clients/unreal/Source/FomoxaExample/ThirdParty/fomoxa/src/session.c:319-324 | nothing but a tick of a handshaking client reports a timeout |
| Timeouts.ClientGivesUpInTime | clients/unreal/Source/FomoxaExample/ThirdParty/fomoxa/src/session.c:319-324 | a client that hears anything but handshake frames and is ticked at gaps of at most `gap` on past its time reports the timeout within one gap of it, and nothing before |
| Timeouts.ServerGivesUpInTime | clients/unreal/Source/FomoxaExample/ThirdParty/fomoxa/src/session.c:326-343 | a server that hears nothing is closed by a tick no later than handshake timeout, heartbeat timeout and two gaps after it began |
| SessionOfCore.ConnectionIsItsSession | clients/unreal/Source/FomoxaExample/ThirdParty/fomoxa/src/core.c:245-279 | at every moment of every run the session of a connection is what a run of inputs makes of its first one; after CONNECTED the events are exactly what that run reports; while the connection lives and no packet is too large, the frames sent, data aside, are exactly what it asked to send |
| SessionOfCore.CoreTickTells | clients/unreal/Source/FomoxaExample/ThirdParty/fomoxa/src/core.c:431-453 | a tick puts the session through the frames it takes in, then through the tick itself unless the connection died before, then through the loss of the transport if it is dead, and tells and sends what comes of it |
| Endings.EndingsAreNoticed | clients/unreal/Source/FomoxaExample/ThirdParty/fomoxa/src/core.c:345-362 | on every run and over both kinds of transport: a tick in which a read answers closed leaves the connection dead and closed of that, and reports it last if the session was open; likewise an error for a read that breaks and for a stream that is no frame |
| Endings.EndingsHaveCauses | clients/unreal/Source/FomoxaExample/ThirdParty/fomoxa/src/core.c:296-364 | at every moment of every run a connection is dead of its peer's close iff a read or send has answered closed, and of an error iff one has answered broken or the stream was bad; only then is it reported |
| Endings.DeathIsReported | clients/unreal/Source/FomoxaExample/ThirdParty/fomoxa/src/core.c:431-453 | a connection that died between ticks reports what it died of in the next one |
| Endings.TickNoticesTheEnd | clients/unreal/Source/FomoxaExample/ThirdParty/fomoxa/src/core.c:431-453 | the same for one tick of any living connection with a valid session |
| Liveness.DrainIsThorough | clients/unreal/Source/FomoxaExample/ThirdParty/fomoxa/src/core.c:296-364 | a drain that leaves the connection alive has used up its budget of frames or reads, or has left no whole frame and met a read that gave nothing; the receive buffer has grown to every size asked for |
| Liveness.PacketsAreHeard | clients/unreal/Source/FomoxaExample/ThirdParty/fomoxa/src/core.c:296-364 | over a datagram transport the session hears exactly the frames among the packets read, in order |
| Liveness.PacketIsOneFrame | clients/unreal/Source/FomoxaExample/ThirdParty/fomoxa/src/frame.c:117-131 | a packet is a frame iff it is the print of one within the limits and nothing else |
| Liveness.FlushIsThorough | clients/unreal/Source/FomoxaExample/ThirdParty/fomoxa/src/core.c:210-243 | a flush that leaves bytes waiting and the connection alive has met a transport that takes no more |
| Liveness.TickSendsAll | clients/unreal/Source/FomoxaExample/ThirdParty/fomoxa/src/core.c:431-453 | after a tick over a transport that takes all it is given, nothing waits |
| Liveness.ConnectionTimesOut | clients/unreal/Source/FomoxaExample/ThirdParty/fomoxa/src/core.c:431-453 | on every run a tick that finds a client's connection alive and its handshake going on at the session's turn leaves exactly CONNECTED and the timeout, and the transport shut, iff the handshake's time is over |
| Liveness.SilentPeerTimesOut | clients/unreal/Source/FomoxaExample/ThirdParty/fomoxa/src/core.c:431-453 | a client whose peer never speaks, over either kind of transport, has reported exactly CONNECTED and the timeout and shut its transport within one gap of its time |
| Sending.SendIsJudged | clients/unreal/Source/FomoxaExample/ThirdParty/fomoxa/src/core.c:455-475 | every result of a send and exactly when it is given, in the order of the checks; when it is OK the bytes are with the transport or waiting, in order |
| Sending.InitIsExact | clients/unreal/Source/FomoxaExample/ThirdParty/fomoxa/src/core.c:366-409 | a connection is refused iff its hello would not fit a handshake frame; otherwise it starts handshaking with nothing reported, a receive buffer of 4096 bytes and room for its hello and the largest message |
| Sending.CloseIsSilent | clients/unreal/Source/FomoxaExample/ThirdParty/fomoxa/src/core.c:477-480 | closing drops what waits, shuts the transport and reports nothing |
| Sending.DeadAreSilent | clients/unreal/Source/FomoxaExample/ThirdParty/fomoxa/src/core.c:296-364 | once a connection of a run is dead nothing more is sent, taken in or put on its way |
| StreamDecoder.ErrorsLast | clients/unreal/Source/FomoxaExample/ThirdParty/fomoxa/src/frame.c:257-278 | an error once given is given for good, whatever is fed or dropped |
| FrameWire.FrameLayout | clients/unreal/Source/FomoxaExample/ThirdParty/fomoxa/src/frame.c:141-195 | the bytes of every kind of frame, number by number |
| FrameWire.LimitOfMessages | clients/unreal/Source/FomoxaExample/ThirdParty/fomoxa/src/frame.c:40-45 | the limit on messages is the one configured, unless that is zero or above 16 MiB |
| FrameWire.ErrorsAreExact | clients/unreal/Source/FomoxaExample/ThirdParty/fomoxa/src/frame.c:47-115 | which bytes give which error of a stream, and that there are no others |
| FrameWire.PacketErrorsAreExact | clients/unreal/Source/FomoxaExample/ThirdParty/fomoxa/src/frame.c:117-131 | a packet adds two errors: ending inside its frame, and going on after it |
| Utf8Grammar.GrammarIsEncoding | clients/unreal/Source/FomoxaExample/Protocol/Generated/runtime.hpp:462-489 | the octet ranges of section 4 of RFC 3629 describe exactly the encodings of scalar values that the validator accepts |
| ValueWire.ReadIsExact | server/src/generated/runtime.rs:393-465 | bytes are read as a value iff they begin with its print and it is within the limits |
| ValueWire.ErrorIsExact | server/src/generated/runtime.rs:393-465 | which error each kind of value gives on which bytes, in the order of the checks |
| ValueWire.InputLayout | server/src/generated/player_input_game.rs:15-47 | where each field stands in the 21 bytes of an input message |
| ValueWire.StateLayout | server/src/generated/player_state_game.rs:15-51 | where each field stands in the 29 bytes of a player's state |
| ValueWire.SnapshotLayout | server/src/generated/world_snapshot_game.rs:20-43 | a snapshot is its tick, the number of its players and their states |
| ValueWire.TooManyPlayers | server/src/generated/runtime.rs:430-451 | a snapshot that declares more players than the limit is refused by that error, and the players that were there stay |
| ValueWire.ZeroIsZero | server/src/generated/runtime.rs:286-306 | an absent field has the value whose print is zero bytes only |
| ValueWire.ShortSnapshots | server/src/generated/world_snapshot_game.rs:46-65 | a snapshot that ends before its tick or its players has zero and none, and a tick cut short leaves everything as it was |
| ValueWire.ErrorsKeepPlayers | server/src/generated/world_snapshot_game.rs:53-65 | an error anywhere in a snapshot leaves the players that were there |
| WorldLaws.RollIsRight | server/src/world.rs:74-106 | on every run exactly the peers that joined and have not left have players, with the number of their arrival, the name and kind they first gave and the colour of the number; the clock counts steps modulo 2^32 |
| WorldLaws.JoinIsExact | server/src/world.rs:74-102 | what joining does: a known peer keeps its player, another gets the next id and a player standing at the spawn point |
| WorldLaws.LeaveIsExact | server/src/world.rs:104-106 | leaving takes the player away and hands it over |
| WorldLaws.JumpsOnlyWhenAsked | server/src/world.rs:138-147 | a standing player leaves the plane in a step iff it holds jump and the step is short enough for the jump to outlast it |
| WorldLaws.UnaskedNeverJump | server/src/world.rs:108-148 | at every moment of every run a peer none of whose inputs since it joined asks for a jump stands on the plane |
| WorldLaws.WalkIsStraight | server/src/world.rs:130-136 | over any stretch of any run in which a peer sends no input its player goes straight on, five units a second along its direction, each coordinate stopping at the edge, however the time is cut into steps |
| WorldLaws.InputIsObeyed | server/src/world.rs:108-128 | an input is applied iff its peer has a player that has obeyed no higher number; then direction, jump and look are what it wishes, the direction shortened to one, and nothing else changes |
| WorldLaws.RunObeysTheHighest | server/src/world.rs:108-148 | at every moment of every run, whatever the inputs, direction and jump are those of the last among the peer's highest-numbered inputs since it joined |
| UdpLaws.AddressesCompare | clients/unreal/Source/FomoxaExample/ThirdParty/fomoxa/src/transport/udp.c:214-232 | two addresses are one iff both are of internet families and agree on family, length, port and host |
| UdpLaws.KnownSenderIsServed | clients/unreal/Source/FomoxaExample/ThirdParty/fomoxa/src/transport/udp.c:295-349 | a datagram of a sender that has a slot joins that slot's queue, which loses its oldest beyond 64, and changes nothing else |
| UdpLaws.NewcomerIsSeated | clients/unreal/Source/FomoxaExample/ThirdParty/fomoxa/src/transport/udp.c:317-341 | a sender that has none gets the first free slot and the end of the line |
| UdpLaws.StrangerIsDropped | clients/unreal/Source/FomoxaExample/ThirdParty/fomoxa/src/transport/udp.c:317-334 | with no slot free its datagram is dropped |
| UdpLaws.LineIsFifo | clients/unreal/Source/FomoxaExample/ThirdParty/fomoxa/src/transport/udp.c:336-466 | over every run peers are accepted exactly in the order in which they came, and an accept finds nobody only if nobody waits |
| UdpLaws.PumpReads | clients/unreal/Source/FomoxaExample/ThirdParty/fomoxa/src/transport/udp.c:262-293 | a pump reads the first 256 datagrams that have arrived, and none once the hub is closed |
| UdpLaws.RecvIsExact | clients/unreal/Source/FomoxaExample/ThirdParty/fomoxa/src/transport/udp.c:390-423 | a peer is handed the front of its queue, told the room it needs with nothing lost, or would block iff the queue is empty |
| UdpLaws.ClosingForgets | clients/unreal/Source/FomoxaExample/ThirdParty/fomoxa/src/transport/udp.c:234-245 | closing a peer frees its slot, so that its address is unknown, and nothing else |
| UdpLaws.RunIsBounded | clients/unreal/Source/FomoxaExample/ThirdParty/fomoxa/src/transport/udp.c:262-466 | on every run there are 256 slots, queues of at most 64 and at most 256 in line |
| Bytes.LeValueOfBytes | clients/unreal/Source/FomoxaExample/ThirdParty/fomoxa/src/frame.c:28-38 | reading back a little-endian number gives the number, if it fits the width |
| Bytes.LeBytesOfValue | clients/unreal/Source/FomoxaExample/ThirdParty/fomoxa/src/frame.c:28-38 | writing back what was read gives the bytes |
| Bytes.WriteLe | clients/unreal/Source/FomoxaExample/ThirdParty/fomoxa/src/handshake.c:53-70 | the bytes written one shift at a time are the little-endian ones, and nothing else in the buffer changes |
| Frame.DecodeOfEncode | clients/unreal/Source/FomoxaExample/ThirdParty/fomoxa/src/frame.c:47-195 | a printed frame, whatever follows, parses to itself and its exact length |
| Frame.EncodeOfDecode | clients/unreal/Source/FomoxaExample/ThirdParty/fomoxa/src/frame.c:47-195 | re-printing a parsed frame reproduces the bytes consumed, and the frame is within the limits |
| Frame.DecodeOfOversize | clients/unreal/Source/FomoxaExample/ThirdParty/fomoxa/src/frame.c:47-115 | a frame above the configured limit is refused as too large |
| Frame.DecodeIsStable | clients/unreal/Source/FomoxaExample/ThirdParty/fomoxa/src/frame.c:47-115 | a frame or an error, once decided, is not changed by later bytes |
| Frame.ProperPrefixIsIncomplete | clients/unreal/Source/FomoxaExample/ThirdParty/fomoxa/src/frame.c:47-115 | every proper prefix of a printed frame asks for more |
| Frame.NoProperPrefix | clients/unreal/Source/FomoxaExample/ThirdParty/fomoxa/src/frame.c:141-195 | no printed frame is a proper prefix of another |
| Frame.FactoringIsUnique | clients/unreal/Source/FomoxaExample/ThirdParty/fomoxa/src/frame.c:141-195 | a stream factors into frames in only one way, even if it is still unfinished |
| Frame.EncodeDataInto | clients/unreal/Source/FomoxaExample/ThirdParty/fomoxa/src/frame.c:141-161 | a data frame is printed into the buffer whole, or not at all with the exact error |
| Frame.EncodeHandshakeInto | clients/unreal/Source/FomoxaExample/ThirdParty/fomoxa/src/frame.c:163-179 | likewise for a handshake frame |
| Frame.EncodeControlInto | clients/unreal/Source/FomoxaExample/ThirdParty/fomoxa/src/frame.c:181-195 | a probe or an acknowledgement takes one byte, if there is room |
| StreamDecoder.ParseIsSound | clients/unreal/Source/FomoxaExample/ThirdParty/fomoxa/src/frame.c:47-115 | parsing a whole stream loses nothing: frames and rest print to exactly the bytes |
| StreamDecoder.ParseIsComplete | clients/unreal/Source/FomoxaExample/ThirdParty/fomoxa/src/frame.c:47-115 | printed frames are all recovered, whatever follows |
| StreamDecoder.ParseInstalments | clients/unreal/Source/FomoxaExample/ThirdParty/fomoxa/src/frame.c:47-115 | parsing in two instalments gives what parsing at once gives |
| StreamDecoder.TakenIsDetermined | clients/unreal/Source/FomoxaExample/ThirdParty/fomoxa/src/frame.c:257-278 | what a run has taken is a beginning of the stream's frames, all of them when a take yields none, and a remembered error is the stream's |
| StreamDecoder.Decoder.FeedBytes | clients/unreal/Source/FomoxaExample/ThirdParty/fomoxa/src/frame.c:221-255 | reclaiming, growing and copying amount to appending the bytes |
| StreamDecoder.Decoder.Next | clients/unreal/Source/FomoxaExample/ThirdParty/fomoxa/src/frame.c:257-270 | the next frame or error; the first error is remembered for good |
| StreamDecoder.Decoder.AdvanceOver | clients/unreal/Source/FomoxaExample/ThirdParty/fomoxa/src/frame.c:272-278 | the front of the pending bytes is dropped |
| StreamDecoder.Decoder.GrownCapacity | clients/unreal/Source/FomoxaExample/ThirdParty/fomoxa/src/frame.c:221-255 | doubling reaches what is needed and stays below twice that |
| StreamDecoder.Decoder.Shrink | clients/unreal/Source/FomoxaExample/ThirdParty/fomoxa/src/frame.c:288-296 | giving memory back changes nothing that is seen |
| GodotFrame.OffsetIsSuffix | clients/godot/addons/fomoxa/fomoxa_frame.gd:81-118 | decoding at an offset is decoding the suffix |
| GodotFrame.DecodersDifferOnlyOnEarlyMarker | clients/godot/addons/fomoxa/fomoxa_frame.gd:81-118 | the two parsers differ exactly on an unfinished header with a wrong marker |
| GodotFrame.Decoder.FeedBytes | clients/godot/addons/fomoxa/fomoxa_frame.gd:137-146 | feeding appends, whichever way the buffer is restarted |
| GodotFrame.Decoder.Next | clients/godot/addons/fomoxa/fomoxa_frame.gd:147-157 | takes a frame, or reports the remembered error, or waits |
| Schema.SchemaCheck | clients/unreal/Source/FomoxaExample/ThirdParty/fomoxa/src/schema.c:3-30 | accepts exactly the well-formed tables: bounded, strictly sorted, whole-message fingerprint equal to the last prefix |
| Schema.FindMessage | clients/unreal/Source/FomoxaExample/ThirdParty/fomoxa/src/schema.c:32-52 | binary search equals linear lookup on a sorted table |
| Handshake.HelloRoundTrip | clients/unreal/Source/FomoxaExample/ThirdParty/fomoxa/src/handshake.c:76-123 | a hello reads back as written and has the announced length |
| Handshake.QueryRoundTrip | clients/unreal/Source/FomoxaExample/ThirdParty/fomoxa/src/handshake.c:187-229 | a query reads back as written, unless it lists more items than the reader allows |
| Handshake.ReplyRoundTrip | clients/unreal/Source/FomoxaExample/ThirdParty/fomoxa/src/handshake.c:231-272 | likewise for a reply |
| HandshakeBuffers.HelloEncode | clients/unreal/Source/FomoxaExample/ThirdParty/fomoxa/src/handshake.c:76-94 | prints the hello, or nothing when the buffer is too small |
| HandshakeBuffers.QueryEncode | clients/unreal/Source/FomoxaExample/ThirdParty/fomoxa/src/handshake.c:187-202 | prints the query, or nothing when the buffer is too small |
| HandshakeBuffers.ReplyEncode | clients/unreal/Source/FomoxaExample/ThirdParty/fomoxa/src/handshake.c:231-245 | prints the reply, or nothing when the buffer is too small |
| HandshakeBuffers.QueryDecode | clients/unreal/Source/FomoxaExample/ThirdParty/fomoxa/src/handshake.c:204-229 | fills the item table with exactly the items of a well-formed query |
| HandshakeBuffers.ReplyDecode | clients/unreal/Source/FomoxaExample/ThirdParty/fomoxa/src/handshake.c:247-272 | fills the item table with exactly the items of a well-formed reply |
| HandshakeBuffers.HandshakeDecide | clients/unreal/Source/FomoxaExample/ThirdParty/fomoxa/src/handshake.c:125-185 | the loop over the peer's table decides as specified, its questions being the first entries of the table passed in |
| HandshakeBuffers.QueryAnswer | clients/unreal/Source/FomoxaExample/ThirdParty/fomoxa/src/handshake.c:274-295 | succeeds iff every item can be answered, and then holds the answers |
| HandshakeBuffers.ReplyCheck | clients/unreal/Source/FomoxaExample/ThirdParty/fomoxa/src/handshake.c:297-317 | the first difference decides the verdict |
| Negotiation.DecideMeaning | clients/unreal/Source/FomoxaExample/ThirdParty/fomoxa/src/handshake.c:125-185 | one conflict refuses, otherwise exactly the undecidable entries are asked in table order; a table of distinct ids is never called malformed |
| Negotiation.NeedsWithinCap | clients/unreal/Source/FomoxaExample/ThirdParty/fomoxa/src/handshake.c:125-185 | with distinct ids the query cap is never reached |
| Negotiation.CheckEntryMeaning | clients/unreal/Source/FomoxaExample/ThirdParty/fomoxa/src/handshake.c:143-180 | per message: agreement, conflict, or a question whose answer decides, each exactly when the prefixes say so |
| Negotiation.QueryRoundMeaning | clients/unreal/Source/FomoxaExample/ThirdParty/fomoxa/src/handshake.c:274-317 | all questions are answerable, and all answered right iff every message asked about is compatible |
| Negotiation.AnswerMeaning | clients/unreal/Source/FomoxaExample/ThirdParty/fomoxa/src/handshake.c:274-295 | the client's answer matches the server's expectation iff the message is compatible |
| GeneratedHandshake.FindGenerated | server/src/generated/handshake.rs:144-160 | the generated binary search equals linear lookup on a sorted table |
| GeneratedHandshake.CheckMeaning | server/src/generated/handshake.rs:201-233 | a match is compatible or unknown here, a mismatch is incompatible, and a question is decided by the peer's prefix fingerprint at the count asked for |
| GeneratedHandshake.CheckGenerated | server/src/generated/handshake.rs:201-233 | the branches of the generated comparison, with its table search, give the outcome whose meaning CheckMeaning states |
| GeneratedHandshake.HandshakeOutcome | server/src/generated/handshake.rs:244-265 | the generated loop: one mismatch decides, else one open question does |
| GeneratedHandshake.ChecksAgree | server/src/generated/handshake.rs:201-233 | the two comparisons of one message agree |
| SessionRuns.StepIsForward | clients/unreal/Source/FomoxaExample/ThirdParty/fomoxa/src/session.c:262-354 | every step keeps the session valid, keeps its identity and moves its state only forward |
| SessionRuns.RunIsForward | clients/unreal/Source/FomoxaExample/ThirdParty/fomoxa/src/session.c:262-354 | between any two moments of a run the state has only moved forward |
| SessionRuns.PayloadsFit | clients/unreal/Source/FomoxaExample/ThirdParty/fomoxa/src/session.c:80-139 | every handshake payload a session sends is complete and fits the scratch buffer sized for it |
| SessionRuns.StepSpendsPatience | clients/unreal/Source/FomoxaExample/ThirdParty/fomoxa/src/session.c:169-260 | each handshake frame brings the handshake nearer its end, and only the first may cause a round |
| SessionTiming.SilenceIsFatal | clients/unreal/Source/FomoxaExample/ThirdParty/fomoxa/src/session.c:311-344 | the same from any moment at which no tick is overdue, probing or not: closed by a tick no later than the deadline |
| SessionTiming.RunKeepsClock | clients/unreal/Source/FomoxaExample/ThirdParty/fomoxa/src/session.c:262-344 | an open session was last active when it last heard something, and probes only after the silence it allows |
| SessionObject.Machine.constructor | clients/unreal/Source/FomoxaExample/ThirdParty/fomoxa/src/session.c:80-139 | a session starts handshaking, with buffers of the needed sizes |
| SessionObject.Machine.Opening | clients/unreal/Source/FomoxaExample/ThirdParty/fomoxa/src/session.c:80-139 | a client opens with its hello, a server with nothing |
| SessionObject.Machine.AnswerQuery | clients/unreal/Source/FomoxaExample/ThirdParty/fomoxa/src/session.c:169-205 | the object's handling of a query is the specified one |
| SessionObject.Machine.HearAsClient | clients/unreal/Source/FomoxaExample/ThirdParty/fomoxa/src/session.c:169-205 | the object's client handshake is the specified one |
| SessionObject.Machine.JudgeReply | clients/unreal/Source/FomoxaExample/ThirdParty/fomoxa/src/session.c:207-260 | the object's judgement of a reply is the specified one |
| SessionObject.Machine.JudgeHello | clients/unreal/Source/FomoxaExample/ThirdParty/fomoxa/src/session.c:207-260 | the object's judgement of a hello is the specified one, the questions kept in its own table; Verdicts.WrongVersionIsRefused and Verdicts.ServerJudgesHello say what that is |
| SessionObject.Machine.HearFrame | clients/unreal/Source/FomoxaExample/ThirdParty/fomoxa/src/session.c:262-309 | a frame changes fields and tables to exactly the specified state and reaction |
| SessionObject.Machine.TickAt | clients/unreal/Source/FomoxaExample/ThirdParty/fomoxa/src/session.c:311-344 | a tick does exactly what the specification says; Timeouts.TickIsExact says what that is |
| SessionObject.Machine.LoseTransport | clients/unreal/Source/FomoxaExample/ThirdParty/fomoxa/src/session.c:346-354 | a lost transport is reported once |
| SessionObject.Machine.CloseNow | clients/unreal/Source/FomoxaExample/ThirdParty/fomoxa/src/session.c:164-167 | closing terminates |
| Exchange.HelloArrives | clients/unreal/Source/FomoxaExample/ThirdParty/fomoxa/src/session.c:207-260 | a hello leads to the settled verdict, or to the questions that will |
| Exchange.QueryArrives | clients/unreal/Source/FomoxaExample/ThirdParty/fomoxa/src/session.c:169-205 | a client answers every question it is asked |
| Exchange.ReplyArrives | clients/unreal/Source/FomoxaExample/ThirdParty/fomoxa/src/session.c:207-232 | the answers lead to the settled verdict |
| CoreLaws.WriteFrameConserves | clients/unreal/Source/FomoxaExample/ThirdParty/fomoxa/src/core.c:162-186 | writing a frame conserves bytes, commits the frame iff it returns OK, and returns OK iff the connection lives |
| CoreLaws.SendControlConserves | clients/unreal/Source/FomoxaExample/ThirdParty/fomoxa/src/core.c:188-208 | a control frame is committed or the connection dies; bytes are conserved and the outbox bounded |
| CoreLaws.FlushConserves | clients/unreal/Source/FomoxaExample/ThirdParty/fomoxa/src/core.c:210-243 | flushing moves bytes from the outbox to the transport and changes nothing else |
| CoreLaws.EmitOutNeverDrops | clients/unreal/Source/FomoxaExample/ThirdParty/fomoxa/src/core.c:245-266 | no reaction is dropped for lack of scratch space |
| CoreLaws.EmitOutConserves | clients/unreal/Source/FomoxaExample/ThirdParty/fomoxa/src/core.c:245-266 | what a session asks to send is committed, or the connection is dead |
| CoreLaws.ShutdownConserves | clients/unreal/Source/FomoxaExample/ThirdParty/fomoxa/src/core.c:123-128 | shutting down leaves what was accepted a beginning of what was committed |
| CoreLaws.FlushConservesUnlessTooLarge | clients/unreal/Source/FomoxaExample/ThirdParty/fomoxa/src/core.c:210-243 | a flush conserves bytes iff the transport's answers do not come to too large while bytes wait; then committed frames are lost |
| CoreLaws.RefusalIsSentExactly | clients/unreal/Source/FomoxaExample/ThirdParty/fomoxa/src/core.c:123-128 | a refusal reaches the transport whole iff nothing waits before it and the transport takes all its six bytes at once; otherwise the rest never leaves |
| CoreLaws.CeilingIsExact | clients/unreal/Source/FomoxaExample/ThirdParty/fomoxa/src/core.c:188-208 | owing a control frame makes a live connection call its peer unresponsive iff bytes wait and the frame would take them past the ceiling |
| ConnectionRuns.TakeInKeeps | clients/unreal/Source/FomoxaExample/ThirdParty/fomoxa/src/core.c:309-315 | a frame heard keeps the invariant and is filed where it belongs |
| ConnectionRuns.VerdictFacts | clients/unreal/Source/FomoxaExample/ThirdParty/fomoxa/src/session.c:169-260 | an acceptance is what makes a client ready, and what a server sends when it becomes ready |
| ConnectionRuns.EventFacts | clients/unreal/Source/FomoxaExample/ThirdParty/fomoxa/src/session.c:262-309 | a message is reported exactly for data heard while ready |
| ConnectionSteps.DrainKeeps | clients/unreal/Source/FomoxaExample/ThirdParty/fomoxa/src/core.c:296-364 | draining, with any budgets and any transport, keeps the invariant |
| ConnectionSteps.CoreTickKeeps | clients/unreal/Source/FomoxaExample/ThirdParty/fomoxa/src/core.c:431-453 | a tick keeps the invariant and sends no data |
| ConnectionSteps.CoreSendKeeps | clients/unreal/Source/FomoxaExample/ThirdParty/fomoxa/src/core.c:455-475 | a send that returns OK has committed exactly this payload, any other nothing |
| ConnectionSteps.CoreCloseKeeps | clients/unreal/Source/FomoxaExample/ThirdParty/fomoxa/src/core.c:477-480 | closing keeps the invariant |
| ConnectionSteps.InitKeeps | clients/unreal/Source/FomoxaExample/ThirdParty/fomoxa/src/core.c:366-409 | a fresh connection satisfies the invariant, whatever becomes of its hello |
| Delivery.RunIsSafe | clients/unreal/Source/FomoxaExample/ThirdParty/fomoxa/src/core.c:162-475 | every run of both ends keeps the joint invariant |
| Delivery.ClientHearsNoEarlyData | clients/unreal/Source/FomoxaExample/ThirdParty/fomoxa/src/core.c:296-364 | a client takes in no data before the acceptance that ends its handshake |
| Delivery.HandshakingServerIsSentNoData | clients/unreal/Source/FomoxaExample/ThirdParty/fomoxa/src/core.c:455-458 | a server that has accepted nobody has been sent no data |
| Budget.TickStaysInBudget | clients/unreal/Source/FomoxaExample/ThirdParty/fomoxa/src/core.c:296-453 | one tick takes in no more frames than the configuration allows, however many have arrived |
| Budget.DrainTakes | clients/unreal/Source/FomoxaExample/ThirdParty/fomoxa/src/core.c:296-364 | draining takes in no more frames than its budget, over either kind of transport |
| EventGrammar.TickReportsDeath | clients/unreal/Source/FomoxaExample/ThirdParty/fomoxa/src/core.c:431-453 | a tick leaves no connection dead and unreported |
| EventGrammar.UnresponsiveIsNotFinished | clients/unreal/Source/FomoxaExample/ThirdParty/fomoxa/src/core.c:482-484 | an unresponsive peer is reported but not finished, for the connection is not dead |
| EventGrammar.CoreTickIsTold | clients/unreal/Source/FomoxaExample/ThirdParty/fomoxa/src/core.c:431-453 | a tick reports in grammar, and after it a connection is finished iff it is dead |
| CoreObject.Connection.Open | clients/unreal/Source/FomoxaExample/ThirdParty/fomoxa/src/core.c:366-409 | starting makes a connection that has greeted its peer, or refuses a schema whose hello cannot be framed |
| CoreObject.Connection.ShutDown | clients/unreal/Source/FomoxaExample/ThirdParty/fomoxa/src/core.c:123-128 | shutting down empties the outbox and closes the sending direction |
| CoreObject.Connection.OutboxSet | clients/unreal/Source/FomoxaExample/ThirdParty/fomoxa/src/core.c:130-144 | the outbox holds exactly the bytes given |
| CoreObject.Connection.OutboxAppend | clients/unreal/Source/FomoxaExample/ThirdParty/fomoxa/src/core.c:146-160 | the bytes go behind those waiting, across a growing buffer |
| CoreObject.Connection.WriteOut | clients/unreal/Source/FomoxaExample/ThirdParty/fomoxa/src/core.c:162-186 | handing a printed frame to the transport does what is specified, for each of its answers |
| CoreObject.Connection.QueueControl | clients/unreal/Source/FomoxaExample/ThirdParty/fomoxa/src/core.c:188-208 | a control frame goes out, waits within the ceiling, or kills |
| CoreObject.Connection.FlushOutbox | clients/unreal/Source/FomoxaExample/ThirdParty/fomoxa/src/core.c:210-243 | the loop offers the outbox as specified |
| CoreObject.Connection.Emit | clients/unreal/Source/FomoxaExample/ThirdParty/fomoxa/src/core.c:245-266 | prints and queues what a reaction asks for |
| CoreObject.Connection.ApplyReaction | clients/unreal/Source/FomoxaExample/ThirdParty/fomoxa/src/core.c:268-279 | sends, reports and shuts down as specified |
| CoreObject.Connection.DrainOnce | clients/unreal/Source/FomoxaExample/ThirdParty/fomoxa/src/core.c:296-364 | one turn of the loop: a frame, a read, or a stop; Endings.EndingsAreNoticed and Liveness.DrainIsThorough say what comes of it |
| CoreObject.Connection.DrainAll | clients/unreal/Source/FomoxaExample/ThirdParty/fomoxa/src/core.c:296-364 | the budgeted loop takes in exactly what is specified |
| CoreObject.Connection.TickAt | clients/unreal/Source/FomoxaExample/ThirdParty/fomoxa/src/core.c:431-453 | a tick does exactly what is specified |
| CoreObject.Connection.SendData | clients/unreal/Source/FomoxaExample/ThirdParty/fomoxa/src/core.c:455-475 | a send checks in the specified order and writes at most one frame |
| CoreObject.Connection.CloseDown | clients/unreal/Source/FomoxaExample/ThirdParty/fomoxa/src/core.c:477-480 | closing closes the session and shuts down |
| CoreObject.Connection.Shrink | clients/unreal/Source/FomoxaExample/ThirdParty/fomoxa/src/core.c:490-508 | giving memory back changes only the size of the receive buffer |
| Utf8.MasksAreDigits | clients/unreal/Source/FomoxaExample/Protocol/Generated/runtime.hpp:470-480 | on the eight bits of every byte, the validator's mask tests are tests of high digits and the bits it keeps are low digits |
| Utf8.ShiftIsTimes | clients/unreal/Source/FomoxaExample/Protocol/Generated/runtime.hpp:481 | shifting in a continuation byte multiplies and adds |
| Utf8.FrontOfEncoding | clients/unreal/Source/FomoxaExample/Protocol/Generated/runtime.hpp:464-487 | an encoded scalar value, whatever follows, is found at the front with its length |
| Utf8.EncodingOfFront | clients/unreal/Source/FomoxaExample/Protocol/Generated/runtime.hpp:464-487 | what is found at the front is encoded by exactly the bytes taken: no overlong form, surrogate or too large value |
| Codec.ReadOfPrint | server/src/generated/runtime.rs:313-465 | a printed value, whatever follows, reads back with its length |
| Codec.PrintOfRead | server/src/generated/runtime.rs:313-465 | a value read prints to the bytes it took and is within the limits |
| Codec.ReadOfCut | server/src/generated/runtime.rs:393-465 | a value cut short is an unexpected end with the exact counts |
| Codec.OlderWriter | server/src/generated/runtime.rs:286-306 | a reader that knows more fields finds the rest zero |
| Codec.NewerWriter | server/src/generated/runtime.rs:286-306 | bytes after the last known field change nothing |
| Codec.ReadAllSplits | server/src/generated/runtime.rs:286-306 | leading fields are read and decoding carries on with what follows them |
| Codec.CutLeaves | server/src/generated/runtime.rs:286-306 | where a cut falls: the fields before it whole, and so many bytes of the one it hits |
| CodecBuffers.Writer.WriteLittleEndian | clients/unreal/Source/FomoxaExample/Protocol/Generated/runtime.hpp:213-217 | the loop appends the little-endian bytes |
| CodecBuffers.Writer.WriteString | server/src/generated/runtime.rs:215-218 | a length and the bytes are appended |
| CodecBuffers.Writer.WriteBytes | server/src/generated/runtime.rs:225-228 | a length and the bytes are appended |
| CodecBuffers.Writer.WriteBool | server/src/generated/runtime.rs:150-152 | one byte, zero or one |
| CodecBuffers.Reader.Take | server/src/generated/runtime.rs:453-465 | the next bytes and a moved cursor, or the exact error and an unmoved one |
| CodecBuffers.Reader.ReadBool | server/src/generated/runtime.rs:319-329 | zero or one, else the error with the cursor put back |
| CodecBuffers.Reader.ReadLen | server/src/generated/runtime.rs:439-448 | a length within its limit, else the error with the cursor put back |
| CodecBuffers.Reader.ReadString | server/src/generated/runtime.rs:393-415 | a string read as specified; on every failure the cursor is where it was |
| CodecBuffers.Reader.ReadBytes | server/src/generated/runtime.rs:417-430 | a blob read as specified; on every failure the cursor is where it was |
| CodecBuffers.Reader.FieldAbsent | server/src/generated/runtime.rs:304-306 | absent means no bytes remain |
| CodecBuffers.Reader.ReadLittleEndian | clients/unreal/Source/FomoxaExample/Protocol/Generated/runtime.hpp:431-443 | the loop gathers the little-endian value and moves the cursor over it |
| Messages.EncodeInput | server/src/generated/player_input_game.rs:40-47 | the six fields are appended in declaration order |
| Messages.FieldReader.TakeNum | server/src/generated/runtime.rs:453-465 | a number field: the next one, zero if absent, or after a failure the value it had |
| Messages.FieldReader.Finish | server/src/generated/runtime.rs:286-306 | after all fields the record is decoded: leading fields overwritten, the cursor moved over them, and the error that ended it |
| Messages.DecodeInput | server/src/generated/player_input_game.rs:57-65 | fields are read in order, absent ones are zero, and on an error the later ones keep their values |
| Messages.InputEveryCut | server/src/generated/player_input_game.rs:57-65 | the version-skew rule for every cut of an input message |
| Messages.InputRoundTrip | server/src/generated/player_input_game.rs:40-65 | an input message decodes to itself before any trailing bytes |
| Messages.EncodeState | server/src/generated/player_state_game.rs:42-51 | the eight fields are appended in declaration order |
| Messages.DecodeState | server/src/generated/player_state_game.rs:61-71 | fields are read in order, absent ones are zero, and on an error the later ones keep their values |
| Snapshot.EncodeSnapshot | server/src/generated/world_snapshot_game.rs:38-44 | tick, count and elements are appended in order |
| Snapshot.DecodeSnapshot | server/src/generated/world_snapshot_game.rs:54-66 | decodes as specified; the players are replaced only when all were read |
| Snapshot.DecodePlayersInto | server/src/generated/world_snapshot_game.rs:56-64 | a count and so many elements, or the error that stopped them with the old players kept |
| Snapshot.DecodePlayers | server/src/generated/world_snapshot_game.rs:56-64 | the element loop reads what is specified, element by element |
| Snapshot.LastOldElement | server/src/generated/world_snapshot_game.rs:54-66 | a single old element at the end is completed with a zero |
| World.FlightLosesEnergy | server/src/world.rs:138-147 | no step raises a player's energy above that of a jump, for any step length |
| World.DirectionIsBounded | server/src/world.rs:176-185 | a bounded direction is at most one long, also from values that are not finite |
| World.WrapIsCongruent | server/src/world.rs:187-189 | wrapping keeps the angle up to whole turns and puts it in [-pi, pi) |
| World.SteeringIsSafe | server/src/world.rs:108-128 | an input leaves a safe player safe |
| World.StepIsSafe | server/src/world.rs:130-148 | a step leaves a safe player safe |
| WorldRuns.StepReach | server/src/world.rs:130-136 | one step moves a player at most MOVE_SPEED dt, even when clamped at the edge |
| WorldRuns.OthersAreUntouched | server/src/world.rs:108-128 | inputs of one peer change that peer's player only |
| WorldRuns.EqualNumbersLastWins | server/src/world.rs:112-114 | of two inputs with one number the later stays, so distinct numbers are needed |
| WorldRuns.EqualNumbersCommute | server/src/world.rs:112-127 | two inputs of one number can change places iff they give the same direction and jump and, where both bring a look angle, the same one |
| WorldRuns.DifferentNumbersCommute | server/src/world.rs:108-128 | two inputs of different numbers can change places iff the later brings each look angle itself or the earlier leaves it as it was |
| WorldRuns.LookingNowhereRemembers | server/src/world.rs:121-126 | an input whose look is not finite keeps the look it found, so finite looks are needed |
| WorldObject.Simulation.Join | server/src/world.rs:74-102 | a new peer gets the next id, a known one keeps its player |
| WorldObject.Simulation.Leave | server/src/world.rs:104-106 | the player is removed and returned |
| WorldObject.Simulation.ApplyInput | server/src/world.rs:108-128 | unknown peers and stale numbers are refused, otherwise the player is steered; WorldLaws.InputIsObeyed says what that is |
| WorldObject.Simulation.Step | server/src/world.rs:130-148 | every player takes the step exactly once, and the tick wraps at 32 bits |
| WorldObject.Simulation.MovePlayer | server/src/world.rs:132-147 | the statements of a step amount to the specified one; WorldLaws.JumpsOnlyWhenAsked and WorldLaws.WalkIsStraight say where that leads |
| Udp.DeliverKeeps | clients/unreal/Source/FomoxaExample/ThirdParty/fomoxa/src/transport/udp.c:295-349 | one datagram keeps the hub sound |
| Udp.AcceptKeeps | clients/unreal/Source/FomoxaExample/ThirdParty/fomoxa/src/transport/udp.c:443-466 | accepting keeps the hub sound: the slot leaves the line and is owned |
| Udp.RecvKeeps | clients/unreal/Source/FomoxaExample/ThirdParty/fomoxa/src/transport/udp.c:390-423 | receiving keeps the hub sound |
| Udp.DeliverToSlot | clients/unreal/Source/FomoxaExample/ThirdParty/fomoxa/src/transport/udp.c:295-349 | a datagram goes to the one slot of its sender and to no other |
| Udp.EnqueueKeepsLatest | clients/unreal/Source/FomoxaExample/ThirdParty/fomoxa/src/transport/udp.c:262-293 | dropping the oldest of a full queue keeps the latest 64 |
| UdpSlot.SlotCell.Enqueue | clients/unreal/Source/FomoxaExample/ThirdParty/fomoxa/src/transport/udp.c:262-293 | the linked list gains the datagram at its end, and loses its oldest if full |
| UdpSlot.SlotCell.DropOldest | clients/unreal/Source/FomoxaExample/ThirdParty/fomoxa/src/transport/udp.c:265-274 | the list loses its front, and its tail when it was the last |
| UdpSlot.SlotCell.Append | clients/unreal/Source/FomoxaExample/ThirdParty/fomoxa/src/transport/udp.c:276-292 | the list gains one node at its tail |
| UdpSlot.SlotCell.TakeFront | clients/unreal/Source/FomoxaExample/ThirdParty/fomoxa/src/transport/udp.c:390-423 | the front datagram, if the caller's buffer has room for it |
| UdpSlot.SlotCell.Clear | clients/unreal/Source/FomoxaExample/ThirdParty/fomoxa/src/transport/udp.c:234-245 | walking the list frees it all |
| UdpHub.HubCell.DeliverOne | clients/unreal/Source/FomoxaExample/ThirdParty/fomoxa/src/transport/udp.c:295-349 | scanning for the owner, then for a free slot, delivers as specified |
| UdpHub.HubCell.PumpIn | clients/unreal/Source/FomoxaExample/ThirdParty/fomoxa/src/transport/udp.c:295-349 | at most 256 datagrams are read, in order |
| UdpHub.HubCell.PushArrival | clients/unreal/Source/FomoxaExample/ThirdParty/fomoxa/src/transport/udp.c:337-341 | a newcomer goes to the back of the ring |
| UdpHub.HubCell.PopArrival | clients/unreal/Source/FomoxaExample/ThirdParty/fomoxa/src/transport/udp.c:452-454 | the front of the ring leaves it, and the others move up |
| UdpHub.HubCell.AcceptPeer | clients/unreal/Source/FomoxaExample/ThirdParty/fomoxa/src/transport/udp.c:443-466 | accepting pumps and then takes the front of the line |
| UdpHub.HubCell.PeerReceive | clients/unreal/Source/FomoxaExample/ThirdParty/fomoxa/src/transport/udp.c:390-423 | receiving pumps and then takes from the peer's own queue |
| UdpHub.HubCell.CloseListening | clients/unreal/Source/FomoxaExample/ThirdParty/fomoxa/src/transport/udp.c:468-476 | closing the listener stops the pump and leaves slots and line alone |
| UdpHub.HubCell.ClosePeer | clients/unreal/Source/FomoxaExample/ThirdParty/fomoxa/src/transport/udp.c:429-438 | closing frees the slot and its queue |

## Left out

- Sockets, name resolution, clocks, threads, logging and allocation failure: the transport is a script of answers, time is a natural number passed in, and memory suffices. Time does not wrap at 64 bits.
- Conservation and delivery over datagram transports: queued control frames leave glued together in one send, and a packet with trailing bytes is refused, so neither holds there; `CoreLaws.FlushConservesUnlessTooLarge` says exactly when frames are lost. The event grammar covers both kinds of transport.
- Delivery of a refusal: it holds only under the condition of `CoreLaws.RefusalIsSentExactly`.
- The sink's arena and its offsets: reported events are a sequence.
- The server's table of connections (`server.c`) and the wrapper of one (`connection.c`): they accept, number, tick and reap connections and hand every call on to them.
- SHA-256 and the generation of fingerprints: they are opaque numbers; `Negotiation.AcceptedExactly` assumes nothing of them, and `Negotiation.AcceptedMeansPrefixes` only that the field lists compared do not collide.
- Single-precision rounding, NaN arithmetic and trigonometry: the simulation computes with real numbers, an input carries a flag for values that are not finite, the square root is known by its square, and the spawn point is a parameter within the spawn radius. The codec keeps raw bits.
- Overflow of the 32-bit player id counter: ids are natural numbers.
- The signed and 16- and 64-bit reads and writes, which repeat the unsigned 32-bit ones, and the copies of the runtime in Go, C# and GDScript.
- `World::snapshot`, which copies fields into the messages, and the flat messages `ClientHello` and `Welcome`: they are instances of the record laws in `Codec`.
- Version skew through lists: it does not hold there, as `Snapshot.SkewStopsAtLists` shows.
- The Godot connection's count of pending bytes, the engine clients, scenes and cameras, and `main.rs`, whose order of events rests on a library that is not part of this model.
- The hub's reference count and the release of its memory; the socket of the hub is the list of datagrams that have arrived.
- Utf8.IsValidUtf8: works on the eight bits of each byte as the source does, but writes the shift-and-or of the 32-bit code point as multiplication and addition; `Utf8.ShiftIsTimes` shows on 32-bit words that these agree.
- UdpRuns.NewcomerIsFifo: speaks of IPv4 and IPv6 addresses, the only ones that compare equal to themselves; the hub gives every datagram of another family a slot of its own.
- WorldRuns.InputOrderIsIrrelevant: asks for finite look angles and distinct numbers; `WorldRuns.DifferentNumbersCommute` and `WorldRuns.EqualNumbersCommute` say exactly which two inputs can change places without them.
- CodecBuffers.Writer.WriteString: a string longer than 32 bits can count makes the Rust writer panic, so it is a precondition; the C++ writer, which would cut the length to 32 bits, is not modelled in that case.
