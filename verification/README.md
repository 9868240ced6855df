# A verified model of the lockstep RTS server

The system is a lockstep real-time-strategy server. Clients send commands over a reliable transport
built on UDP; a room seals them into one frame per tick and sends the frames back; the room and every client step their own
copy of a deterministic fixed-point world, and compare hashes. Clients may resume after a disconnect, and matches are recorded
as binary logs that a checker can replay.

The model follows the source's form. What the source changes in place is a class with loops and frame conditions
(`SimWorld.World`, `Reorder.ReorderBuffer`, `Retx.RetxQueue`, `Connection.Conn`, `Inputs.InputBuf`, `Hashes.HashAgg`,
`RoomActor.Room`, `Replay.Writer`, `Replay.Reader`, `FakeClient.Client`) or fills an array (the encoders); each method is proved
equal to a function of the old state, and the results below are proved about those functions. Machine integers wrap explicitly
(`Words`): unsigned 32-bit ticks and sequence numbers, signed 32-bit Q16.16 values, 16-bit counts.

The files build on each other in this order:

- `Words`, `Results`, `Records`: machine words, bits, little-endian bytes, lists of records.
- `Fixed` (with the module `Vectors`), `MoveLength`, `Sim`, `SimWorld`, `SimInvariants`, `Movement`, `Orders`,
  `Pursuit`, `Hash`, `Snapshot`: the simulation.
- `Wire`, `Packet`, `Reorder`, `Acks`, `Retx`, `Conn` (modules `Endpoints`, `Connection`): messages and one end of a connection.
- `Protocol`, `Transport`, `Timers`: two ends over a network that holds every packet ever sent and may deliver any of them at any time, any
  number of times, or never.
- `Lockstep` (modules `Inputs`, `Hashes`), `Room` (modules `Rooms`, `RoomActor`), `RoomRuns`, `Resume`, `Replay`, `ReplayCheck`,
  `Formats`: the room, its runs, resume, recordings, and the byte formats.
- `Client`, `EndToEnd`, `Replication`, `Match`, `Opening`, `Divergence`: the client, the room with one player, and the whole match.

## Main results

1. **End to end.** A match is one room and up to 256 players, each with its own connection, network and client. In every
   interleaving of command arrival, sealing, sending, loss, duplication, reordering, retransmission, acknowledgement and dispatch
   across all players, the clients' worlds are the server's after each of their ticks if and only if every frame that any of them
   missed was harmless: it changed the server's world as an idle tick would have (`Match.InStepExactlyWhenHarmless`). Then they
   report only the server's hashes, agree with each other, and the room never detects a desync (`Match.EveryReplicaInStep`). Clients
   that joined before the first tick, never left, and whose inboxes never overflowed miss nothing (`Match.UninterruptedMatch`, and
   for the units the source spawns `Opening.MatchOfTwo`). In general a client's world is always exactly what the frames it
   got make of the initial one (`Replication.ClientRunsWhatItGot`). Each player's part is proved for the room and one connection
   (`EndToEnd`, `Replication`), with arbitrary commands and reports from elsewhere; `Match.Projects` shows that every
   run of a match is such a run for each of its players.
2. **Transport.** What is delivered is a gap-free prefix of what was sent (`Transport.DeliveryInOrder`), and exactly as long as
   each number in it has arrived at least once while at most 512 ahead (`Transport.DeliveredExactlyWhenNear`). Acknowledgements name
   only received numbers, before and after the sequence number wraps (`Transport.AcknowledgedMeansReceived`,
   `Acks.AcksAcrossWrap`). A packet is silently lost exactly when it arrives more than 512 ahead and the acknowledgement that gets
   back still covers it (`Transport.LostExactlyWhenFar`); over whole runs, when its sender takes an acknowledgement of it and it never
   arrives while near (`Transport.LostExactlyWhenNeverNear`). Senders that keep at most 512 numbers beyond their lowest
   unacknowledged one never lose any (`Transport.ThrottledNeverLoses`). Every due packet is resent, and nothing else
   (`Timers.TickResends`); in every run each number has been resent as often as its entry counts, and ten times when it is given
   up (`Timers.ResentAsCounted`), at times that are in range (`Timers.RetransmissionTimes`).
3. **Simulation.** A unit does what its owner's last order of the tick says (`Orders.LastOrderCounts`, and from the frame on
   `Orders.FrameMovesUnit`), and an attack left alone gets into range and kills within a number of ticks known in advance
   (`Pursuit.AttackSucceeds`). Units stay on a map of any size, division by zero can happen exactly for speeds whose square wraps below zero,
   movement terminates on a map of any size, the order of commands to different units does not matter, units keep their identity,
   and health is conserved. A tick takes a unit no farther than its speed and 363 raw units exactly when the squared distance to its
   target fits Q16.16 (`MoveLength.MoveLengthExact`, `Movement.TickLengthExact`), and then it takes it no shorter either
   (`Movement.TickLengthLeast`).
4. **Room, resume, replay.** Commands are executed exactly once, the room detects a desync for a tick exactly when all expected
   players have reported and two of them differ (`RoomRuns.DesyncExactlyWhenReportsDiffer`), a resumed client ends in the room's world, and every
   recording replays without a mismatch, also when it is cut.

## What the code does that one might not expect

- A packet that arrives more than 512 ahead is acknowledged before the reorder buffer drops it, so its sender forgets it:
  `Transport.SilentLoss` gives such a run, `Transport.LostExactlyWhenFar` says exactly when it happens, and
  `Transport.ThrottledNeverLoses` gives a condition that a sender can check before each send.
- After the sequence number wraps, the plain `<` in `updateRecvAck` forgets a late packet (`Acks.ForgottenAfterWrap`): exactly a new
  number at most 32 below the highest one whose low 32 bits are larger (`Acks.NotedExactIff`). Nothing is ever acknowledged that
  was not received (`Acks.AcksAcrossWrap`).
- A number spent on an unreliable packet, a failed send or an empty payload stops delivery in that direction for ever, and a number
  that has not arrived, for instance because it was given up, stops it until it does (`Transport.GapsStopDelivery`).
  `SendRTTReport` in `pkg/rtsclient/client.go` spends such a number.
- Where the squared distance to a target does not fit Q16.16 it wraps, and a unit may be at its target in one tick
  (`MoveLength.FarSnap`) or idle far away from it (`Movement.IdlesFarAway`).
- A client that misses a frame steps on without its commands; with the units that the source spawns, a client that joins after the
  first tick ends up in another world (`Divergence.LateJoinerDiverges`). `Match.InStepExactlyWhenHarmless` says exactly when that
  happens. A room starts ticking when it is created, before any player joins.
- The hash does not cover destinations, speeds, maximum health, the random state, the next ID or the map size
  (`Hash.LayoutShows`). The client draws from its world's random state to make commands, and the server does not, so worlds are compared but for
  it (`Sim.SameButRand`); no tick reads it (`Sim.PlayIgnoresRand`).
- Commands are applied in order of arrival, although a comment in `internal/sim/step.go` calls them sorted by unit; by
  `SimInvariants.CommandOrderIndependence` only the order of commands to the same unit matters.
- Neither keeping units on the map nor termination of movement needs a bound on the map's diagonal
  (`SimInvariants.RunsStayOnMap`, `Movement.MovementTerminates`). What the bound buys is that a unit that has arrived is truly there.
- Between two seals a late report can reopen a slot that has timed out (`RoomRuns.LateReportReopens`).
- A client that claims to be ahead of the room gets a snapshot, because ticks are subtracted unsigned, except within 100 ticks of
  2^32 (`Resume.ClientAhead`).
- The client spawns for two players whatever the room's player count is (`Opening.SameOpening`).

## Model

| member | source | states |
|---|---|---|
| Match.UninterruptedMatch | internal/lockstep/room.go:128-274 | In every run of a match of 1 to 256 players who joined before tick 1 and never left, and whose inboxes never overflowed: every client has the server's world after its last tick and reported the server's hashes, any two clients at one tick have one world, no slot is in state Desync, and a client that has taken everything sent to it holds the server's current world |
| Match.InStepExactlyWhenHarmless | cmd/fake-client/main.go:66-81 | In every run of a match: all clients' worlds are the server's after each of their ticks if and only if each frame that a client missed changed the server's world as an idle tick would have |
| Match.EveryReplicaInStep | internal/lockstep/room.go:178-183 | And then all clients are in step with the server and with each other, all reported hashes are the server's, and no slot is in state Desync |
| Match.EmptyFramesMayBeMissed | cmd/fake-client/main.go:68-75 | In particular when each frame that a client missed was empty |
| Match.Projects | cmd/server/main.go:207-222 | Every run of a match is, seen from each player's connection, a run of the room with that player alone and arbitrary input from elsewhere |
| Match.PlayerMissesNothing | internal/lockstep/room.go:238-243 | A player to whom the room sent every frame, and whose inbox never overflowed, has missed none up to its last tick, and has executed all frames once it has taken all messages |
| Match.ReportersKnown | internal/lockstep/room.go:178-183 | Every hash in the window is from a player of the match |
| Replication.JoinedReplicaInStep | cmd/fake-client/main.go:66-81 | For one player, whatever reaches the room from elsewhere: if it joined before tick 1 and its inbox never overflowed, its client is in step with the server, and current once it has taken all messages |
| Replication.ReplicaInStep | cmd/fake-client/main.go:66-81 | For one player, joined at any time and with any losses: its client is in step at all its ticks if and only if each frame it missed was harmless, and then its world and its reports are the server's |
| Replication.SameExactlyWhenHarmless | cmd/fake-client/main.go:68-75 | The frames a client got, with idle ticks between, lead to the server's world after every tick if and only if each missed frame changed the server's world as an idle tick would have |
| Replication.EmptyIsHarmless | cmd/fake-client/main.go:68-75 | An empty frame is harmless |
| Replication.ClientRunsWhatItGot | cmd/fake-client/main.go:66-81 | Without any proviso: the client's world and each reported hash are exactly those of the frames it got, each at its own tick, with idle ticks in place of the missed ones |
| Replication.EveryGame | internal/lockstep/room.go:128-160 | The invariant of the whole system (transport both ways, room, server log in tick order, client copy, reports, hash window) holds in every run within the 16-bit and 32-bit bounds |
| Replication.UnbrokenMissesNothing | internal/lockstep/room.go:238-243 | Gap-free delivery of frames sent in tick order means that every tick up to the client's last one was executed with its own frame |
| EndToEnd.TakenIsLater | pkg/rtsclient/client.go:261-281 | The frame a client takes from its inbox is a frame of the room, unaltered, and later than all it has executed |
| EndToEnd.ActionKeepsInv | internal/lockstep/room.go:173-274 | Each single action of room, client, transport and network keeps that invariant |
| FakeClient.Client.OnFrame | cmd/fake-client/main.go:66-81 | The catch-up loop executes an idle tick for each missed frame, then the frame's commands, and answers with the hash of the resulting world for the frame's tick |
| Divergence.LateJoinerDiverges | cmd/fake-client/main.go:68-75 | In a match of two with the units the source spawns, for every seed and map: a run without network loss in which a client that joins after the first tick holds other units than the server at the same tick |
| Opening.MatchOfTwo | internal/lockstep/room.go:110-119 | For the units the source spawns for two players on a map from 90 by 22 up, without interruption: both clients in step, no desync, and in all three worlds every unit on the map and every unit invariant kept |
| Opening.SameOpening | cmd/fake-client/main.go:46-59 | Client and room start from the same world if and only if the room is for two players |
| Opening.SpawnInitialUnits | internal/lockstep/room.go:110-119 | The nested spawning loop appends the given number of units for each player in order, with consecutive IDs |
| Opening.OpeningWorld | internal/lockstep/room.go:110-119 | The world a match starts with, field by field: tick 0, each player's five units with consecutive IDs from 1, at their places from (10, 10) on, idle, with 10.0 health and speed 0.5 |
| Transport.DeliveryInOrder | internal/transport/conn.go:185-210 | In every run and in both directions, everything the reorder buffer handed over is the payloads of numbers 1 to nextExpected-1 in order, each once; the inbox got a subsequence, all of it unless it overflowed |
| Transport.AcknowledgedMeansReceived | internal/transport/conn.go:190-202 | Every acknowledgement in flight, however stale, names only received numbers; each tracked number is exactly one of pending, expired, or acknowledged after receipt; the bitmask is exact |
| Transport.NoSilentLoss | internal/transport/conn.go:190-202 | If every arrival lies at most 512 ahead, each reliably sent number is pending, expired, buffered at the receiver or delivered, at all times |
| Transport.LostExactlyWhenFar | internal/transport/conn.go:190-202 | From any reachable state: a pending packet that arrives, is acknowledged, and whose acknowledgement gets back is neither pending, expired, buffered nor delivered afterwards if and only if it lay more than 512 beyond the next expected number and the acknowledged number is at most 32 above its own |
| Transport.LostExactlyWhenNeverNear | internal/transport/retx.go:65-73 | Over whole runs: a reliably sent number is lost if and only if its sender took an acknowledgement of it while it was pending and the receiver never took it while it was at most 512 ahead |
| Transport.DeliveredExactlyWhenNear | internal/transport/reorder.go:21-55 | Over whole runs and in both directions: at least n payloads are delivered if and only if each number up to n has arrived at least once while at most 512 ahead |
| Transport.HoldsExactlyNear | internal/transport/reorder.go:21-55 | A number is delivered or buffered if and only if it has arrived at least once while near |
| Transport.ThrottledNeverLoses | internal/transport/conn.go:106-139 | If each send spends a number at most 512 past the lowest unacknowledged one, every arrival is near and nothing is ever lost silently |
| Transport.GapsStopDelivery | internal/transport/conn.go:142-157 | A number spent without data (unreliable packet, failed send, empty payload) bounds everything that is ever delivered in its direction; one that has not arrived bounds it until it does |
| Transport.DropsExactlyWhenFar | internal/transport/reorder.go:21-30 | In a run every arriving data packet is delivered or buffered right after its arrival if and only if each lies at most 512 ahead of the next expected number |
| Transport.ArrivalHolds | internal/transport/reorder.go:21-55 | An arrival adds its own number to those delivered or buffered if it is near, adds nothing if it is far, and removes none |
| Transport.SilentLoss | internal/transport/conn.go:201-202 | A concrete run in which number 514 is acknowledged, dropped and forgotten by its sender |
| Protocol.EveryRun | internal/transport/conn.go:106-235 | The transport invariant holds in every run before either end has used half of its sequence space |
| Protocol.OnWireIsDecoded | internal/transport/packet.go:46-86 | The network step's view of a packet is what the peer decodes from its datagram, with the payload length truncated to 16 bits |
| Protocol.Emits | internal/transport/conn.go:106-182 | What each operation puts on the network: the next number and the payload for a send, number 0 for acknowledgements and pings, nothing otherwise, always with the acknowledgement flag and the current window |
| Reorder.DeliversPrefix | internal/transport/reorder.go:21-55 | The 32-bit buffer, across wrap-around, delivers a prefix of the log for any arrivals within 2^31 of the next expected number |
| Reorder.InsertSame | internal/transport/reorder.go:21-65 | One insertion into the 32-bit buffer does the same as into one with unbounded sequence numbers |
| Reorder.HeldDistance | internal/transport/reorder.go:28-30 | Buffered keys stay at modular distance 1 to maxBuffered from the next expected number |
| Reorder.InsertDelivers | internal/transport/reorder.go:33-54 | An insertion delivers the next stretch of the log up to the first gap, and forgets nothing it keeps |
| Reorder.WindowDistance | internal/transport/reorder.go:63-65 | Inside a half-space window the wrapped difference and the serial comparison agree with true distance and true order |
| Reorder.ReorderBuffer.Insert | internal/transport/reorder.go:21-55 | The map update and the flush loop do what the insertion function says, and the loop ends |
| Acks.AcksExact | internal/transport/conn.go:245-262 | For every arrival order below 2^31: the window's ack is the highest received number, and bit i is set if and only if ack-1-i was received, number 0 counting as received |
| Acks.NotedExactIff | internal/transport/conn.go:245-262 | Across wrap-around: an update keeps the bitmask exact if and only if it is not for a new number at most 32 below the highest one whose low 32 bits are larger |
| Acks.AcksAcrossWrap | internal/transport/conn.go:245-262 | For every sequence of arrivals from the start, each within 2^31 of the highest so far: a set bit always stands for a received number, and the bitmask is exact if and only if each received number within its 32 places arrived at least once without being forgotten |
| Acks.RunRemembers | internal/transport/conn.go:245-262 | In every such run the bitmask is exact for the numbers that were not forgotten on arrival |
| Acks.NotedSound | internal/transport/conn.go:245-262 | Even after forgetting, an update never makes the window name a number that was not received |
| Acks.NamedReceived | internal/transport/retx.go:65-73 | An exact window names only received numbers, so a sender removes only received packets |
| Acks.ForgottenAfterWrap | internal/transport/conn.go:255 | A sequence of four arrivals from the start after which the bitmask is not exact: number 2^32 - 1 after number 2^32 leaves no trace |
| Retx.EveryLifeIsGood | internal/transport/retx.go:36-103 | Every added packet is exactly one of pending, acknowledged, expired; at most ten retransmissions; the timeout never below 200 ms, and at most 2 s after any backoff; nothing given up before ten retransmissions and 17.0 s |
| Timers.RetransmissionTimes | internal/transport/conn.go:222-235 | In every run of two connections, whatever the clock readings: each pending packet has at most ten retransmissions and a timeout from 200 ms to 2 s, and each one given up has all ten behind it and 17.0 s since its first send |
| Timers.TickResends | internal/transport/conn.go:222-235 | A tick puts on the network exactly one packet for each pending number with fewer than ten retransmissions whose time has come, and no other: that number, its logged payload, the flags of reliable data, the current window |
| Timers.TickBooks | internal/transport/retx.go:77-103 | The same tick counts those retransmissions, doubles their timeouts up to 2 s from now, gives up what was due for an eleventh time, and leaves the rest alone |
| Timers.SendBooks | internal/transport/retx.go:36-46 | A sent packet is pending, first due after the connection's timeout, and no other entry changes |
| Timers.ResentAsCounted | internal/transport/retx.go:77-103 | Over whole runs: the ticks in which the network got a retransmission of a number are as many as its entry counts while it is pending, and exactly ten once it is given up |
| Retx.LastWait | internal/transport/retx.go:92-97 | The doubling timeouts from 200 ms, capped at 2 s, sum to exactly 17.0 s at the least |
| Retx.RetxQueue.CollectRetransmissions | internal/transport/retx.go:77-103 | The loop over the map returns each due packet once, in some order, doubles its timeout, removes the expired ones and leaves the rest alone |
| Retx.RetxQueue.Ack | internal/transport/retx.go:50-61 | Removes the packet, and yields a round-trip sample only if it was never retransmitted |
| Retx.RetxQueue.AckBitmask | internal/transport/retx.go:65-73 | Removes exactly the packets the bitmask names |
| Endpoints.RtoRange | internal/transport/conn.go:289-300 | The timeout handed to the queue is the estimate plus four deviations between 200 ms and 2 s, exactly 200 ms below and exactly 2 s above |
| Endpoints.SamplesAreUnambiguous | internal/transport/conn.go:265-286 | The estimate changes only on a positive sample from a packet that was never retransmitted |
| Endpoints.SmoothedBetween | internal/transport/conn.go:265-286 | A new estimate lies between the old one and the sample, and the deviation stays non-negative |
| Endpoints.SampleWeights | internal/transport/conn.go:265-286 | An acknowledgement naming a packet never retransmitted moves the estimate an eighth of the way to its positive sample and the deviation a quarter of the way to their distance, rounded down; the first sample becomes the estimate and half of it the deviation |
| Endpoints.HintEnters | internal/transport/conn.go:212-218 | An unreliable payload that is no ping enters an inbox that has room, and touches neither window nor reorder buffer |
| Endpoints.PayloadEnters | internal/transport/conn.go:199-210 | An arriving reliable payload is noted and inserted, and what the reorder buffer hands over enters the inbox as far as there is room |
| Endpoints.NothingEnters | internal/transport/conn.go:199-218 | Pings and packets without payload leave inbox, window and reorder buffer as they are |
| Connection.Conn.Send | internal/transport/conn.go:106-139 | Numbers the payload, sends and tracks it; a failed send uses up its number untracked; a chaos drop tracks without sending |
| Connection.Conn.SendUnreliable | internal/transport/conn.go:142-157 | Uses up a number of the same sequence space and tracks nothing |
| Connection.Conn.HandleReceive | internal/transport/conn.go:185-219 | Acknowledgement processing, window update, reordering and inbox in the source's order, with payloads that do not fit dropped one by one |
| Connection.Conn.UpdateRecvAck | internal/transport/conn.go:245-262 | The shifts and ors compute the window update of the acknowledgement lemmas |
| Connection.Conn.Tick | internal/transport/conn.go:222-235 | Sends each due packet exactly once, with the current acknowledgement written into it, and reports the expired ones |
| Packets.PacketRoundTrip | internal/transport/packet.go:46-86 | A datagram decodes to its packet with the first (length mod 65536) payload bytes: to the packet itself if and only if the payload is shorter than 65536 |
| Packets.PacketPrintsBack | internal/transport/packet.go:61-86 | Whatever decodes prints back to the bytes it came from |
| Packets.FrameSurvivesDatagram | internal/wire/codec.go:169-183 | With both 16-bit counts together, a frame gets through a datagram unaltered if and only if it has at most 2978 commands |
| Wire.FrameRoundTrip | internal/wire/codec.go:169-183 | A frame decodes to itself with its first (count mod 65536) commands: to itself if and only if it has fewer than 65536 |
| Wire.FramePrintsBack | internal/wire/codec.go:313-337 | A decoded frame prints back to the bytes it came from |
| Wire.CmdRoundTrip | internal/wire/codec.go:143-167 | A command decodes to itself, whatever bytes follow |
| Wire.HashAckRoundTrip | internal/wire/codec.go:185-191 | A hash report decodes to itself, whatever bytes follow |
| Wire.EncodeFrameBundle | internal/wire/codec.go:169-183 | The offset loop fills the buffer with the frame's layout |
| Wire.DecodeFrameBundle | internal/wire/codec.go:313-337 | The parsing loop returns the frame, or fails exactly when the bytes are too short for the header or the count |
| Wire.WireCmdsToSimCmds | internal/lockstep/room.go:297-312 | Converts the commands one by one, in order |
| Orders.ConversionKeeps | internal/lockstep/room.go:297-312 | Each converted command has the wire command's own player, operation, unit, target, and X and Y coordinates |
| Orders.FrameMovesUnit | internal/lockstep/room.go:297-312 | A living unit for which its owner's last MOVE in a frame is this one heads for exactly its TargetX and TargetY after the tick, or is dead and gone |
| Orders.LastOrderCounts | internal/sim/step.go:45-68 | A living unit does what its owner's last MOVE, ATTACK or STOP of the tick says: state, target and destination, spelled out with the source's codes; without one it is unchanged |
| Orders.OneCommand | internal/sim/step.go:45-68 | One command: operation 1 sets state 1 and the destination and clears the target, 2 sets state 0 and the command's target, 3 sets state 0 and clears it; other operations and other players' commands do nothing |
| Orders.DeadObeyNothing | internal/sim/step.go:45-68 | A dead unit obeys nothing |
| Formats.LittleEndian | internal/wire/codec.go:143-191 | Words of each width are stored with the lowest byte first |
| Formats.CommandFormat | internal/wire/codec.go:143-167 | Where each field of a command lies on the wire, with negative coordinates in two's complement |
| Formats.RecordedFormat | internal/replay/format.go:98-125 | Where each field of a command lies in a recording |
| Formats.UnitFormat | internal/sim/snapshot.go:15-63 | Where each field of a unit lies in a snapshot |
| Formats.HashedFormat | internal/sim/hash.go:36-47 | Where each hashed field of a unit lies in the hashed layout |
| Formats.Tags | internal/transport/packet.go:46-58 | The type bytes of frames and reports, and the magic bytes of datagrams and recordings |
| SimInvariants.RunsStayOnMap | internal/sim/step.go:70-106 | In every run of spawns on the map and ticks with arbitrary commands, every unit with speed in [0, 181) stays on the map, of any non-negative size, and nothing divides by zero |
| SimInvariants.SafeSpeedsRun | internal/sim/fixed/vec2.go:70-78 | A run never divides by zero if no unit's speed, in the first world or of a spawn, can make a move do so |
| SimInvariants.SurvivorsKeep | internal/sim/step.go:16-43 | A tick makes no units, and each survivor keeps ID, owner, MaxHP and speed |
| SimInvariants.RunsKeepUnits | internal/sim/world.go:74-87 | In every run each unit is one of the first world or of a spawn, with the same ID, owner, MaxHP and speed |
| SimInvariants.OnMapIsPanicFree | internal/sim/fixed/vec2.go:70-78 | Units with speeds in [0, 181) can never make a tick divide by zero |
| SimInvariants.RunsAreSound | internal/sim/world.go:74-87 | In every run: IDs strictly increasing and below NextID, stored units alive with 0 < HP <= MaxHP, Moving only without a target |
| SimInvariants.StepKeepsSound | internal/sim/step.go:16-43 | One tick keeps that invariant for arbitrary commands |
| SimInvariants.OrdersPerUnit | internal/sim/step.go:45-68 | What the commands of a tick make of a unit is what its own commands make of it, in order; of two units with one ID only the first obeys |
| SimInvariants.CommandOrderIndependence | internal/sim/step.go:45-68 | Two command lists that agree unit by unit give the same world after the tick and after any further run; if one divides by zero, so does the other |
| SimInvariants.HealthConservation | internal/sim/step.go:16-43 | A tick lowers total health by exactly the damage dealt, each hit capped at the target's remaining health |
| SimInvariants.TurnDamage | internal/sim/step.go:82-106 | One unit's turn lowers total health by its hit, if it hits |
| Pursuit.AttackTurn | internal/sim/step.go:82-106 | The turn of an idle unit with a living target: within 2.0 it takes 0.5 of the target's health, and kills when nothing is left; beyond, it ends at the target or strictly nearer; nobody else changes |
| Pursuit.LostTargetTurn | internal/sim/step.go:82-90 | A unit whose target is dead or gone forgets it and does nothing else |
| Pursuit.HuntTick | internal/sim/step.go:16-43 | A whole tick with other units and commands about: such a pursuit goes on, one step nearer or with one hit more, as long as both live |
| Pursuit.AttackSucceeds | internal/sim/step.go:82-106 | Against a target that stays put and attacks nobody, and with nobody else interfering: after as many ticks as the raw Manhattan distance the attacker is in range, or the target gone; and one tick more for each 0.5 of its health ends with the target gone |
| Movement.MovementTerminates | internal/sim/step.go:70-80 | On a map of any size: a moving unit that its owner leaves alone, with speed at least 512 raw and a target on the map, is dead or idle with DistSq to its target at most Eps after more ticks than its raw Manhattan distance; and truly within 444 raw units of it if the map's squared diagonal fits |
| Movement.IdlesFarAway | internal/sim/step.go:77-79 | On a map of 300 by 300 a unit idles more than 200.0 short of its target |
| Movement.TickLengthBound | internal/sim/step.go:70-80 | If the squared distance to the target, wherever it is, does not overflow, a tick takes a unit on the map at most its speed and 363 raw units far, snapping, scaling or clamped |
| Movement.TickLengthExact | internal/sim/step.go:70-80 | For a target on the map and speeds from 1024 to 11800000 raw, it does so if and only if the squared distance does not overflow |
| Movement.TickLengthLeast | internal/sim/step.go:70-80 | For targets on the map whose squared distance fits, the unit is at its target after the tick, or at most 185 raw units short of its speed |
| Movement.StopsExactlyThere | internal/sim/step.go:70-80 | A moving unit idles exactly when it ends the tick with DistSq to its destination at most 1 raw, and a snapping move onto the map ends exactly there |
| MoveLength.MoveLengthExact | internal/sim/fixed/vec2.go:70-78 | For speeds from 1024 to 11800000 raw and coordinate differences that do not wrap: MoveToward moves at most the speed and 363 raw units if and only if the squared distance fits Q16.16 |
| MoveLength.StepBound | internal/sim/fixed/vec2.go:70-78 | In the overflow-free domain the bound holds for every speed in [0, 181), in the snapping case too |
| MoveLength.FarSnap | internal/sim/fixed/vec2.go:70-78 | From (10, 10) toward (200, 50) at speed 0.5 the move is the whole way |
| MoveLength.EpsMeansClose | internal/sim/step.go:77-79 | Where DistSq is at most Eps, the positions are truly close if and only if their squared distance fits |
| Movement.MovedNearer | internal/sim/step.go:70-80 | On a map of any size each tick either ends the movement within Eps or strictly lowers the raw Manhattan distance |
| Vectors.PanicFreeSpeeds | internal/sim/fixed/vec2.go:70-78 | A speed never makes MoveToward divide by zero, at any position, if and only if its rescaled square is not negative after wrapping |
| Vectors.RatioAtMostOne | internal/sim/fixed/vec2.go:70-78 | The scaling factor of a non-snapping move lies in [0, 1], even when the squared distance wrapped |
| Vectors.MoveStaysBetween | internal/sim/fixed/vec2.go:70-78 | A move ends between its endpoints on each axis |
| Vectors.MoveMakesProgress | internal/sim/fixed/vec2.go:70-78 | A non-snapping move of at least 512 raw strictly lowers the Manhattan distance, even where the squared distance overflows |
| Vectors.MoveLengthBound | internal/sim/fixed/vec2.go:70-78 | In the overflow-free domain a non-snapping move is at most 259 raw units longer than the speed |
| MoveLength.MoveLengthLeast | internal/sim/fixed/vec2.go:70-78 | And at most 185 raw units shorter |
| Vectors.MoveToward | internal/sim/fixed/vec2.go:70-78 | Snaps or scales as the specification over exact square roots says |
| Fixed.Sqrt | internal/sim/fixed/fixed.go:119-138 | The bit-by-bit search returns the exact integer square root of the value at full precision, and zero up to zero |
| Fixed.IntSqrtUnique | internal/sim/fixed/fixed.go:119-138 | Any r with r*r <= n < (r+1)*(r+1) is the integer square root |
| Sim.SortPermutes | internal/sim/step.go:109-121 | The sort keeps the multiset of units |
| Sim.SortSorts | internal/sim/step.go:109-121 | The sort orders units by ID |
| Sim.SortIdentity | internal/sim/step.go:109-121 | The sort changes nothing on units in ID order, as in every reachable world |
| Sim.StepKeepsPanicFree | internal/sim/step.go:16-43 | A tick keeps the property that no unit's speed can make movement divide by zero |
| Sim.StepSafeExact | internal/sim/step.go:16-43 | A tick is in the domain of the step function if and only if none of its turns divides by zero |
| Sim.PlayIgnoresRand | internal/sim/world.go:61-71 | No run of ticks reads or changes the random state |
| SimWorld.World.Step | internal/sim/step.go:16-43 | On every tick without a division by zero the in-place tick (commands, sorting, movement and attack in ID order, removal) is the step function |
| SimWorld.World.ApplyCommands | internal/sim/step.go:45-68 | The command loop with its skipped cases is the command function |
| SimWorld.World.SortUnitsByID | internal/sim/step.go:109-121 | The in-place insertion sort is the sort function |
| SimWorld.World.StepAttack | internal/sim/step.go:82-106 | Clears a vanished target, hits in range, or pursues without a clamp |
| SimWorld.World.StepMove | internal/sim/step.go:70-80 | Moves, clamps to the map and idles on arrival |
| SimWorld.World.RemoveDead | internal/sim/world.go:111-119 | Keeps the units that are not dead, in order |
| SimWorld.World.FindUnit | internal/sim/world.go:91-98 | The first unit with the ID |
| Hash.OneByteIsDetected | internal/sim/hash.go:16-57 | Worlds whose hashed layouts have one length and differ in exactly one byte have different hashes |
| Hash.LayoutShows | internal/sim/hash.go:16-47 | The hashed layout tells worlds apart exactly by tick, unit count and each unit's ID, owner, state, HP, position and target |
| Hash.MixInjective | internal/sim/hash.go:50-57 | The FNV fold over any data is injective in the state it starts from |
| Hash.FnvVectors | internal/sim/hash.go:16-57 | The published vectors of 64-bit FNV-1a for the empty string, a and foo |
| Hash.Hash | internal/sim/hash.go:16-34 | The accumulator loop with its reused scratch buffer folds the layout |
| Snapshot.RoundTrip | internal/sim/snapshot.go:15-130 | Parsing a printed world gives it back, with the unit count taken modulo 2^32 |
| Snapshot.PrintParsed | internal/sim/snapshot.go:66-130 | Printing a parsed world gives back the bytes it was parsed from |
| Snapshot.Marshal | internal/sim/snapshot.go:15-63 | The offset loop fills the buffer with the world's layout |
| Snapshot.Unmarshal | internal/sim/snapshot.go:66-130 | Parses the layout, or fails exactly on a short header or too few unit bytes |
| RoomRuns.CommandsExactlyOnce | internal/lockstep/inputbuf.go:16-25 | In every run, frame t holds exactly the commands for tick t that arrived before its seal, in order; sealed and buffered commands for a tick are together exactly its arrivals |
| RoomRuns.LateCommandsNeverRun | internal/lockstep/room.go:207-218 | A command for a tick already sealed when it arrives is in no frame sealed afterwards |
| RoomRuns.HashWindow | internal/lockstep/hashagg.go:40-56 | After every seal the window is exactly ticks max(1, t-100) to t, with no waiting slot older than 60 |
| RoomRuns.LateReportReopens | internal/lockstep/hashagg.go:60-89 | A report for a slot older than 60 makes it wait again exactly when players are still missing |
| RoomRuns.EveryRun | internal/lockstep/room.go:207-274 | In every run: the history is the last 200 frames or all of them, the world is the frames played from the start, room tick and world tick agree, the log is the records of the frames, and each slot that has not timed out is in the state that is the verdict on its hashes |
| RoomRuns.HashesAreLatest | internal/lockstep/hashagg.go:60-89 | In every run each slot holds for each player the hash of its last report for that tick since the seal, and nothing for a player who has not reported since |
| RoomRuns.DesyncExactlyWhenReportsDiffer | internal/lockstep/hashagg.go:60-89 | In every run a tick in the window is in state Desync if and only if at least as many players as expected have reported for it since its seal and two of their last reports differ, and in state Match if and only if they have and none differ |
| RoomRuns.SealKeepsYoung | internal/lockstep/hashagg.go:93-104 | A seal leaves every slot of age at most 60 as it was, and the new one waiting |
| Rooms.SealedFrame | internal/lockstep/room.go:207-226 | The frame a seal adds to the history has the next tick, the given input delay and exactly the buffered commands of that tick; the history keeps the newest 200 |
| RoomActor.Room.SealTick | internal/lockstep/room.go:207-243 | The new room state is that of the seal function; the frame goes to exactly the joined, connected players |
| RoomActor.Room.HandleMsg | internal/lockstep/room.go:173-205 | Commands are buffered, reports change the hash window and yield its verdict, other messages change nothing modelled |
| RoomActor.Room.HandleResume | internal/lockstep/reconnect.go:47-98 | Without a limbo slot rejects and changes nothing; else frees the slot, reconnects the player, and returns the frames or the snapshot |
| RoomActor.WhoReceives | internal/lockstep/reconnect.go:26-72 | Joining and resuming make a player one of those frames are sent to, disconnecting none of them, and a resume touches no other slot |
| RoomActor.Room.FrameHistory | internal/lockstep/room.go:287-295 | The frames after a tick, in order |
| Resume.ResumeCatchesUp | internal/lockstep/reconnect.go:74-89 | A client with the server's world of any past tick reaches the room's current world, from exactly the frames it missed if at most 100 behind, else from the snapshot |
| Resume.ClientAhead | internal/lockstep/reconnect.go:74-89 | A client that claims a future tick gets the snapshot, except within 100 ticks of 2^32, when it gets no frames |
| Resume.HistoryReaches | internal/lockstep/room.go:220-226 | The bounded history still holds every frame after a tick at most 200 back |
| Inputs.InputBuf.Seal | internal/lockstep/inputbuf.go:21-25 | Returns the tick's commands in order and removes the bucket |
| Inputs.InputBuf.Add | internal/lockstep/inputbuf.go:16-18 | Appends to the bucket of the command's own tick |
| Hashes.HashAgg.Report | internal/lockstep/hashagg.go:60-89 | Whatever order the map is visited in, the verdict is Partial while players are missing, else Match if all hashes agree, else Desync; Timeout outside the window |
| Hashes.ReportDecides | internal/lockstep/hashagg.go:60-89 | A report stores the player's hash; the stored and returned state is Partial while fewer players than expected have one, then Desync if and only if two differ, Match if and only if none do; outside the window Timeout, and nothing changes |
| Hashes.HashAgg.CheckTimeouts | internal/lockstep/hashagg.go:93-104 | Marks and returns exactly the slots that wait and are too old |
| Hashes.TimeoutsDecide | internal/lockstep/hashagg.go:93-104 | Exactly the slots that wait and are older than the limit turn to Timeout, and keep their hashes |
| Hashes.HashAgg.CreateSlot | internal/lockstep/hashagg.go:40-56 | Adds an empty slot and cuts off exactly the slots below the window |
| Hashes.ReportsCommute | internal/lockstep/hashagg.go:60-89 | Reports of different players for a tick commute, verdict included |
| ReplayCheck.RecordingVerifies | cmd/replay-play/main.go:55-69 | For every room run recorded from a header with the initial snapshot, opening, parsing and re-stepping the log reports zero mismatches |
| ReplayCheck.CutRecordingVerifies | internal/replay/reader.go:33-59 | The same log cut at any byte after the header checks with zero mismatches, or fails exactly when the cut is inside a record |
| ReplayCheck.NoDesyncsMeans | cmd/replay-play/main.go:55-69 | The checker reports zero if and only if every recorded hash is that of the world the recorded commands lead to |
| ReplayCheck.DesyncsCounts | cmd/replay-play/main.go:55-69 | The number it reports is the number of wrong hashes |
| ReplayCheck.Verify | cmd/replay-play/main.go:54-69 | The loop steps the world through the records and counts exactly the mismatches |
| ReplayCheck.Check | cmd/replay-play/main.go:31-83 | Header, snapshot and records are parsed in turn, and an error in any of them ends the check |
| Replay.CutLog | internal/replay/reader.go:46-59 | A cut log reads back exactly the records wholly contained, with an error if and only if the cut is inside a record |
| Replay.WholeIsLargest | internal/replay/reader.go:46-59 | The records wholly contained are the most that fit |
| Replay.LogRoundTrip | internal/replay/format.go:53-159 | A written log reads back as its header and all its records |
| Replay.HeaderRoundTrip | internal/replay/format.go:53-95 | A header parses back, with the offset of the first record |
| Replay.HeaderCut | internal/replay/format.go:70-95 | A log cut inside its header does not open |
| Replay.TickRoundTrip | internal/replay/format.go:98-159 | A record parses back, with its length, if and only if it has fewer than 65536 commands |
| Replay.TickCut | internal/replay/format.go:128-159 | A record cut anywhere does not parse |
| Replay.Reader.ReadAll | internal/replay/reader.go:46-59 | Returns the records up to the end or the first that does not parse, and which of the two it was |
| Replay.Reader.NextTick | internal/replay/reader.go:33-43 | Returns the next record and advances by its length; at the end, or on a record that does not parse, stays |
| Replay.Writer.WriteTick | internal/replay/writer.go:30-35 | Appends the bytes of one record |
| Connection.Conn.SendACK | internal/transport/conn.go:160-170 | A bare acknowledgement with number 0 and the current window |
| Connection.Conn.SendPing | internal/transport/conn.go:173-182 | A ping with number 0 and the current window |
| Connection.Conn.UpdateRTT | internal/transport/conn.go:265-286 | The estimator with its special first sample |
| Connection.Conn.Resend | internal/transport/conn.go:222-235 | The loop writes the current window into each due packet, in the queue as on the wire, and sends it once |
| Retx.RetxQueue.Add | internal/transport/retx.go:36-46 | Tracks the packet with a timeout raised to 200 ms if lower |
| Packets.Encode | internal/transport/packet.go:46-58 | The buffer filled field by field is the packet's layout |
| Packets.DecodePacket | internal/transport/packet.go:61-86 | The packet of a datagram, or an error exactly for a short header, a wrong magic number or a missing payload |
| Wire.EncodeCmdPayload | internal/wire/codec.go:157-167 | The buffer filled field by field is the command's layout |
| Wire.EncodeHashAck | internal/wire/codec.go:185-191 | The buffer filled field by field is the report's layout |
| SimWorld.World.SpawnUnit | internal/sim/world.go:74-87 | Appends an idle unit at full health with the next ID, and returns the ID |
| SimWorld.World.UpdateUnits | internal/sim/step.go:24-39 | The loop over the units in place gives each its turn on what the earlier turns left |
| Hash.FnvMix | internal/sim/hash.go:50-57 | The loop folds the bytes from the left |
| Hash.HashUnit | internal/sim/hash.go:36-47 | The scratch buffer holds the unit's layout when it is folded |
| RoomActor.Room.Execute | internal/lockstep/room.go:262-273 | One simulation step, and with a replay writer one record with the hash after it |
| RoomActor.Room.Recipients | internal/lockstep/room.go:238-243 | Exactly the joined and connected players, each once and in slot order |
| RoomActor.Room.HandleDisconnect | internal/lockstep/reconnect.go:26-43 | The player's slot is marked absent and goes to limbo; an unknown player changes nothing |
| RoomActor.Room.AddPlayer | internal/lockstep/room.go:95-107 | The first free slot, if there is one, becomes the player's, with the slot's low byte as its ID; else nothing changes |
| RoomActor.Room.SetReplayWriter | internal/lockstep/room.go:123-125 | From now on the room's log is what the writer has and will get |
| Replay.MarshalHeader | internal/replay/format.go:53-67 | The buffer filled field by field is the header's layout with the snapshot behind it |
| Replay.UnmarshalHeader | internal/replay/format.go:70-95 | The header and the offset behind it, or an error exactly for short data or a wrong magic number |
| Replay.MarshalTick | internal/replay/format.go:98-125 | The offset loop fills the buffer with the record's layout |
| Replay.UnmarshalTick | internal/replay/format.go:128-159 | The record and its length, or an error exactly for data too short for the header or the count |
| Replay.NewReader | internal/replay/reader.go:15-21 | Opens at the first record if and only if the header parses |
| Replay.Writer.WriteHeader | internal/replay/writer.go:20-27 | Appends the bytes of the header |
| Hashes.HonestReportsNeverDesync | internal/lockstep/hashagg.go:60-89 | As long as every report carries the reference hash of its tick, no verdict is Desync |

## Left out

- Sockets, goroutines, channels and locks: each operation is one atomic step, and time is a parameter. A read buffer of 2048 bytes or the
  size limit of UDP can only lose a datagram, which the network steps allow.
- SYN, Hello and Join handshakes and the listener: runs start from an established connection and a room that sends to the player
  or not; every other message type may be sent at any time, but is recognised by its type byte only.
- `CleanupLimbo`: wall-clock expiry of limbo slots. The room registry: a map of rooms by name.
- The adaptive input delay and the median of RTT samples: a frame carries its value, which nothing modelled reads.
- `FromFloat64`, `ToFloat64`, trigonometry and the random generator itself: floating point, and unused by a tick; 0.5 is raw 32768.
- `internal/obs`, chaos tools, load test, flags and log output. Chaos drops and duplicates are outcomes of `Connection.Conn.Send`.
- Authentication of the player byte in a command, and resume tokens.
- A failing write to the replay file: the room's writer always succeeds; `Replay.Writer` itself models both outcomes.
- A tick that divides by zero: the program panics there, and `SimWorld.World.Step` and `ReplayCheck.Check` require exactly that it
  does not happen.
- RoomActor.Room.SealTick: does not model the limbo cleanup and the announcement of a new input delay every 20 ticks.
- RoomActor.Room.HandleMsg: does not model the effect of an RTT report on the adaptive input delay.
- Transport.DeliveryInOrder: before either end has used 2^31 sequence numbers; across wrap-around `Reorder.DeliversPrefix` and
  `Acks.AcksAcrossWrap` take its place for each receiver.
- Match.UninterruptedMatch: frames of at most 2978 commands, fewer than 2^31 sequence numbers at each end and fewer than 2^32 ticks, which are
  the limits of the fields they travel in. A `Resume` in the middle of a match is not a step of it: the code has no encoding
  for its answer, and `Resume.ResumeCatchesUp` covers it by itself.
- RoomRuns.EveryRun: fewer than 2^32 seals, after which the tick would wrap.
- Wire.EncodeFrameBundle: the other encoders of fixed size are modelled as the layout function only.
- Retx.RetxQueue.CollectRetransmissions: returns sequence numbers where the source returns pointers to the pending packets.
- Reading of the same `Inbox` by two goroutines, and integer overflow of `time.Duration`.
