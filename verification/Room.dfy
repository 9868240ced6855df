/** The lockstep room as a value: what each message and each sealed tick does. */
module Rooms {
  import opened Words
  import opened Wire
  import opened Inputs
  import opened Hashes
  import Sim
  import Hash
  import Snapshot
  import Replay

  const MAX_HISTORY := 200
  const MAX_INCREMENTAL := 100

  datatype RoomState = RoomState(
    tick: uint32, world: Sim.WorldState, buckets: Buckets, history: seq<FrameBundle>,
    slots: Slots, playerCount: int, recording: bool, log: Bytes)

  function NewRoomState(world: Sim.WorldState, playerCount: int, recording: bool, log: Bytes): RoomState {
    RoomState(0, world, map[], [], map[], playerCount, recording, log)
  }

  function WithCmd(r: RoomState, c: Cmd): RoomState {
    r.(buckets := Buffered(r.buckets, c))
  }

  function WithReport(r: RoomState, player: uint8, ha: HashAck): (RoomState, HashState) {
    var s := Reported(r.slots, ha.tick, player, ha.hash);
    (r.(slots := s.0), s.1)
  }

  /** The frame that the next seal produces. */
  function NextFrame(r: RoomState, n: uint8): FrameBundle {
    FrameBundle(Inc32(r.tick), n, Bucket(r.buckets, Inc32(r.tick)))
  }

  function Remember(h: seq<FrameBundle>, fb: FrameBundle): seq<FrameBundle> {
    (if |h| >= MAX_HISTORY then h[1..] else h) + [fb]
  }

  function SlotsAfterSeal(slots: Slots, playerCount: int, tick: uint32): Slots {
    TimedOut(WithSlot(slots, WINDOW_SIZE, playerCount, tick), tick, MAX_AGE)
  }

  ghost function Sealed(r: RoomState, n: uint8): RoomState
    requires Sim.PanicFree(r.world.units)
  {
    var fb := NextFrame(r, n);
    var w := Sim.Step(r.world, ToSimAll(fb.cmds));
    RoomState(
      fb.tick, w, r.buckets - {fb.tick}, Remember(r.history, fb),
      SlotsAfterSeal(r.slots, r.playerCount, fb.tick), r.playerCount, r.recording,
      if r.recording then r.log + Replay.TickBytes(Replay.TickRecord(fb.tick, fb.cmds, Hash.HashOf(w))) else r.log)
  }

  /** The frame that a seal adds to the history, which keeps the newest 200. */
  lemma SealedFrame(r: RoomState, n: uint8)
    requires Sim.PanicFree(r.world.units) && r.tick < TWO_TO_THE_32 - 1
    ensures var s, t := Sealed(r, n), r.tick + 1;
            && s.tick == t && t !in s.buckets && s.history != []
            && s.history[|s.history| - 1] == FrameBundle(t, n, if t in r.buckets then r.buckets[t] else [])
            && (|r.history| < 200 ==> s.history[..|s.history| - 1] == r.history)
            && (|r.history| >= 200 ==> s.history[..|s.history| - 1] == r.history[1..])
  {
    hide Sim.Step, Sim.NeverPanics, Hash.HashOf;
  }

  function FramesAfter(h: seq<FrameBundle>, t: uint32): seq<FrameBundle> {
    if h == [] then []
    else if h[|h| - 1].tick > t then FramesAfter(h[..|h| - 1], t) + [h[|h| - 1]]
    else FramesAfter(h[..|h| - 1], t)
  }

  datatype Resync = Resync(hasSnapshot: bool, snapshot: Bytes, frames: seq<FrameBundle>)

  /** The difference of two uint32 ticks is never negative: a client ahead of the room counts as far behind. */
  function ResyncOf(r: RoomState, lastExecuted: uint32): Resync {
    if Sub32(r.tick, lastExecuted) > MAX_INCREMENTAL
    then Resync(true, Snapshot.MarshalOf(r.world), [])
    else Resync(false, [], FramesAfter(r.history, lastExecuted))
  }
}

/** The room object. */
module RoomActor {
  import opened Results
  import opened Words
  import opened Wire
  import opened Inputs
  import opened Hashes
  import opened Rooms
  import opened SimWorld
  import Sim
  import Hash
  import Snapshot
  import Replay

  datatype Player = Free | Taken(playerID: uint8, connected: bool, joined: bool)

  datatype LimboSlot = LimboSlot(playerID: uint8, disconnectedAt: int)

  /** The first limbo slot of a player, or the length. */
  function LimboIndex(limbo: seq<LimboSlot>, playerID: int): (i: nat)
    ensures i <= |limbo|
    ensures i < |limbo| ==> limbo[i].playerID == playerID
    ensures forall j :: 0 <= j < i ==> limbo[j].playerID != playerID
  {
    if limbo == [] || limbo[0].playerID == playerID then 0 else 1 + LimboIndex(limbo[1..], playerID)
  }

  /** Each once, in the order of the slots. */
  predicate Ascending(rs: seq<nat>) {
    forall i, j :: 0 <= i < j < |rs| ==> rs[i] < rs[j]
  }

  predicate Receives(p: Player) {
    p.Taken? && p.joined && p.connected
  }

  class Room {
    const world: World
    const inputBuf: InputBuf
    const hashAgg: HashAgg
    var replayWriter: Replay.Writer?
    var tick: uint32
    var frameHistory: seq<FrameBundle>
    var players: seq<Player>
    var limbo: seq<LimboSlot>

    ghost predicate Valid()
      reads world
    {
      hashAgg.windowSize == WINDOW_SIZE && Sim.PanicFree(world.units)
    }

    function State(): RoomState
      reads this, world, inputBuf, hashAgg, replayWriter
    {
      RoomState(tick, world.State(), inputBuf.buckets, frameHistory, hashAgg.window, hashAgg.playerCount,
                replayWriter != null, if replayWriter == null then [] else replayWriter.out)
    }

    constructor (seed: uint64, mapW: int32, mapH: int32, playerCount: nat)
      ensures Valid() && fresh(world) && fresh(inputBuf) && fresh(hashAgg)
      ensures State() == NewRoomState(Sim.NewWorldState(seed, mapW, mapH), playerCount, false, [])
      ensures players == seq(playerCount, _ => Free) && limbo == []
    {
      world := new World(seed, mapW, mapH);
      inputBuf := new InputBuf();
      hashAgg := new HashAgg(WINDOW_SIZE, playerCount);
      replayWriter := null;
      tick, frameHistory, limbo := 0, [], [];
      players := seq(playerCount, _ => Free);
    }

    /** The first free slot, or the length. */
    static function FreeIndex(ps: seq<Player>): (i: nat)
      ensures i <= |ps| && (i < |ps| ==> ps[i].Free?)
      ensures forall j :: 0 <= j < i ==> ps[j].Taken?
    {
      if ps == [] || ps[0].Free? then 0 else 1 + FreeIndex(ps[1..])
    }

    /** Gives the player the first free slot, and its low byte as ID. */
    method AddPlayer() returns (id: uint8, ok: bool)
      modifies this`players
      ensures var i := FreeIndex(old(players));
              && ok == (i < |old(players)|)
              && id == (if ok then i % 256 else 0)
              && players == if ok then old(players)[i := Taken(id, true, true)] else old(players)
    {
      var i := 0;
      while i < |players| && players[i].Taken?
        invariant i <= |players| && FreeIndex(players) == i + FreeIndex(players[i..])
      {
        assert players[i..][1..] == players[i + 1..];
        i := i + 1;
      }
      if i == |players| {
        return 0, false;
      }
      players := players[i := Taken(i % 256, true, true)];
      return i % 256, true;
    }

    /** The caller has already written the header. */
    method SetReplayWriter(rw: Replay.Writer)
      modifies this`replayWriter
      ensures State() == old(State()).(recording := true, log := rw.out)
    {
      replayWriter := rw;
    }

    /** Returns the hash verdict, when the message asked for one. */
    method HandleMsg(playerID: uint8, m: Message) returns (verdict: HashState)
      requires Valid()
      modifies inputBuf, hashAgg
      ensures Valid()
      ensures match m
              case CmdMsg(c) => State() == WithCmd(old(State()), c)
              case HashMsg(ha) => (State(), verdict) == WithReport(old(State()), playerID, ha)
              case _ => State() == old(State())
    {
      verdict := Pending;
      match m
      case CmdMsg(c) => inputBuf.Add(c);
      case HashMsg(ha) => verdict := hashAgg.Report(ha.tick, playerID, ha.hash);
      case _ =>
    }

    /** Seals the next tick; `data` goes to every player in `recipients`. */
    method SealTick(n: uint8) returns (data: Bytes, recipients: seq<nat>)
      requires Valid()
      modifies this`tick, this`frameHistory, inputBuf, hashAgg, world, replayWriter
      ensures Valid() && State() == Sealed(old(State()), n)
      ensures data == EncodeOf(FrameMsg(NextFrame(old(State()), n)))
      ensures forall i :: i in recipients <==> 0 <= i < |players| && Receives(players[i])
      ensures Ascending(recipients)
    {
      hide Sim.NeverPanics, Sim.Step, WithSlot, TimedOut, Replay.TickBytes, Hash.HashOf, Wire.EncodeOf, Ascending;
      ghost var r := State();
      tick := Inc32(tick);
      var cmds := inputBuf.Seal(tick);
      var fb := FrameBundle(tick, n, cmds);
      if |frameHistory| >= MAX_HISTORY {
        frameHistory := frameHistory[1..];
      }
      frameHistory := frameHistory + [fb];
      hashAgg.CreateSlot(tick);
      var _ := hashAgg.CheckTimeouts(tick, MAX_AGE);
      data := EncodeFrameBundle(fb);
      recipients := Recipients();
      Execute(cmds);
      assert fb == NextFrame(r, n);
    }

    /** The second half of a seal: one simulation step, and a record of it when a replay writer is attached. */
    method Execute(cmds: seq<Cmd>)
      requires Valid()
      modifies world, replayWriter
      ensures Valid() && world.State() == Sim.Step(old(world.State()), ToSimAll(cmds))
      ensures replayWriter != null ==>
                replayWriter.out == old(replayWriter.out)
                  + Replay.TickBytes(Replay.TickRecord(tick, cmds, Hash.HashOf(world.State())))
    {
      var simCmds := WireCmdsToSimCmds(cmds);
      Sim.StepKeepsPanicFree(world.State(), simCmds);
      world.Step(simCmds);
      if replayWriter != null {
        var hash := Hash.Hash(world.State());
        replayWriter.WriteTick(tick, cmds, hash, true);
      }
    }

    method Recipients() returns (rs: seq<nat>)
      ensures forall i :: i in rs <==> 0 <= i < |players| && Receives(players[i])
      ensures Ascending(rs)
    {
      rs := [];
      for i := 0 to |players|
        invariant forall k :: k in rs <==> 0 <= k < i && Receives(players[k])
        invariant Ascending(rs)
      {
        if players[i].Taken? && players[i].joined && players[i].connected {
          assert forall j :: 0 <= j < |rs| ==> rs[j] in rs;
          rs := rs + [i];
        }
      }
    }

    method FrameHistory(fromTick: uint32) returns (frames: seq<FrameBundle>)
      ensures frames == FramesAfter(frameHistory, fromTick)
    {
      frames := [];
      for i := 0 to |frameHistory|
        invariant frames == FramesAfter(frameHistory[..i], fromTick)
      {
        assert frameHistory[..i + 1][..i] == frameHistory[..i];
        if frameHistory[i].tick > fromTick {
          frames := frames + [frameHistory[i]];
        }
      }
      assert frameHistory[..|frameHistory|] == frameHistory;
    }

    method HandleDisconnect(playerID: uint8, now: int)
      modifies this`players, this`limbo
      ensures var i := PlayerIndex(old(players), playerID);
              if i == |old(players)| then players == old(players) && limbo == old(limbo)
              else && players == old(players)[i := Taken(playerID, false, false)]
                   && limbo == old(limbo) + [LimboSlot(playerID, now)]
    {
      var i := FindPlayer(playerID);
      if i < |players| {
        players := players[i := players[i].(connected := false, joined := false)];
        limbo := limbo + [LimboSlot(playerID, now)];
      }
    }

    /** The first slot taken by a player, or the length. */
    static function PlayerIndex(ps: seq<Player>, playerID: uint8): (i: nat)
      ensures i <= |ps|
      ensures i < |ps| ==> ps[i].Taken? && ps[i].playerID == playerID
      ensures forall j :: 0 <= j < i ==> !(ps[j].Taken? && ps[j].playerID == playerID)
    {
      if ps == [] || (ps[0].Taken? && ps[0].playerID == playerID) then 0 else 1 + PlayerIndex(ps[1..], playerID)
    }

    method FindPlayer(playerID: uint8) returns (i: nat)
      ensures i == PlayerIndex(players, playerID)
    {
      i := 0;
      while i < |players| && !(players[i].Taken? && players[i].playerID == playerID)
        invariant i <= |players|
        invariant PlayerIndex(players, playerID) == i + PlayerIndex(players[i..], playerID)
      {
        assert players[i..][1..] == players[i + 1..];
        i := i + 1;
      }
    }

    method FindLimbo(playerID: uint8) returns (i: nat)
      ensures i == LimboIndex(limbo, playerID)
    {
      i := 0;
      while i < |limbo| && limbo[i].playerID != playerID
        invariant i <= |limbo|
        invariant LimboIndex(limbo, playerID) == i + LimboIndex(limbo[i..], playerID)
      {
        assert limbo[i..][1..] == limbo[i + 1..];
        i := i + 1;
      }
    }

    method BuildResync(lastExecuted: uint32) returns (rs: Resync)
      ensures rs == ResyncOf(State(), lastExecuted)
    {
      var behind := Sub32(tick, lastExecuted);
      if behind > MAX_INCREMENTAL || behind < 0 {
        var snap := Snapshot.Marshal(world.State());
        return Resync(true, snap, []);
      }
      var frames := FrameHistory(lastExecuted);
      return Resync(false, [], frames);
    }

    /** The player is matched by the low byte of the connection ID; without a limbo slot the resume is rejected. */
    method HandleResume(connID: uint16, lastExecuted: uint32) returns (r: Result<Resync>)
      requires Valid()
      modifies this`players, this`limbo
      ensures Valid() && State() == old(State())
      ensures var i := LimboIndex(old(limbo), connID % 256);
              if i == |old(limbo)| then r.Err? && players == old(players) && limbo == old(limbo)
              else && r == Ok(ResyncOf(old(State()), lastExecuted))
                   && limbo == old(limbo)[..i] + old(limbo)[i + 1..]
                   && players == Reconnected(old(players), old(limbo)[i].playerID)
    {
      hide Sim.NeverPanics, FramesAfter, ResyncOf, PlayerIndex, LimboIndex;
      var i := FindLimbo(connID % 256);
      if i == |limbo| {
        return Err("no limbo slot");
      }
      var playerID := limbo[i].playerID;
      limbo := limbo[..i] + limbo[i + 1..];
      var j := FindPlayer(playerID);
      if j < |players| {
        players := players[j := players[j].(connected := true, joined := true)];
      }
      var rs := BuildResync(lastExecuted);
      return Ok(rs);
    }

    static function Reconnected(ps: seq<Player>, playerID: uint8): seq<Player> {
      var j := PlayerIndex(ps, playerID);
      if j == |ps| then ps else ps[j := Taken(playerID, true, true)]
    }
  }

  /** Joining and resuming make a player one of those frames are sent to, disconnecting makes it none of them, and none
      of these touches another player's slot. */
  lemma WhoReceives(ps: seq<Player>, id: uint8, i: nat)
    requires i < |ps|
    ensures Receives(ps[i]) <==> ps[i].Taken? && ps[i] == Taken(ps[i].playerID, true, true)
    ensures Receives(ps[i := Taken(id, true, true)][i]) && !Receives(ps[i := Taken(id, false, false)][i])
    ensures Room.PlayerIndex(ps, id) < |ps| ==>
              var j := Room.PlayerIndex(ps, id);
              && Receives(Room.Reconnected(ps, id)[j]) && Room.Reconnected(ps, id)[j].playerID == id
              && forall k :: 0 <= k < |ps| && k != j ==> Room.Reconnected(ps, id)[k] == ps[k]
    ensures Room.PlayerIndex(ps, id) == |ps| ==> Room.Reconnected(ps, id) == ps
  {
  }
}
