/** A run in which a client misses a frame with a command, and is out of step from then on. */
module Divergence {
  import opened Words
  import opened Packets
  import opened Reorder
  import opened Acks
  import opened Endpoints
  import opened Wire
  import opened FakeClient
  import opened Rooms
  import opened RoomRuns
  import opened EndToEnd
  import opened Replication
  import P = Protocol
  import Sim
  import opened Fixed
  import Vectors
  import SimInvariants
  import opened Opening

  const HOME := Vectors.Vec2(0, 0)
  const GOAL := Vectors.Vec2(20 * 0x1_0000, 20 * 0x1_0000)
  const ORDER := Cmd(1, 0, Sim.MOVE, 1, 20 * 0x1_0000, 20 * 0x1_0000, 0)
  const FIRST := FrameBundle(1, 0, [ORDER])
  const SECOND := FrameBundle(2, 0, [])

  /** A match of two in which the player has not joined yet when the room starts to tick. */
  function Late(w0: Sim.WorldState): Setup {
    Setup(w0, 2, 0, false, 1, 256, 256)
  }

  // ----- units that attack nobody -----

  predicate PeacefulUnit(u: Sim.Unit) {
    u.targetID == 0 && (u.state == Sim.IDLE || u.state == Sim.MOVING)
  }

  ghost predicate Peaceful(us: seq<Sim.Unit>) {
    Sim.PanicFree(us) && Sim.SortedByID(us) && forall k :: 0 <= k < |us| ==> PeacefulUnit(us[k])
  }

  predicate SameGoals(us: seq<Sim.Unit>, vs: seq<Sim.Unit>) {
    |us| == |vs| && forall k :: 0 <= k < |us| ==> us[k].moveTo == vs[k].moveTo && us[k].id == vs[k].id
  }

  lemma PeacefulTurn(us: seq<Sim.Unit>, i: nat, mapX: Fix32, mapY: Fix32)
    requires Peaceful(us) && i < |us|
    ensures Sim.TurnSafe(us, i)
    ensures var vs := Sim.StepUnit(us, i, mapX, mapY); Peaceful(vs) && SameGoals(us, vs)
  {
    Sim.StepUnitKeeps(us, i, mapX, mapY);
  }

  lemma {:induction false} PeacefulTurns(us: seq<Sim.Unit>, i: nat, mapX: Fix32, mapY: Fix32)
    requires Peaceful(us) && i <= |us|
    ensures var vs := Sim.StepUnits(us, i, mapX, mapY); Peaceful(vs) && SameGoals(us, vs)
    decreases |us| - i
  {
    if i < |us| {
      PeacefulTurn(us, i, mapX, mapY);
      Sim.CanStepNext(us, i, mapX, mapY);
      hide Sim.StepUnits, Sim.StepUnit, Peaceful;
      PeacefulTurns(Sim.StepUnit(us, i, mapX, mapY), i + 1, mapX, mapY);
    }
  }

  lemma {:induction false} NobodyDies(us: seq<Sim.Unit>)
    requires forall k :: 0 <= k < |us| ==> us[k].state != Sim.DEAD
    ensures Sim.Alive(us) == us
  {
    if us != [] {
      NobodyDies(us[..|us| - 1]);
      assert us == us[..|us| - 1] + [us[|us| - 1]];
    }
  }

  /** A tick of such units changes none of their goals but by the commands. */
  lemma PeacefulTick(w: Sim.WorldState, cs: seq<Sim.Cmd>)
    requires Sim.PanicFree(w.units) && Peaceful(Sim.ApplyCmds(w.units, cs))
    ensures Peaceful(Sim.Step(w, cs).units) && SameGoals(Sim.ApplyCmds(w.units, cs), Sim.Step(w, cs).units)
  {
    hide Sim.NeverPanics, Sim.StepUnits, Sim.ApplyCmds, Sim.SortByID, Sim.TurnsSafe, Sim.Alive;
    var us := Sim.ApplyCmds(w.units, cs);
    Sim.SortIdentity(us);
    var vs := Sim.StepUnits(us, 0, w.mapX, w.mapY);
    PeacefulTurns(us, 0, w.mapX, w.mapY);
    NobodyDies(vs);
  }

  /** A world in which the order is obeyed: its first unit is unit 1 of player 0, and has no goal. */
  ghost predicate Camp(w: Sim.WorldState) {
    Peaceful(w.units) && |w.units| > 0 && w.units[0].id == 1 && w.units[0].owner == 0 && w.units[0].moveTo == HOME
  }

  lemma OrderObeyed(w: Sim.WorldState)
    requires Camp(w)
    ensures var us := Sim.ApplyCmds(w.units, [ToSim(ORDER)]); Peaceful(us) && |us| > 0 && us[0].moveTo == GOAL
  {
    var c := ToSim(ORDER);
    assert [c][1..] == [] && Sim.ApplyCmds(w.units, [c]) == Sim.ApplyCmd(w.units, c);
    assert Sim.Find(w.units, 1) == 0;
  }

  lemma NoOrder(w: Sim.WorldState)
    ensures Sim.ApplyCmds(w.units, []) == w.units
  {
  }

  /** The first command list shows in the unit's goal after both ticks. */
  lemma WorldsDiffer(w: Sim.WorldState)
    requires Camp(w)
    ensures Sim.Play(w, [[ToSim(ORDER)], []]).units != Sim.Play(w, [[], []]).units
  {
    var c := [ToSim(ORDER)];
    TwoTicks(w, c, []);
    TwoTicks(w, [], []);
    OrderObeyed(w);
    PeacefulTick(w, c);
    NoOrder(w);
    PeacefulTick(w, []);
    NoOrder(Sim.Step(w, c));
    PeacefulTick(Sim.Step(w, c), []);
    NoOrder(Sim.Step(w, []));
    PeacefulTick(Sim.Step(w, []), []);
  }

  lemma TwoTicks(w: Sim.WorldState, c: seq<Sim.Cmd>, d: seq<Sim.Cmd>)
    requires Sim.PanicFree(w.units)
    ensures Sim.PanicFree(Sim.Step(w, c).units) && Sim.Play(w, [c, d]) == Sim.Step(Sim.Step(w, c), d)
  {
    Sim.StepKeepsPanicFree(w, c);
    assert [c, d][1..] == [d];
    OneTick(Sim.Step(w, c), [d]);
  }

  lemma Next(w0: Sim.WorldState, acts: seq<Action>, act: Action) returns (more: seq<Action>)
    requires Ready(Late(w0))
    ensures more == acts + [act] && Final(Late(w0), more) == Done(Final(Late(w0), acts), act)
  {
    more := acts + [act];
    assert more[..|more| - 1] == acts;
  }

  /** The order arrives and is sealed into a frame that is not sent; the player joins; the next frame is sent. */
  lemma LateFrame(w0: Sim.WorldState) returns (acts: seq<Action>)
    requires Ready(Late(w0))
    ensures var g := Final(Late(w0), acts);
            && g.run.frames == [FIRST, SECOND] && g.client == Copy(Replica(w0, 0), [], {}, {})
            && g.net == P.Moved(P.NewSys(1, 256, 256), P.Move(false, P.Send(Wire.EncodeOf(FrameMsg(SECOND)), Sent, 0)))
  {
    hide Sim.NeverPanics, Sim.Step, Wire.EncodeOf;
    acts := [];
    acts := Next(w0, acts, Order(ORDER));
    var g1 := Final(Late(w0), acts);
    assert [] + [ORDER] == [ORDER] && g1.run.room.buckets == map[1 := [ORDER]];
    acts := Next(w0, acts, EndToEnd.Seal(0, Sent, 0));
    var g2 := Final(Late(w0), acts);
    assert g2.run.frames == [FIRST] && g2.run.room.buckets == map[] && g2.run.room.tick == 1;
    acts := Next(w0, acts, Connect(true));
    acts := Next(w0, acts, EndToEnd.Seal(0, Sent, 0));
    assert NextFrame(g2.run.room, 0) == SECOND;
  }

  /** Its arrival at a fresh connection fills the inbox with it. */
  lemma Arrival(d: Bytes) returns (p: Packet)
    requires 0 < |d| && P.Arriving(d) == d
    ensures var s := P.Moved(P.NewSys(1, 256, 256), P.Move(false, P.Send(d, Sent, 0)));
            var r := P.Moved(s, P.Move(true, P.Receive(p, 0)));
            r.b.ep.inbox == [d] && !r.b.h.overflowed
  {
    p := P.OnWire(DataPacket(NewEndpoint(1, 256), d));
    P.DataFlags();
    FlagBits();
    var s := P.Moved(P.NewSys(1, 256, 256), P.Move(false, P.Send(d, Sent, 0)));
    assert p in s.ab && CarriesData(p) && p.seqNo == 1 && p.payload == d;
    FirstArrival(p);
    assert [] + [d] == [d];
  }

  lemma FirstArrival(p: Packet)
    requires p.seqNo == 1 && CarriesData(p)
    ensures Inserted(Buffer(1, map[]), MAX_BUFFERED, p.seqNo, p.payload).1 == [p.payload]
  {
  }

  lemma LateFrameArrives(w0: Sim.WorldState) returns (acts: seq<Action>)
    requires Ready(Late(w0))
    ensures var g := Final(Late(w0), acts);
            && g.run.frames == [FIRST, SECOND] && g.client == Copy(Replica(w0, 0), [], {}, {})
            && g.net.b.ep.inbox == [Wire.EncodeOf(FrameMsg(SECOND))] && !g.net.b.h.overflowed
  {
    acts := LateFrame(w0);
    var d := Wire.EncodeOf(FrameMsg(SECOND));
    FrameArrives(SECOND);
    var p := Arrival(d);
    hide P.Moved, Wire.EncodeOf, P.NewSys;
    acts := Next(w0, acts, Net(P.Move(true, P.Receive(p, 0))));
  }

  lemma TakingKeepsOverflow(g: Game, outcome: Outcome, now: int)
    requires Playing(g)
    ensures ClientTook(g, outcome, now).net.b.h.overflowed == g.net.b.h.overflowed
  {
    hide Sim.NeverPanics, Wire.DecodeOf, Wire.EncodeOf, AfterSend;
  }

  lemma SecondOrders()
    ensures CatchUp(0, SECOND) == [[], []] && Orders([FIRST, SECOND])[..2] == [[ToSim(ORDER)], []]
  {
    assert ToSimAll([]) == [] && ToSimAll([ORDER]) == [ToSim(ORDER)];
  }

  lemma Caught(w0: Sim.WorldState, g: Game, h: Game)
    requires Camp(w0) && Playing(g)
    requires g.run.frames == [FIRST, SECOND] && g.client == Copy(Replica(w0, 0), [], {}, {})
    requires g.net.b.ep.inbox == [Wire.EncodeOf(FrameMsg(SECOND))] && h == ClientTook(g, Sent, 0)
    ensures h.run.frames == [FIRST, SECOND] && h.client.replica.lastTick == 2
    ensures h.net.b.h.overflowed == g.net.b.h.overflowed
    ensures h.client.replica.world.units != WorldAt(w0, h.run.frames, 2).units
  {
    FrameArrives(SECOND);
    TakingKeepsOverflow(g, Sent, 0);
    SecondOrders();
    WorldsDiffer(w0);
    hide P.Moved, Wire.EncodeOf, Orders, CatchUp, Sim.Play, Wire.DecodeOf;
  }

  // ----- the opening that the source spawns -----

  predicate AtRest(u: Sim.Unit) {
    u.state == Sim.IDLE && u.targetID == 0 && u.moveTo == HOME
  }

  lemma {:induction false} UnitsAtRest(w: Sim.WorldState, pid: nat, n: nat)
    requires forall k :: 0 <= k < |w.units| ==> AtRest(w.units[k])
    ensures var us := WithUnits(w, pid, n).units;
            && |us| >= |w.units| && us[..|w.units|] == w.units
            && forall k :: 0 <= k < |us| ==> AtRest(us[k])
  {
    if n > 0 {
      UnitsAtRest(w, pid, n - 1);
    }
  }

  lemma OpeningIsCamp(seed: uint64, mapW: int32, mapH: int32)
    ensures Camp(OpeningOf(seed, mapW, mapH, 2))
  {
    var w := Sim.NewWorldState(seed, mapW, mapH);
    var one := WithUnits(w, 0, 1);
    assert WithUnits(w, 0, 0) == w && one.units[0].id == 1 && one.units[0].owner == 0;
    FirstStays(w, 5);
    UnitsAtRest(w, 0, 5);
    UnitsAtRest(WithUnits(w, 0, 5), 1, 5);
    assert WithPlayers(w, 1, 5) == WithUnits(WithPlayers(w, 0, 5), 0, 5);
    assert WithPlayers(w, 2, 5) == WithUnits(WithPlayers(w, 1, 5), 1, 5);
    var us := OpeningOf(seed, mapW, mapH, 2).units;
    assert us[..5][0] == us[0];
    OpeningIsReady(seed, mapW, mapH, 2);
  }

  lemma {:induction false} FirstStays(w: Sim.WorldState, n: nat)
    requires n >= 1 && w.units == []
    ensures |WithUnits(w, 0, n).units| == n && WithUnits(w, 0, n).units[0] == WithUnits(w, 0, 1).units[0]
  {
    if n > 1 {
      FirstStays(w, n - 1);
    } else {
      assert WithUnits(w, 0, 0) == w;
    }
  }

  /** So "joined before the first tick, or missed only harmless frames" cannot be dropped: in every match of two, with
      the units that the source spawns, nothing is lost on the network, and a client that joins after the first tick
      executes the second frame on a world that lacks the first. */
  lemma LateJoinerDiverges(seed: uint64, mapW: int32, mapH: int32) returns (acts: seq<Action>)
    ensures Ready(Late(OpeningOf(seed, mapW, mapH, 2)))
    ensures var w0 := OpeningOf(seed, mapW, mapH, 2);
            var g := Final(Late(w0), acts);
            && g.client.replica.lastTick == 2 == |g.run.frames| && !g.net.b.h.overflowed
            && g.client.replica.world.units != WorldAt(w0, g.run.frames, 2).units
  {
    OpeningIsCamp(seed, mapW, mapH);
    hide OpeningOf, P.Moved, Wire.EncodeOf, Sim.NeverPanics;
    var w0 := OpeningOf(seed, mapW, mapH, 2);
    acts := LateFrameArrives(w0);
    var g := Final(Late(w0), acts);
    acts := Next(w0, acts, ClientDispatch(Sent, 0));
    hide Final;
    Caught(w0, g, Final(Late(w0), acts));
  }
}
