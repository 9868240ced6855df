/** The client's copy of the world. */
module FakeClient {
  import opened Words
  import opened Wire
  import opened SimWorld
  import Sim
  import Hash

  datatype Replica = Replica(world: Sim.WorldState, lastTick: uint32)

  /** What a frame makes the client execute: nothing for each tick it has missed, then the frame's commands. */
  function CatchUp(lastTick: uint32, fb: FrameBundle): (css: seq<seq<Sim.Cmd>>)
    ensures |css| == if lastTick < fb.tick then fb.tick - lastTick else 0
  {
    if lastTick < fb.tick then seq(fb.tick - lastTick - 1, _ => []) + [ToSimAll(fb.cmds)] else []
  }

  ghost function AfterFrame(r: Replica, fb: FrameBundle): (s: Replica)
    requires Sim.PanicFree(r.world.units)
    ensures Sim.PanicFree(s.world.units)
  {
    Replica(Sim.Play(r.world, CatchUp(r.lastTick, fb)), if r.lastTick < fb.tick then fb.tick else r.lastTick)
  }

  ghost function ReportOf(r: Replica, fb: FrameBundle): HashAck
    requires Sim.PanicFree(r.world.units)
  {
    HashAck(fb.tick, Hash.HashOf(AfterFrame(r, fb).world))
  }

  class Client {
    const world: World
    var lastTick: uint32

    constructor (world: World)
      ensures this.world == world && lastTick == 0
    {
      this.world, lastTick := world, 0;
    }

    function Value(): Replica
      reads this, world
    {
      Replica(world.State(), lastTick)
    }

    method OnFrame(fb: FrameBundle) returns (ack: HashAck)
      requires Sim.PanicFree(world.units)
      modifies this, world
      ensures Value() == AfterFrame(old(Value()), fb) && ack == ReportOf(old(Value()), fb)
    {
      ghost var r := Value();
      while lastTick < fb.tick
        invariant Sim.PanicFree(world.units)
        invariant AfterFrame(r, fb) == AfterFrame(Value(), fb)
        decreases fb.tick - lastTick
      {
        ghost var css := CatchUp(lastTick, fb);
        ghost var w := world.State();
        lastTick := lastTick + 1;
        assert css[1..] == CatchUp(lastTick, fb);
        var cmds: seq<Sim.Cmd> := [];
        if lastTick == fb.tick {
          cmds := WireCmdsToSimCmds(fb.cmds);
        }
        assert cmds == css[0];
        Sim.StepKeepsPanicFree(w, cmds);
        world.Step(cmds);
      }
      var hash := Hash.Hash(world.State());
      ack := HashAck(fb.tick, hash);
    }
  }
}
