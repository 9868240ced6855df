/** The mutable world of the simulation: every method changes it in place as the source does. */
module SimWorld {
  import opened Words
  import opened Fixed
  import opened Vectors
  import opened Sim

  class World {
    var tick: uint32
    var seed: uint64
    var rand: uint64
    var units: seq<Unit>
    var nextID: uint32
    var mapSizeX: Fix32
    var mapSizeY: Fix32

    function State(): WorldState
      reads this
    {
      WorldState(tick, seed, rand, units, nextID, mapSizeX, mapSizeY)
    }

    constructor (seed: uint64, mapW: int32, mapH: int32)
      ensures State() == NewWorldState(seed, mapW, mapH)
    {
      tick, this.seed, rand, units, nextID := 0, seed, seed, [], 1;
      mapSizeX, mapSizeY := FromInt(mapW), FromInt(mapH);
    }

    constructor FromState(w: WorldState)
      ensures State() == w
    {
      tick, seed, rand, units, nextID := w.tick, w.seed, w.rand, w.units, w.nextID;
      mapSizeX, mapSizeY := w.mapX, w.mapY;
    }

    method SpawnUnit(owner: uint8, pos: Vec2, hp: Fix32, speed: Fix32) returns (id: uint32)
      modifies this
      ensures id == old(nextID)
      ensures State() == Spawned(old(State()), owner, pos, hp, speed)
    {
      id := nextID;
      nextID := Inc32(nextID);
      units := units + [Unit(id, owner, pos, hp, hp, speed, IDLE, 0, Vec2(0, 0))];
    }

    /** The source returns a pointer into the slice, or nil: here the index, or the length. */
    method FindUnit(id: uint32) returns (i: nat)
      ensures i == Find(units, id)
    {
      i := 0;
      while i < |units|
        invariant i <= |units|
        invariant Find(units, id) == i + Find(units[i..], id)
      {
        if units[i].id == id {
          return;
        }
        assert units[i..][1..] == units[i + 1..];
        i := i + 1;
      }
    }

    method ApplyCommands(cs: seq<Cmd>)
      modifies this`units
      ensures units == ApplyCmds(old(units), cs)
    {
      for i := 0 to |cs|
        invariant ApplyCmds(units, cs[i..]) == ApplyCmds(old(units), cs)
      {
        assert cs[i..][0] == cs[i] && cs[i..][1..] == cs[i + 1..];
        var cmd := cs[i];
        ghost var next := ApplyCmd(units, cmd);
        var j := FindUnit(cmd.unitID);
        if j == |units| || units[j].state == DEAD {
          assert next == units;
          continue;
        }
        var u := units[j];
        if u.owner != cmd.player {
          assert next == units;
          continue;
        }
        if cmd.op == MOVE {
          units := units[j := u.(state := MOVING, moveTo := cmd.targetPos, targetID := 0)];
        } else if cmd.op == ATTACK {
          units := units[j := u.(state := IDLE, targetID := cmd.targetID)];
        } else if cmd.op == STOP {
          units := units[j := u.(state := IDLE, targetID := 0)];
        }
        assert next == units;
      }
    }

    /** Insertion sort. */
    method SortUnitsByID()
      modifies this`units
      ensures units == SortByID(old(units))
    {
      ghost var was := units;
      var n := |units|;
      if n == 0 {
        return;
      }
      SortNext(was, 0);
      assert was[..1] == [was[0]] && was[..0] == [];
      for i := 1 to n
        invariant |units| == n
        invariant units[..i] == SortByID(was[..i])
        invariant units[i..] == was[i..]
      {
        assert units[i] == units[i..][0] == was[i];
        SortNext(was, i);
        ShiftIn(i);
        assert units[i + 1..] == was[i..][1..] == was[i + 1..];
      }
      assert units == units[..n] && was == was[..n];
    }

    static lemma SortNext(us: seq<Unit>, i: nat)
      requires i < |us|
      ensures SortByID(us[..i + 1]) == Place(SortByID(us[..i]), us[i])
    {
      assert us[..i + 1][..i] == us[..i];
    }

    /** The inner loop: shift the larger units one place to the right and drop unit i into the gap. */
    method ShiftIn(i: nat)
      requires 1 <= i < |units|
      modifies this`units
      ensures |units| == old(|units|)
      ensures units[..i + 1] == Place(old(units[..i]), old(units[i]))
      ensures units[i + 1..] == old(units[i + 1..])
    {
      ghost var sorted := units[..i];
      var key := units[i];
      var j := i - 1;
      assert sorted[..i] == sorted && sorted[i..] == [];
      while j >= 0 && units[j].id > key.id
        invariant -1 <= j < i < |units| == old(|units|)
        invariant forall k :: 0 <= k <= j ==> units[k] == sorted[k]
        invariant forall k :: j + 2 <= k <= i ==> units[k] == sorted[k - 1]
        invariant units[i + 1..] == old(units[i + 1..])
        invariant Place(sorted, key) == Place(sorted[..j + 1], key) + sorted[j + 1..]
      {
        PlaceBefore(sorted, j, key);
        units := units[j + 1 := units[j]];
        j := j - 1;
      }
      units := units[j + 1 := key];
      PlaceHere(sorted, j, key);
      Assemble(units[..i + 1], sorted, j + 1, key);
    }

    static lemma PlaceBefore(s: seq<Unit>, j: nat, key: Unit)
      requires j < |s| && s[j].id > key.id
      ensures Place(s[..j + 1], key) + s[j + 1..] == Place(s[..j], key) + s[j..]
    {
      assert s[..j + 1][..j] == s[..j];
      assert [s[j]] + s[j + 1..] == s[j..];
    }

    static lemma Assemble(r: seq<Unit>, s: seq<Unit>, j: nat, key: Unit)
      requires j <= |s| && |r| == |s| + 1 && r[j] == key
      requires forall k :: 0 <= k < j ==> r[k] == s[k]
      requires forall k :: j < k <= |s| ==> r[k] == s[k - 1]
      ensures r == s[..j] + [key] + s[j..]
    {
    }

    static lemma PlaceHere(s: seq<Unit>, j: int, key: Unit)
      requires -1 <= j < |s| && (j >= 0 ==> s[j].id <= key.id)
      ensures Place(s[..j + 1], key) == s[..j + 1] + [key]
    {
    }

    method StepMove(i: nat)
      requires i < |units| && !Panics(units[i].pos, units[i].moveTo, units[i].speed)
      modifies this`units
      ensures units == old(units)[i := Moved(old(units)[i], mapSizeX, mapSizeY)]
    {
      var u := units[i];
      var newPos := MoveToward(u.pos, u.moveTo, u.speed);
      newPos := Vec2(Clamp(newPos.x, 0, mapSizeX), Clamp(newPos.y, 0, mapSizeY));
      u := u.(pos := newPos);
      if DistSq(u.pos, u.moveTo) <= EPS {
        u := u.(state := IDLE);
      }
      units := units[i := u];
    }

    method StepAttack(i: nat)
      requires i < |units| && units[i].state == IDLE && TurnSafe(units, i)
      modifies this`units
      ensures units == Attacked(old(units), i)
    {
      var u := units[i];
      if u.targetID == 0 {
        return;
      }
      var j := FindUnit(u.targetID);
      if j == |units| || units[j].state == DEAD {
        units := units[i := u.(targetID := 0)];
        return;
      }
      if DistSq(u.pos, units[j].pos) <= Mul(FromInt(2), FromInt(2)) {
        units := units[j := units[j].(hp := Sub(units[j].hp, DAMAGE))];
        if units[j].hp <= 0 {
          units := units[j := units[j].(state := DEAD)];
          units := units[j := units[j].(hp := 0)];
        }
      } else {
        var p := MoveToward(u.pos, units[j].pos, u.speed);
        units := units[i := u.(pos := p)];
      }
    }

    method RemoveDead()
      modifies this`units
      ensures units == Alive(old(units))
    {
      var alive: seq<Unit> := [];
      for i := 0 to |units|
        invariant alive == Alive(units[..i])
      {
        assert units[..i + 1][..i] == units[..i];
        if units[i].state != DEAD {
          alive := alive + [units[i]];
        }
      }
      assert units[..|units|] == units;
      units := alive;
    }

    method Step(cs: seq<Cmd>)
      requires StepSafe(State(), cs)
      modifies this`tick, this`units
      ensures State() == Sim.Step(old(State()), cs)
    {
      ghost var next := Sim.Step(State(), cs);
      tick := Inc32(tick);
      assert tick == next.tick;
      StepSafeExact(State(), cs);
      hide StepUnits, SortByID, ApplyCmds, Alive, NeverPanics, TurnsSafe;
      ApplyCommands(cs);
      SortUnitsByID();
      UpdateUnits();
      RemoveDead();
      assert units == next.units;
    }

    /** Phase 2 of a step: a unit killed earlier in the same tick is skipped. */
    method UpdateUnits()
      requires TurnsSafe(units, 0, mapSizeX, mapSizeY)
      modifies this`units
      ensures units == StepUnits(old(units), 0, mapSizeX, mapSizeY)
    {
      for i := 0 to |units|
        invariant |units| == |old(units)| && TurnsSafe(units, i, mapSizeX, mapSizeY)
        invariant StepUnits(units, i, mapSizeX, mapSizeY) == StepUnits(old(units), 0, mapSizeX, mapSizeY)
      {
        ghost var next := StepUnit(units, i, mapSizeX, mapSizeY);
        if units[i].state == DEAD {
          continue;
        }
        if units[i].state == MOVING {
          StepMove(i);
        } else if units[i].state == IDLE {
          StepAttack(i);
        }
        assert units == next;
      }
    }
  }
}
