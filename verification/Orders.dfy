/** What commands do to units, from the wire to the world: the codes and fields are spelled out. */
module Orders {
  import opened Words
  import opened Fixed
  import opened Vectors
  import opened Sim
  import opened SimInvariants
  import opened Movement
  import Wire

  /** The command of a unit's owner for it, with an operation that the source knows: 1 moves, 2 attacks, 3 stops. */
  predicate Effective(c: Cmd, u: Unit) {
    c.unitID == u.id && c.player == u.owner && (c.op == 1 || c.op == 2 || c.op == 3)
  }

  predicate EffectiveMove(c: Cmd, u: Unit) {
    c.unitID == u.id && c.player == u.owner && c.op == 1
  }

  /** Command j is the last one of the list that is effective for the unit. */
  predicate IsLast(cs: seq<Cmd>, u: Unit, j: nat) {
    j < |cs| && Effective(cs[j], u) && forall i :: j < i < |cs| ==> !Effective(cs[i], u)
  }

  predicate IsLastMove(cs: seq<Cmd>, u: Unit, j: nat) {
    j < |cs| && EffectiveMove(cs[j], u) && forall i :: j < i < |cs| ==> !EffectiveMove(cs[i], u)
  }

  /** The unit u after the commands is v: it does what its last effective command says, goes where its last move says,
      and is otherwise the same. */
  predicate Ordered(cs: seq<Cmd>, u: Unit, v: Unit) {
    && v == u.(state := v.state, targetID := v.targetID, moveTo := v.moveTo)
    && (forall j :: 0 <= j < |cs| && IsLast(cs, u, j) ==>
          && v.state == (if cs[j].op == 1 then 1 else 0)
          && v.targetID == (if cs[j].op == 2 then cs[j].targetID else 0))
    && ((forall j :: 0 <= j < |cs| ==> !Effective(cs[j], u)) ==> v.state == u.state && v.targetID == u.targetID)
    && (forall j :: 0 <= j < |cs| && IsLastMove(cs, u, j) ==> v.moveTo == cs[j].targetPos)
    && ((forall j :: 0 <= j < |cs| ==> !EffectiveMove(cs[j], u)) ==> v.moveTo == u.moveTo)
  }

  lemma {:induction false} ApplyAppend(us: seq<Unit>, cs: seq<Cmd>, c: Cmd)
    ensures ApplyCmds(us, cs + [c]) == ApplyCmd(ApplyCmds(us, cs), c)
    decreases |cs|
  {
    if cs == [] {
      assert [c][1..] == [] && cs + [c] == [c];
    } else {
      assert (cs + [c])[0] == cs[0] && (cs + [c])[1..] == cs[1..] + [c];
      ApplyAppend(ApplyCmd(us, cs[0]), cs[1..], c);
    }
  }

  /** What one command does to a living unit. */
  lemma OneCommand(us: seq<Unit>, c: Cmd, k: nat)
    requires k < |us| && us[k].state != 2 && Find(us, us[k].id) == k
    ensures var u, v := us[k], ApplyCmd(us, c)[k];
            && (!Effective(c, u) ==> v == u)
            && (Effective(c, u) && c.op == 1 ==> v == u.(state := 1, moveTo := c.targetPos, targetID := 0))
            && (Effective(c, u) && c.op == 2 ==> v == u.(state := 0, targetID := c.targetID))
            && (Effective(c, u) && c.op == 3 ==> v == u.(state := 0, targetID := 0))
  {
  }

  lemma LastNext(cs: seq<Cmd>, c: Cmd, u: Unit, j: nat)
    requires j <= |cs|
    ensures IsLast(cs + [c], u, j) <==> if Effective(c, u) then j == |cs| else IsLast(cs, u, j)
    ensures IsLastMove(cs + [c], u, j) <==> if EffectiveMove(c, u) then j == |cs| else IsLastMove(cs, u, j)
  {
    var all := cs + [c];
    assert all[|cs|] == c && forall i :: 0 <= i < |cs| ==> all[i] == cs[i];
  }

  lemma OrderedNext(cs: seq<Cmd>, c: Cmd, u: Unit, v: Unit, x: Unit)
    requires Ordered(cs, u, v)
    requires !Effective(c, u) ==> x == v
    requires Effective(c, u) && c.op == 1 ==> x == v.(state := 1, moveTo := c.targetPos, targetID := 0)
    requires Effective(c, u) && c.op == 2 ==> x == v.(state := 0, targetID := c.targetID)
    requires Effective(c, u) && c.op == 3 ==> x == v.(state := 0, targetID := 0)
    ensures Ordered(cs + [c], u, x)
  {
    var all := cs + [c];
    assert all[|cs|] == c && forall i :: 0 <= i < |cs| ==> all[i] == cs[i];
    forall j | 0 <= j < |all|
      ensures IsLast(all, u, j) <==> if Effective(c, u) then j == |cs| else IsLast(cs, u, j)
      ensures IsLastMove(all, u, j) <==> if EffectiveMove(c, u) then j == |cs| else IsLastMove(cs, u, j)
    {
      LastNext(cs, c, u, j);
    }
    hide IsLast, IsLastMove;
  }

  lemma OneMoreOrder(us: seq<Unit>, cs: seq<Cmd>, c: Cmd, u: Unit, k: nat)
    requires k < |us| && us[k].state != 2 && Find(us, us[k].id) == k && Ordered(cs, u, us[k])
    ensures Ordered(cs + [c], u, ApplyCmd(us, c)[k]) && ApplyCmd(us, c)[k].state != 2
  {
    hide ApplyCmd, Find;
    assert Effective(c, us[k]) <==> Effective(c, u);
    hide Ordered;
    OneCommand(us, c, k);
    OrderedNext(cs, c, u, us[k], ApplyCmd(us, c)[k]);
  }

  /** Commands do to a living unit exactly what its last effective one says. */
  lemma {:induction false} LastOrderCounts(us: seq<Unit>, cs: seq<Cmd>, k: nat)
    requires k < |us| && us[k].state != 2 && Find(us, us[k].id) == k
    ensures Ordered(cs, us[k], ApplyCmds(us, cs)[k]) && ApplyCmds(us, cs)[k].state != 2
    decreases |cs|
  {
    if cs != [] {
      hide ApplyCmds, ApplyCmd, Find, Ordered;
      var before, c := cs[..|cs| - 1], cs[|cs| - 1];
      assert cs == before + [c];
      LastOrderCounts(us, before, k);
      ApplyKeepsUnits(us, before);
      SameIDsSameFind(us, ApplyCmds(us, before), us[k].id);
      ApplyAppend(us, before, c);
      OneMoreOrder(ApplyCmds(us, before), before, c, us[k], k);
    }
  }

  lemma DeadObeyNothing(us: seq<Unit>, c: Cmd, k: nat)
    requires k < |us| && us[k].state == 2
    ensures ApplyCmd(us, c)[k] == us[k]
  {
  }

  // ----- from a sealed frame -----

  /** A turn changes no unit's destination. */
  lemma TurnKeepsGoals(us: seq<Unit>, i: nat, mapX: Fix32, mapY: Fix32)
    requires i < |us| && TurnSafe(us, i)
    ensures forall k :: 0 <= k < |us| ==> StepUnit(us, i, mapX, mapY)[k].moveTo == us[k].moveTo
  {
  }

  lemma {:induction false} TurnsKeepGoals(us: seq<Unit>, i: nat, mapX: Fix32, mapY: Fix32)
    requires i <= |us| && CanStep(us, i, mapX, mapY)
    ensures forall k :: 0 <= k < |us| ==> StepUnits(us, i, mapX, mapY)[k].moveTo == us[k].moveTo
    decreases |us| - i
  {
    if i < |us| {
      CanStepNext(us, i, mapX, mapY);
      TurnKeepsGoals(us, i, mapX, mapY);
      hide StepUnits, StepUnit, CanStep, TurnSafe;
      TurnsKeepGoals(StepUnit(us, i, mapX, mapY), i + 1, mapX, mapY);
    }
  }

  /** The converted command has the wire command's own fields. */
  lemma ConversionKeeps(cs: seq<Wire.Cmd>, k: nat)
    requires k < |cs|
    ensures |Wire.ToSimAll(cs)| == |cs|
    ensures var c := Wire.ToSimAll(cs)[k];
            && c.player == cs[k].player && c.op == cs[k].op && c.unitID == cs[k].unitID && c.targetID == cs[k].targetID
            && c.targetPos.x == cs[k].targetX && c.targetPos.y == cs[k].targetY
  {
  }

  predicate OwnMove(c: Wire.Cmd, u: Unit) {
    c.unitID == u.id && c.player == u.owner && c.op == 1
  }

  lemma FrameSetsGoal(us: seq<Unit>, cs: seq<Wire.Cmd>, k: nat, j: nat)
    requires k < |us| && us[k].state != 2 && Find(us, us[k].id) == k
    requires j < |cs| && OwnMove(cs[j], us[k]) && forall i :: j < i < |cs| ==> !OwnMove(cs[i], us[k])
    ensures var v := ApplyCmds(us, Wire.ToSimAll(cs))[k]; v.moveTo.x == cs[j].targetX && v.moveTo.y == cs[j].targetY
  {
    var orders := Wire.ToSimAll(cs);
    LastOrderCounts(us, orders, k);
    forall i | 0 <= i < |cs| ensures EffectiveMove(orders[i], us[k]) <==> OwnMove(cs[i], us[k]) {
      ConversionKeeps(cs, i);
    }
    ConversionKeeps(cs, j);
    hide ApplyCmds, Wire.ToSimAll;
    assert IsLastMove(orders, us[k], j);
  }

  /** A unit whose last move order in a frame is this one heads for its coordinates after the tick, or is dead and gone.
      */
  lemma FrameMovesUnit(w: WorldState, cs: seq<Wire.Cmd>, k: nat, j: nat)
    requires Sound(w) && StepSafe(w, Wire.ToSimAll(cs)) && k < |w.units|
    requires j < |cs| && OwnMove(cs[j], w.units[k]) && forall i :: j < i < |cs| ==> !OwnMove(cs[i], w.units[k])
    ensures var us := Step(w, Wire.ToSimAll(cs)).units;
            var i := Find(us, w.units[k].id);
            i < |us| ==> us[i].moveTo.x == cs[j].targetX && us[i].moveTo.y == cs[j].targetY
  {
    var orders := Wire.ToSimAll(cs);
    FindUnique(w.units, k);
    FrameSetsGoal(w.units, cs, k, j);
    var us := PhasesOfSound(w, orders);
    ApplyKeepsUnits(w.units, orders);
    hide ApplyCmds, Wire.ToSimAll, SortByID, StepSafe, StepUnits, OwnMove, AllHealthy;
    assert us[k].id == w.units[k].id;
    SurvivorOf(w, orders, us, k);
  }

  /** The unit of this ID after a tick is the one at the same place before the dead are removed. */
  lemma SurvivorOf(w: WorldState, cs: seq<Cmd>, us: seq<Unit>, k: nat)
    requires Sound(w) && StepSafe(w, cs) && k < |w.units| == |us| && StrictlyOrdered(us) && us[k].id == w.units[k].id
    requires CanStep(us, 0, w.mapX, w.mapY) && Step(w, cs).units == Alive(StepUnits(us, 0, w.mapX, w.mapY))
    ensures var r := Step(w, cs).units;
            var i := Find(r, us[k].id);
            && (i < |r| ==> r[i] == StepUnits(us, 0, w.mapX, w.mapY)[k])
            && (i == |r| <==> StepUnits(us, 0, w.mapX, w.mapY)[k].state == 2)
            && (i < |r| ==> r[i].moveTo == us[k].moveTo)
  {
    var vs := StepUnits(us, 0, w.mapX, w.mapY);
    StepUnitsKeep(us, 0, w.mapX, w.mapY);
    TurnsKeepGoals(us, 0, w.mapX, w.mapY);
    hide StepUnits, CanStep, StepSafe, Step;
    assert StrictlyOrdered(vs);
    FindUnique(vs, k);
    if vs[k].state == 2 {
      FindDead(vs, us[k].id);
    } else {
      FindSurvivor(vs, k);
    }
  }
}
