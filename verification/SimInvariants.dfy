/** What every run of the simulation keeps, and what its ticks do to health and to moving units. */
module SimInvariants {
  import opened Words
  import opened Fixed
  import opened Vectors
  import opened Sim

  // ----- command order -----

  /** The subsequence of commands addressed to one unit. */
  function CmdsFor(cs: seq<Cmd>, id: uint32): seq<Cmd> {
    if cs == [] then []
    else if cs[0].unitID == id then [cs[0]] + CmdsFor(cs[1..], id)
    else CmdsFor(cs[1..], id)
  }

  function ObeyAll(u: Unit, cs: seq<Cmd>): Unit
    decreases |cs|
  {
    if cs == [] then u else ObeyAll(Obey(u, cs[0]), cs[1..])
  }

  /** A unit's orders are its own commands in order, and nothing else; of two units with one ID only the first obeys. */
  lemma {:induction false} OrdersPerUnit(us: seq<Unit>, cs: seq<Cmd>, k: nat)
    requires k < |us|
    ensures ApplyCmds(us, cs)[k] ==
            if Find(us, us[k].id) == k then ObeyAll(us[k], CmdsFor(cs, us[k].id)) else us[k]
    decreases |cs|
  {
    if cs != [] {
      var vs := ApplyCmd(us, cs[0]);
      OrdersPerUnit(vs, cs[1..], k);
      OneOrder(us, cs[0], k);
    }
  }

  lemma OneOrder(us: seq<Unit>, c: Cmd, k: nat)
    requires k < |us|
    ensures var v := ApplyCmd(us, c)[k];
            && v.id == us[k].id && Find(ApplyCmd(us, c), v.id) == Find(us, v.id)
            && v == if c.unitID == us[k].id && Find(us, us[k].id) == k then Obey(us[k], c) else us[k]
  {
    var vs, j := ApplyCmd(us, c), Find(us, c.unitID);
    assert vs == if j == |us| then us else us[j := Obey(us[j], c)];
    SameIDsSameFind(us, vs, us[k].id);
  }

  lemma SameIDsSameFind(us: seq<Unit>, vs: seq<Unit>, id: uint32)
    requires |us| == |vs| && forall i :: 0 <= i < |us| ==> us[i].id == vs[i].id
    ensures Find(us, id) == Find(vs, id)
  {
    var i, j := Find(us, id), Find(vs, id);
    assert i < |us| ==> vs[i].id == id;
    assert j < |us| ==> us[j].id == id;
  }

  /** Two command lists that agree unit by unit give the same world, now and after any further run; and if one of them
      divides by zero, so does the other. */
  lemma CommandOrderIndependence(w: WorldState, cs: seq<Cmd>, ds: seq<Cmd>, rest: seq<seq<Cmd>>)
    requires forall id :: CmdsFor(cs, id) == CmdsFor(ds, id)
    ensures StepSafe(w, cs) <==> StepSafe(w, ds)
    ensures PlaySafe(w, [cs] + rest) <==> PlaySafe(w, [ds] + rest)
    ensures StepSafe(w, cs) ==> Step(w, cs) == Step(w, ds)
    ensures PlaySafe(w, [cs] + rest) ==> Play(w, [cs] + rest) == Play(w, [ds] + rest)
  {
    var a, b := ApplyCmds(w.units, cs), ApplyCmds(w.units, ds);
    forall k | 0 <= k < |a| ensures a[k] == b[k] {
      OrdersPerUnit(w.units, cs, k);
      OrdersPerUnit(w.units, ds, k);
    }
    assert a == b;
    assert ([cs] + rest)[1..] == rest && ([ds] + rest)[1..] == rest;
  }

  // ----- the invariant of stored units -----

  /** A unit inside a tick: dead with no health, or living with health in (0, MaxHP]. */
  predicate Healthy(u: Unit) {
    if u.state == DEAD then u.hp == 0
    else
      && (u.state == IDLE || u.state == MOVING)
      && 0 < u.hp <= u.maxHP
      && (u.state == MOVING ==> u.targetID == 0)
  }

  predicate AllHealthy(us: seq<Unit>) {
    forall k :: 0 <= k < |us| ==> Healthy(us[k])
  }

  predicate StrictlyOrdered(us: seq<Unit>) {
    forall i, j :: 0 <= i < j < |us| ==> us[i].id < us[j].id
  }

  /** Between ticks: IDs strictly increasing in 1..nextID-1, every unit healthy and not dead. */
  predicate Sound(w: WorldState) {
    && StrictlyOrdered(w.units)
    && AllHealthy(w.units)
    && 1 <= w.nextID
    && forall k :: 0 <= k < |w.units| ==> 1 <= w.units[k].id < w.nextID && w.units[k].state != DEAD
  }

  lemma {:induction false} CommandsKeepHealthy(us: seq<Unit>, cs: seq<Cmd>)
    requires AllHealthy(us)
    ensures AllHealthy(ApplyCmds(us, cs))
    ensures forall k :: 0 <= k < |us| && us[k].state != DEAD ==> ApplyCmds(us, cs)[k].state != DEAD
    decreases |cs|
  {
    if cs != [] {
      CommandsKeepHealthy(ApplyCmd(us, cs[0]), cs[1..]);
    }
  }

  lemma TurnKeepsHealthy(us: seq<Unit>, i: nat, mapX: Fix32, mapY: Fix32)
    requires i < |us| && TurnSafe(us, i) && AllHealthy(us)
    ensures AllHealthy(StepUnit(us, i, mapX, mapY))
  {
  }

  lemma {:induction false} UnitsKeepHealthy(us: seq<Unit>, i: nat, mapX: Fix32, mapY: Fix32)
    requires i <= |us| && CanStep(us, i, mapX, mapY) && AllHealthy(us)
    ensures AllHealthy(StepUnits(us, i, mapX, mapY))
    decreases |us| - i
  {
    if i < |us| {
      CanStepNext(us, i, mapX, mapY);
      TurnKeepsHealthy(us, i, mapX, mapY);
      hide StepUnits, StepUnit, CanStep, PanicFree, TurnSafe, AllHealthy;
      UnitsKeepHealthy(StepUnit(us, i, mapX, mapY), i + 1, mapX, mapY);
    }
  }

  /** Removal keeps the order of the survivors. */
  lemma {:induction false} AliveOrdered(us: seq<Unit>)
    requires StrictlyOrdered(us)
    ensures StrictlyOrdered(Alive(us))
  {
    AliveMembers(us);
    if us != [] {
      AliveOrdered(us[..|us| - 1]);
      AliveMembers(us[..|us| - 1]);
    }
  }

  /** On a sound world the sort of phase 2 is the identity. */
  lemma SortedOfSound(w: WorldState, cs: seq<Cmd>)
    requires Sound(w)
    ensures var us := ApplyCmds(w.units, cs);
            SortByID(us) == us && AllHealthy(us) && StrictlyOrdered(us)
  {
    ApplyKeepsUnits(w.units, cs);
    CommandsKeepHealthy(w.units, cs);
    SortIdentity(ApplyCmds(w.units, cs));
  }

  lemma PhasesOfSound(w: WorldState, cs: seq<Cmd>) returns (us: seq<Unit>)
    requires Sound(w) && StepSafe(w, cs)
    ensures us == ApplyCmds(w.units, cs) == SortByID(us)
    ensures CanStep(us, 0, w.mapX, w.mapY) && (PanicFree(w.units) ==> PanicFree(us))
    ensures AllHealthy(us) && StrictlyOrdered(us)
    ensures Step(w, cs).units == Alive(StepUnits(us, 0, w.mapX, w.mapY))
  {
    us := ApplyCmds(w.units, cs);
    SortedOfSound(w, cs);
    OrderedKeepsPanicFree(w.units, cs);
    hide PanicFree, TurnsSafe, StepUnits, Alive, ApplyCmds, SortByID, Sound;
    assert SortByID(us) == us;
  }

  /** The units of a sound world before the dead are removed. */
  lemma UpdatedOfSound(w: WorldState, cs: seq<Cmd>) returns (vs: seq<Unit>)
    requires Sound(w) && StepSafe(w, cs)
    ensures |vs| == |w.units| && AllHealthy(vs) && forall k :: 0 <= k < |vs| ==> SameUnit(w.units[k], vs[k])
    ensures Step(w, cs).units == Alive(vs)
  {
    var us := PhasesOfSound(w, cs);
    ApplyKeepsUnits(w.units, cs);
    vs := StepUnits(us, 0, w.mapX, w.mapY);
    StepUnitsKeep(us, 0, w.mapX, w.mapY);
    UnitsKeepHealthy(us, 0, w.mapX, w.mapY);
    forall k | 0 <= k < |vs| ensures SameUnit(w.units[k], vs[k]) {
      assert SameUnit(w.units[k], us[k]) && SameUnit(us[k], vs[k]);
    }
  }

  lemma StepKeepsSound(w: WorldState, cs: seq<Cmd>)
    requires Sound(w) && StepSafe(w, cs)
    ensures Sound(Step(w, cs))
  {
    var vs := UpdatedOfSound(w, cs);
    hide StepUnits, Play, NeverPanics, ApplyCmds, SortByID;
    assert StrictlyOrdered(vs);
    AliveOrdered(vs);
    AliveIsSound(w.units, vs, w.nextID);
  }

  lemma AliveIsSound(us: seq<Unit>, vs: seq<Unit>, nextID: uint32)
    requires |us| == |vs| && AllHealthy(vs)
    requires forall k :: 0 <= k < |us| ==> 1 <= us[k].id < nextID && SameUnit(us[k], vs[k])
    ensures forall k :: 0 <= k < |Alive(vs)| ==>
              Healthy(Alive(vs)[k]) && 1 <= Alive(vs)[k].id < nextID && Alive(vs)[k].state != DEAD
  {
    AliveMembers(vs);
    var r := Alive(vs);
    forall k | 0 <= k < |r|
      ensures Healthy(r[k]) && 1 <= r[k].id < nextID && r[k].state != DEAD
    {
      assert r[k] in r;
      var j :| 0 <= j < |vs| && vs[j] == r[k];
      assert SameUnit(us[j], vs[j]);
    }
  }

  // ----- the map -----

  predicate OnMap(p: Vec2, mapX: Fix32, mapY: Fix32) {
    0 <= p.x <= mapX && 0 <= p.y <= mapY
  }

  /** Every unit on the map with a speed in [0, 181). */
  predicate AllOnMap(us: seq<Unit>, mapX: Fix32, mapY: Fix32) {
    forall k :: 0 <= k < |us| ==> OnMap(us[k].pos, mapX, mapY) && SafeSpeed(us[k].speed)
  }

  lemma SafeIsPanicFree(s: Fix32)
    requires SafeSpeed(s)
    ensures NeverPanics(s)
  {
    forall from, target ensures !Panics(from, target, s) {
      SafeSpeedNeverPanics(from, target, s);
    }
  }

  lemma OnMapIsPanicFree(us: seq<Unit>, mapX: Fix32, mapY: Fix32)
    requires AllOnMap(us, mapX, mapY)
    ensures PanicFree(us)
  {
    forall k | 0 <= k < |us| ensures NeverPanics(us[k].speed) {
      SafeIsPanicFree(us[k].speed);
    }
  }

  /** Pursuit has no clamp; it stays on the map because it stays between the two units. */
  lemma UnitStaysOnMap(us: seq<Unit>, i: nat, mapX: Fix32, mapY: Fix32)
    requires i < |us| && 0 <= mapX && 0 <= mapY && AllOnMap(us, mapX, mapY) && TurnSafe(us, i)
    ensures AllOnMap(StepUnit(us, i, mapX, mapY), mapX, mapY)
  {
    var u := us[i];
    var j := Find(us, u.targetID);
    if u.state == IDLE && u.targetID != 0 && j < |us| {
      MoveStaysBetween(u.pos, us[j].pos, u.speed);
    }
  }

  lemma {:induction false} UnitsStayOnMap(us: seq<Unit>, i: nat, mapX: Fix32, mapY: Fix32)
    requires i <= |us| && 0 <= mapX && 0 <= mapY && AllOnMap(us, mapX, mapY) && CanStep(us, i, mapX, mapY)
    ensures AllOnMap(StepUnits(us, i, mapX, mapY), mapX, mapY)
    decreases |us| - i
  {
    if i < |us| {
      CanStepNext(us, i, mapX, mapY);
      UnitStaysOnMap(us, i, mapX, mapY);
      hide StepUnits, StepUnit, CanStep, PanicFree, TurnSafe;
      UnitsStayOnMap(StepUnit(us, i, mapX, mapY), i + 1, mapX, mapY);
    }
  }

  /** A tick never takes a unit off the map, whatever the commands: move targets may lie anywhere, even where
      differences wrap. */
  lemma StepStaysOnMap(w: WorldState, cs: seq<Cmd>)
    requires 0 <= w.mapX && 0 <= w.mapY && AllOnMap(w.units, w.mapX, w.mapY) && StepSafe(w, cs)
    ensures AllOnMap(Step(w, cs).units, w.mapX, w.mapY)
  {
    var us := SortByID(ApplyCmds(w.units, cs));
    OrderedStaysOnMap(w, cs);
    OrderedKeepsPanicFree(w.units, cs);
    UnitsStayOnMap(us, 0, w.mapX, w.mapY);
    var vs := StepUnits(us, 0, w.mapX, w.mapY);
    AliveMembers(vs);
    forall k | 0 <= k < |Alive(vs)| ensures OnMap(Alive(vs)[k].pos, w.mapX, w.mapY) && SafeSpeed(Alive(vs)[k].speed) {
      assert Alive(vs)[k] in vs;
    }
  }

  lemma OrderedStaysOnMap(w: WorldState, cs: seq<Cmd>)
    requires AllOnMap(w.units, w.mapX, w.mapY)
    ensures AllOnMap(SortByID(ApplyCmds(w.units, cs)), w.mapX, w.mapY)
  {
    var bs := ApplyCmds(w.units, cs);
    ApplyKeepsUnits(w.units, cs);
    SortPermutes(bs);
    var us := SortByID(bs);
    forall k | 0 <= k < |us| ensures OnMap(us[k].pos, w.mapX, w.mapY) && SafeSpeed(us[k].speed) {
      assert us[k] in multiset(us);
      assert us[k] in multiset(bs);
    }
  }

  // ----- every run -----

  datatype Event =
    | Spawn(owner: uint8, pos: Vec2, hp: Fix32, speed: Fix32)
    | Tick(cmds: seq<Cmd>)

  predicate SpawnsAlive(evs: seq<Event>) {
    forall k :: 0 <= k < |evs| && evs[k].Spawn? ==> evs[k].hp > 0
  }

  /** No tick of the run divides by zero. */
  ghost predicate RunSafe(w: WorldState, evs: seq<Event>)
    decreases |evs|, 0
  {
    evs != [] ==>
      var p, ev := evs[..|evs| - 1], evs[|evs| - 1];
      RunSafe(w, p) && (ev.Tick? ==> StepSafe(Run(w, p), ev.cmds))
  }

  ghost function Run(w: WorldState, evs: seq<Event>): (r: WorldState)
    requires RunSafe(w, evs)
    decreases |evs|, 1
  {
    if evs == [] then w
    else
      var v := Run(w, evs[..|evs| - 1]);
      match evs[|evs| - 1]
      case Spawn(owner, pos, hp, speed) => Spawned(v, owner, pos, hp, speed)
      case Tick(cs) => Step(v, cs)
  }

  lemma {:induction false} RunSafePrefix(w: WorldState, evs: seq<Event>, k: nat)
    requires RunSafe(w, evs) && k <= |evs|
    ensures RunSafe(w, evs[..k])
  {
    if k < |evs| {
      RunSafePrefix(w, evs[..|evs| - 1], k);
      assert evs[..|evs| - 1][..k] == evs[..k];
    } else {
      assert evs[..k] == evs;
    }
  }

  /** A run never divides by zero if no unit's speed, in the first world or of a spawn, can make a move do so. */
  lemma {:induction false} SafeSpeedsRun(w: WorldState, evs: seq<Event>)
    requires PanicFree(w.units) && forall k :: 0 <= k < |evs| && evs[k].Spawn? ==> NeverPanics(evs[k].speed)
    ensures RunSafe(w, evs) && PanicFree(Run(w, evs).units)
  {
    if evs != [] {
      var p, ev := evs[..|evs| - 1], evs[|evs| - 1];
      SafeSpeedsRun(w, p);
      if ev.Tick? {
        StepKeepsPanicFree(Run(w, p), ev.cmds);
      }
    }
  }

  /** Every world reached by spawns and ticks is sound, as long as the ID counter does not wrap. */
  lemma {:induction false} RunsAreSound(w: WorldState, evs: seq<Event>)
    requires RunSafe(w, evs) && SpawnsAlive(evs) && Sound(w)
    requires w.nextID + |evs| < TWO_TO_THE_32
    ensures Sound(Run(w, evs))
    ensures Run(w, evs).nextID <= w.nextID + |evs|
  {
    if evs != [] {
      var p := evs[..|evs| - 1];
      RunsAreSound(w, p);
      if evs[|evs| - 1].Tick? {
        StepKeepsSound(Run(w, p), evs[|evs| - 1].cmds);
      }
    }
  }

  /** The unit comes from a spawn of the run. */
  ghost predicate SpawnedIn(w: WorldState, evs: seq<Event>, u: Unit)
    requires RunSafe(w, evs)
  {
    exists k :: 0 <= k < |evs| && SpawnedAt(w, evs, k, u)
  }

  ghost predicate SpawnedAt(w: WorldState, evs: seq<Event>, k: nat, u: Unit)
    requires RunSafe(w, evs) && k < |evs|
  {
    RunSafePrefix(w, evs, k);
    && evs[k].Spawn? && u.id == Run(w, evs[..k]).nextID
    && u.owner == evs[k].owner && u.maxHP == evs[k].hp && u.speed == evs[k].speed
  }

  /** The unit was there before, with the same ID, owner, MaxHP and speed. */
  predicate IsFrom(us: seq<Unit>, u: Unit) {
    exists v :: v in us && SameUnit(v, u)
  }

  /** A tick makes no units, and survivors keep ID, owner, MaxHP and speed. */
  lemma SurvivorsKeep(w: WorldState, cs: seq<Cmd>)
    requires StepSafe(w, cs)
    ensures forall u :: u in Step(w, cs).units ==> IsFrom(w.units, u)
  {
    var xs := ApplyCmds(w.units, cs);
    var us := SortByID(xs);
    OrderedKeepsPanicFree(w.units, cs);
    ApplyKeepsUnits(w.units, cs);
    SortPermutes(xs);
    var vs := StepUnits(us, 0, w.mapX, w.mapY);
    StepUnitsKeep(us, 0, w.mapX, w.mapY);
    AliveMembers(vs);
    hide ApplyCmds, SortByID, StepUnits, CanStep, IsFrom;
    forall u | u in Step(w, cs).units ensures IsFrom(w.units, u) {
      SurvivorFrom(w.units, xs, us, vs, u);
    }
  }

  lemma SurvivorFrom(us: seq<Unit>, ordered: seq<Unit>, sorted: seq<Unit>, vs: seq<Unit>, u: Unit)
    requires |us| == |ordered| && forall k :: 0 <= k < |us| ==> SameUnit(us[k], ordered[k])
    requires multiset(sorted) == multiset(ordered)
    requires |sorted| == |vs| && forall k :: 0 <= k < |vs| ==> SameUnit(sorted[k], vs[k])
    requires u in vs
    ensures IsFrom(us, u)
  {
    var j :| 0 <= j < |vs| && vs[j] == u;
    assert sorted[j] in multiset(sorted);
    assert sorted[j] in ordered;
    var i :| 0 <= i < |ordered| && ordered[i] == sorted[j];
    assert SameUnit(us[i], u);
  }

  /** In every run each unit is one of the first world or of a spawn, unchanged in ID, owner, MaxHP and speed. */
  lemma {:induction false} RunsKeepUnits(w: WorldState, evs: seq<Event>)
    requires RunSafe(w, evs)
    ensures forall u :: u in Run(w, evs).units ==> IsFrom(w.units, u) || SpawnedIn(w, evs, u)
  {
    if evs == [] {
      assert forall u :: u in w.units ==> SameUnit(u, u);
    } else {
      var m := |evs| - 1;
      var p := evs[..m];
      RunsKeepUnits(w, p);
      forall u | u in Run(w, evs).units ensures IsFrom(w.units, u) || SpawnedIn(w, evs, u) {
        LastEventKeeps(w, evs, u);
      }
    }
  }

  lemma LastEventKeeps(w: WorldState, evs: seq<Event>, u: Unit)
    requires RunSafe(w, evs) && evs != [] && u in Run(w, evs).units
    requires forall v :: v in Run(w, evs[..|evs| - 1]).units ==> IsFrom(w.units, v) || SpawnedIn(w, evs[..|evs| - 1], v)
    ensures IsFrom(w.units, u) || SpawnedIn(w, evs, u)
  {
    var m := |evs| - 1;
    var before := Run(w, evs[..m]);
    if evs[m].Spawn? && u !in before.units {
      assert SpawnedAt(w, evs, m, u);
    } else if evs[m].Tick? {
      SurvivorsKeep(before, evs[m].cmds);
      var v :| v in before.units && SameUnit(v, u);
      FromEarlier(w, evs, v, u);
    } else {
      FromEarlier(w, evs, u, u);
    }
  }

  lemma FromEarlier(w: WorldState, evs: seq<Event>, v: Unit, u: Unit)
    requires RunSafe(w, evs) && evs != [] && SameUnit(v, u)
    requires IsFrom(w.units, v) || SpawnedIn(w, evs[..|evs| - 1], v)
    ensures IsFrom(w.units, u) || SpawnedIn(w, evs, u)
  {
    var p := evs[..|evs| - 1];
    if SpawnedIn(w, p, v) {
      var k :| 0 <= k < |p| && SpawnedAt(w, p, k, v);
      assert p[..k] == evs[..k];
      assert SpawnedAt(w, evs, k, u);
    } else {
      var x :| x in w.units && SameUnit(x, v);
      assert SameUnit(x, u);
    }
  }

  predicate SpawnsOnMap(evs: seq<Event>, mapX: Fix32, mapY: Fix32) {
    forall k :: 0 <= k < |evs| && evs[k].Spawn? ==>
      OnMap(evs[k].pos, mapX, mapY) && SafeSpeed(evs[k].speed)
  }

  /** Units never leave the map in any run, on a map of any non-negative size, and nothing ever divides by zero. */
  lemma {:induction false} RunsStayOnMap(w: WorldState, evs: seq<Event>)
    requires 0 <= w.mapX && 0 <= w.mapY && AllOnMap(w.units, w.mapX, w.mapY)
    requires SpawnsOnMap(evs, w.mapX, w.mapY)
    ensures RunSafe(w, evs)
    ensures var r := Run(w, evs);
            r.mapX == w.mapX && r.mapY == w.mapY && AllOnMap(r.units, w.mapX, w.mapY)
  {
    if evs != [] {
      var p := evs[..|evs| - 1];
      RunsStayOnMap(w, p);
      OnMapIsPanicFree(Run(w, p).units, w.mapX, w.mapY);
      if evs[|evs| - 1].Tick? {
        StepStaysOnMap(Run(w, p), evs[|evs| - 1].cmds);
      }
    }
  }

  // ----- health -----

  function TotalHP(us: seq<Unit>): int {
    if us == [] then 0 else TotalHP(us[..|us| - 1]) + us[|us| - 1].hp
  }

  /** The index of the unit that unit i hits on its turn, or the length. */
  function Victim(us: seq<Unit>, i: nat): nat
    requires i < |us|
  {
    var j := Find(us, us[i].targetID);
    if us[i].state == IDLE && us[i].targetID != 0 && j < |us| && us[j].state != DEAD
       && DistSq(us[i].pos, us[j].pos) <= 262144
    then j else |us|
  }

  function Min(a: int, b: int): int {
    if a < b then a else b
  }

  /** The damage of the turns from i on, each hit capped at the health its target has left. */
  ghost function DamageDealt(us: seq<Unit>, i: nat, mapX: Fix32, mapY: Fix32): int
    requires i <= |us| && CanStep(us, i, mapX, mapY)
    decreases |us| - i
  {
    if i == |us| then 0
    else
      CanStepNext(us, i, mapX, mapY);
      (if Victim(us, i) == |us| then 0 else Min(32768, us[Victim(us, i)].hp))
      + DamageDealt(StepUnit(us, i, mapX, mapY), i + 1, mapX, mapY)
  }

  lemma {:induction false} TotalAfterUpdate(us: seq<Unit>, j: nat, u: Unit)
    requires j < |us|
    ensures TotalHP(us[j := u]) == TotalHP(us) - us[j].hp + u.hp
  {
    var vs := us[j := u];
    var n := |us| - 1;
    if j == n {
      assert vs[..n] == us[..n];
    } else {
      assert vs[..n] == us[..n][j := u];
      TotalAfterUpdate(us[..n], j, u);
    }
  }

  lemma {:induction false} TotalOfSameHealth(us: seq<Unit>, vs: seq<Unit>)
    requires |us| == |vs| && forall k :: 0 <= k < |us| ==> us[k].hp == vs[k].hp
    ensures TotalHP(us) == TotalHP(vs)
  {
    if us != [] {
      TotalOfSameHealth(us[..|us| - 1], vs[..|vs| - 1]);
    }
  }

  lemma {:induction false} TotalOfAlive(us: seq<Unit>)
    requires AllHealthy(us)
    ensures TotalHP(Alive(us)) == TotalHP(us)
  {
    if us != [] {
      var p := us[..|us| - 1];
      TotalOfAlive(p);
      if us[|us| - 1].state != DEAD {
        assert Alive(us)[..|Alive(us)| - 1] == Alive(p);
      }
    }
  }

  lemma TurnDamage(us: seq<Unit>, i: nat, mapX: Fix32, mapY: Fix32)
    requires i < |us| && TurnSafe(us, i) && AllHealthy(us)
    ensures TotalHP(StepUnit(us, i, mapX, mapY)) ==
            TotalHP(us) - (if Victim(us, i) == |us| then 0 else Min(32768, us[Victim(us, i)].hp))
  {
    var vs := StepUnit(us, i, mapX, mapY);
    var j := Victim(us, i);
    if j < |us| {
      assert vs == us[j := Hit(us[j])];
      TotalAfterUpdate(us, j, Hit(us[j]));
    } else {
      TotalOfSameHealth(us, vs);
    }
  }

  lemma {:induction false} TurnsDamage(us: seq<Unit>, i: nat, mapX: Fix32, mapY: Fix32)
    requires i <= |us| && CanStep(us, i, mapX, mapY) && AllHealthy(us)
    ensures TotalHP(StepUnits(us, i, mapX, mapY)) == TotalHP(us) - DamageDealt(us, i, mapX, mapY)
    decreases |us| - i
  {
    if i < |us| {
      CanStepNext(us, i, mapX, mapY);
      TurnDamage(us, i, mapX, mapY);
      TurnKeepsHealthy(us, i, mapX, mapY);
      hide StepUnits, StepUnit, CanStep, PanicFree, TurnSafe, AllHealthy;
      TurnsDamage(StepUnit(us, i, mapX, mapY), i + 1, mapX, mapY);
    }
  }

  /** Conservation: a tick lowers total health by exactly the damage dealt; commands, movement and removal change
      none. */
  lemma HealthConservation(w: WorldState, cs: seq<Cmd>)
    requires Sound(w) && StepSafe(w, cs)
    ensures CanStep(ApplyCmds(w.units, cs), 0, w.mapX, w.mapY)
    ensures TotalHP(Step(w, cs).units) ==
            TotalHP(w.units) - DamageDealt(ApplyCmds(w.units, cs), 0, w.mapX, w.mapY)
  {
    var us := PhasesOfSound(w, cs);
    ApplyKeepsUnits(w.units, cs);
    TotalOfSameHealth(w.units, us);
    TurnsDamage(us, 0, w.mapX, w.mapY);
    UnitsKeepHealthy(us, 0, w.mapX, w.mapY);
    TotalOfAlive(StepUnits(us, 0, w.mapX, w.mapY));
  }
}
