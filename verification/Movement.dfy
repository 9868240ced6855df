/** Movement terminates: a moving unit left alone arrives within a number of ticks known in advance. */
module Movement {
  import opened Words
  import opened Fixed
  import opened Vectors
  import opened Sim
  import opened SimInvariants
  import opened MoveLength

  lemma OnMapNoWrap(p: Vec2, q: Vec2, mapX: Fix32, mapY: Fix32)
    requires OnMap(p, mapX, mapY) && OnMap(q, mapX, mapY)
    ensures NoWrap(p, q)
  {
  }

  /** One tick of movement toward a goal on the map: arrival, or a strictly smaller distance. */
  lemma MovedNearer(u: Unit, mapX: Fix32, mapY: Fix32)
    requires OnMap(u.pos, mapX, mapY) && OnMap(u.moveTo, mapX, mapY)
    requires 512 <= u.speed <= MAX_SAFE && NeverPanics(u.speed) && u.state == MOVING
    ensures var v := Moved(u, mapX, mapY);
            && v == u.(pos := v.pos, state := v.state)
            && OnMap(v.pos, mapX, mapY)
            && (if v.state == IDLE then DistSq(v.pos, u.moveTo) <= 1
                else v.state == MOVING && Manhattan(v.pos, u.moveTo) < Manhattan(u.pos, u.moveTo))
  {
    OnMapNoWrap(u.pos, u.moveTo, mapX, mapY);
    MoveStaysBetween(u.pos, u.moveTo, u.speed);
    if Snaps(u.pos, u.moveTo, u.speed) {
      ExactDistSq(u.moveTo, u.moveTo);
    } else {
      MoveMakesProgress(u.pos, u.moveTo, u.speed);
    }
  }

  /** A moving unit stops moving exactly when it ends a tick within the smallest unit of its destination, and a snapping
      move onto the map ends there. */
  lemma StopsExactlyThere(u: Unit, mapX: Fix32, mapY: Fix32)
    requires !Panics(u.pos, u.moveTo, u.speed) && u.state == 1
    ensures var v := Moved(u, mapX, mapY);
            && (v.state == 0 <==> DistSq(v.pos, u.moveTo) <= 1)
            && (v.state != 0 ==> v.state == 1)
            && (OnMap(u.moveTo, mapX, mapY) && DistSq(u.moveTo, u.pos) <= Mul(u.speed, u.speed) ==>
                  v == u.(pos := u.moveTo, state := 0))
  {
    ExactDistSq(u.moveTo, u.moveTo);
  }

  /** The turn of unit i changes a unit without a target only by a hit, or by its own move. */
  lemma OneTurn(us: seq<Unit>, i: nat, k: nat, mapX: Fix32, mapY: Fix32)
    requires i < |us| && k < |us| && NeverPanics(us[i].speed) && NeverPanics(us[k].speed)
    requires k == i ==> us[k].state == DEAD || us[k].state == MOVING || (us[k].state == IDLE && us[k].targetID == 0)
    ensures var v := StepUnit(us, i, mapX, mapY)[k];
            || v.state == DEAD
            || v == (if k == i && us[k].state == MOVING then Moved(us[k], mapX, mapY) else us[k]).(hp := v.hp)
  {
  }

  lemma MovedIgnoresHealth(u: Unit, h: Fix32, mapX: Fix32, mapY: Fix32)
    requires NeverPanics(u.speed)
    ensures Moved(u.(hp := h), mapX, mapY) == Moved(u, mapX, mapY).(hp := h)
  {
  }

  /** What the turns of phase 2 from i on can do to unit k, which has moved already or is still to move. */
  lemma {:induction false} TurnOfMover(us: seq<Unit>, i: nat, k: nat, mapX: Fix32, mapY: Fix32)
    requires i <= |us| && k < |us| && PanicFree(us) && StrictlyOrdered(us)
    requires us[k].state == DEAD || k < i || us[k].state == MOVING || (us[k].state == IDLE && us[k].targetID == 0)
    ensures var v := StepUnits(us, i, mapX, mapY)[k];
            || v.state == DEAD
            || v == (if k >= i && us[k].state == MOVING then Moved(us[k], mapX, mapY) else us[k]).(hp := v.hp)
    decreases |us| - i
  {
    if i < |us| {
      var vs := StepUnit(us, i, mapX, mapY);
      StepUnitKeeps(us, i, mapX, mapY);
      OneTurn(us, i, k, mapX, mapY);
      TurnOfMover(vs, i + 1, k, mapX, mapY);
      MovedIgnoresHealth(us[k], vs[k].hp, mapX, mapY);
    }
  }

  predicate Commands(c: Cmd, id: uint32, owner: uint8) {
    c.unitID == id && c.player == owner
  }

  predicate LeftAlone(cs: seq<Cmd>, id: uint32, owner: uint8) {
    forall c :: c in cs ==> !Commands(c, id, owner)
  }

  lemma {:induction false} NoOrders(u: Unit, cs: seq<Cmd>)
    requires LeftAlone(cs, u.id, u.owner)
    ensures ObeyAll(u, CmdsFor(cs, u.id)) == u
  {
    if cs != [] {
      assert cs[0] in cs;
      NoOrders(u, cs[1..]);
    }
  }

  lemma FindUnique(us: seq<Unit>, k: nat)
    requires StrictlyOrdered(us) && k < |us|
    ensures Find(us, us[k].id) == k
  {
  }

  lemma FindSurvivor(us: seq<Unit>, k: nat)
    requires StrictlyOrdered(us) && k < |us| && us[k].state != DEAD
    ensures var j := Find(Alive(us), us[k].id);
            j < |Alive(us)| && Alive(us)[j] == us[k]
  {
    AliveMembers(us);
    AliveOrdered(us);
    assert us[k] in Alive(us);
    var j :| 0 <= j < |Alive(us)| && Alive(us)[j] == us[k];
    FindUnique(Alive(us), j);
  }

  lemma FindDead(us: seq<Unit>, id: uint32)
    requires StrictlyOrdered(us)
    requires Find(us, id) == |us| || us[Find(us, id)].state == DEAD
    ensures Find(Alive(us), id) == |Alive(us)|
  {
    AliveMembers(us);
    var j := Find(Alive(us), id);
    if j < |Alive(us)| {
      var u := Alive(us)[j];
      assert u in us;
      var k :| 0 <= k < |us| && us[k] == u;
      FindUnique(us, k);
      assert false;
    }
  }

  /** Gone; or settled at the goal; or still moving with at most n raw units of Manhattan distance to go. */
  ghost predicate Travelling(w: WorldState, id: uint32, goal: Vec2, owner: uint8, n: int) {
    var k := Find(w.units, id);
    k < |w.units| ==>
      var u := w.units[k];
      && u.owner == owner
      && u.targetID == 0
      && (u.state == IDLE || u.state == MOVING)
      && (u.state == IDLE ==> DistSq(u.pos, goal) <= 1)
      && (u.state == MOVING ==> u.moveTo == goal && u.speed >= 512 && Manhattan(u.pos, goal) <= n)
  }

  ghost predicate Settled(w: WorldState) {
    && Sound(w)
    && 0 <= w.mapX && 0 <= w.mapY
    && AllOnMap(w.units, w.mapX, w.mapY)
  }

  lemma StepKeepsSettled(w: WorldState, cs: seq<Cmd>)
    requires Settled(w) && PanicFree(w.units)
    ensures Settled(Step(w, cs))
  {
    StepKeepsSound(w, cs);
    StepStaysOnMap(w, cs);
  }

  /** What a tick makes of a unit that nobody commands, up to its health. */
  lemma TickOfMover(w: WorldState, cs: seq<Cmd>, k: nat)
    requires Settled(w) && PanicFree(w.units) && k < |w.units| && LeftAlone(cs, w.units[k].id, w.units[k].owner)
    requires w.units[k].state == MOVING || (w.units[k].state == IDLE && w.units[k].targetID == 0)
    ensures var u, id := w.units[k], w.units[k].id;
            var us := Step(w, cs).units;
            var j := Find(us, id);
            var v := if u.state == MOVING then Moved(u, w.mapX, w.mapY) else u;
            j < |us| ==> us[j] == v.(hp := us[j].hp)
  {
    var u := w.units[k];
    var us := PhasesOfSound(w, cs);
    var vs := StepUnits(us, 0, w.mapX, w.mapY);
    FindUnique(w.units, k);
    OrdersPerUnit(w.units, cs, k);
    NoOrders(u, cs);
    TurnOfMover(us, 0, k, w.mapX, w.mapY);
    StepUnitsKeep(us, 0, w.mapX, w.mapY);
    FindUnique(vs, k);
    if vs[k].state == DEAD {
      FindDead(vs, u.id);
    } else {
      FindSurvivor(vs, k);
    }
  }

  lemma NoNewUnits(w: WorldState, cs: seq<Cmd>, id: uint32)
    requires Sound(w) && PanicFree(w.units) && Find(w.units, id) == |w.units|
    ensures Find(Step(w, cs).units, id) == |Step(w, cs).units|
  {
    var us := PhasesOfSound(w, cs);
    var vs := StepUnits(us, 0, w.mapX, w.mapY);
    ApplyKeepsUnits(w.units, cs);
    StepUnitsKeep(us, 0, w.mapX, w.mapY);
    SameIDsSameFind(w.units, vs, id);
    FindDead(vs, id);
  }

  lemma TravelTick(w: WorldState, cs: seq<Cmd>, id: uint32, goal: Vec2, owner: uint8, n: int)
    requires Settled(w) && PanicFree(w.units)
    requires OnMap(goal, w.mapX, w.mapY) && LeftAlone(cs, id, owner)
    requires Travelling(w, id, goal, owner, n)
    ensures Travelling(Step(w, cs), id, goal, owner, n - 1)
  {
    var k := Find(w.units, id);
    if k == |w.units| {
      NoNewUnits(w, cs, id);
    } else {
      TickOfMover(w, cs, k);
      if w.units[k].state == MOVING {
        MovedNearer(w.units[k], w.mapX, w.mapY);
      }
    }
  }

  lemma {:induction false} TravelRun(w: WorldState, css: seq<seq<Cmd>>, id: uint32, goal: Vec2, owner: uint8, n: int)
    requires Settled(w) && PanicFree(w.units)
    requires OnMap(goal, w.mapX, w.mapY) && (forall t :: 0 <= t < |css| ==> LeftAlone(css[t], id, owner))
    requires Travelling(w, id, goal, owner, n)
    ensures Travelling(Play(w, css), id, goal, owner, n - |css|)
    decreases |css|
  {
    if css != [] {
      TravelTick(w, css[0], id, goal, owner, n);
      StepKeepsSettled(w, css[0]);
      StepKeepsPanicFree(w, css[0]);
      TravelRun(Step(w, css[0]), css[1..], id, goal, owner, n - 1);
    }
  }

  lemma {:induction false} PlayKeepsSettled(w: WorldState, css: seq<seq<Cmd>>)
    requires Settled(w) && PanicFree(w.units)
    ensures Settled(Play(w, css)) && Play(w, css).mapX == w.mapX && Play(w, css).mapY == w.mapY
    decreases |css|
  {
    if css != [] {
      StepKeepsSettled(w, css[0]);
      StepKeepsPanicFree(w, css[0]);
      PlayKeepsSettled(Step(w, css[0]), css[1..]);
    }
  }

  /** A map whose squared diagonal fits Q16.16, such as any map up to 127 by 127. */
  predicate MapFits(mapX: Fix32, mapY: Fix32) {
    FloorShift(mapX * mapX) + FloorShift(mapY * mapY) < 0x8000_0000
  }

  lemma OnMapDiffFits(p: Vec2, q: Vec2, mapX: Fix32, mapY: Fix32)
    requires MapFits(mapX, mapY) && OnMap(p, mapX, mapY) && OnMap(q, mapX, mapY)
    ensures DiffFits(q.x - p.x, q.y - p.y)
  {
    SideFits(q.x - p.x, mapX);
    SideFits(q.y - p.y, mapY);
  }

  lemma SideFits(d: int, side: int)
    requires -side <= d <= side
    ensures FloorShift(d * d) <= FloorShift(side * side)
  {
    AbsSquare(d);
    MulMono(Abs(d), side, Abs(d), side);
  }

  lemma ArrivedOnMap(p: Vec2, goal: Vec2, mapX: Fix32, mapY: Fix32)
    requires OnMap(p, mapX, mapY) && OnMap(goal, mapX, mapY) && MapFits(mapX, mapY) && DistSq(p, goal) <= 1
    ensures Close(p, goal)
  {
    OnMapNoWrap(goal, p, mapX, mapY);
    OnMapDiffFits(goal, p, mapX, mapY);
    EpsMeansClose(p, goal);
  }

  /** Movement terminates: after more ticks than its Manhattan distance in raw units, a unit that its owner leaves alone
      is dead or idle at what the source takes for its target; and truly there if the map's squared diagonal fits. */
  lemma MovementTerminates(w: WorldState, css: seq<seq<Cmd>>, k: nat)
    requires Settled(w)
    requires k < |w.units| && w.units[k].state == MOVING && w.units[k].speed >= 512
    requires OnMap(w.units[k].moveTo, w.mapX, w.mapY)
    requires forall t :: 0 <= t < |css| ==> LeftAlone(css[t], w.units[k].id, w.units[k].owner)
    requires |css| > Manhattan(w.units[k].pos, w.units[k].moveTo)
    ensures PanicFree(w.units)
    ensures var r, goal := Play(w, css).units, w.units[k].moveTo;
            var j := Find(r, w.units[k].id);
            j == |r| || (&& r[j].state == IDLE && DistSq(r[j].pos, goal) <= 1
                         && (MapFits(w.mapX, w.mapY) ==> Close(r[j].pos, goal)))
  {
    var u := w.units[k];
    OnMapIsPanicFree(w.units, w.mapX, w.mapY);
    FindUnique(w.units, k);
    TravelRun(w, css, u.id, u.moveTo, u.owner, Manhattan(u.pos, u.moveTo));
    PlayKeepsSettled(w, css);
    var r := Play(w, css).units;
    var j := Find(r, u.id);
    hide Play, Find, DistSq, MapFits, Close;
    if j < |r| && MapFits(w.mapX, w.mapY) {
      assert r[j].state == IDLE && DistSq(r[j].pos, u.moveTo) <= 1;
      ArrivedOnMap(r[j].pos, u.moveTo, w.mapX, w.mapY);
    }
  }

  /** On a map of 300 by 300 a unit with the source's speed 0.5, on its way from (0, 0) to (256, 10), idles after one
      tick more than 200.0 short of its target: from there the squared distance wraps below zero. */
  lemma IdlesFarAway()
    ensures var goal := Vec2(256 * ONE, 10 * ONE);
            var u := Unit(1, 0, Vec2(0, 0), ONE, ONE, HALF, MOVING, 0, goal);
            NeverPanics(HALF) &&
            var v := Moved(u, 300 * ONE, 300 * ONE);
            v.state == IDLE && goal.x - v.pos.x > 200 * ONE
  {
    SafeIsPanicFree(HALF);
    var goal := Vec2(256 * ONE, 10 * ONE);
    WrappedStart(goal);
    WrappedEnd(goal);
  }

  /** The first squared distance keeps only its y part, of which 10.0 is the root. */
  lemma WrappedStart(goal: Vec2)
    requires goal == Vec2(256 * ONE, 10 * ONE)
    ensures !Panics(Vec2(0, 0), goal, HALF) && MoveTowardOf(Vec2(0, 0), goal, HALF) == Vec2(838656, 32760)
  {
    var d := 10 * ONE;
    assert VSub(goal, Vec2(0, 0)) == goal;
    assert Mul(256 * ONE, 256 * ONE) == 0 && Mul(d, d) == 100 * ONE;
    assert DistSq(goal, Vec2(0, 0)) == 100 * ONE && Mul(HALF, HALF) == 0x4000;
    IntSqrtUnique(100 * ONE * ONE, d);
    assert SqrtOf(100 * ONE) == d && Div(HALF, d) == 3276;
  }

  lemma WrappedEnd(goal: Vec2)
    requires goal == Vec2(256 * ONE, 10 * ONE)
    ensures DistSq(Vec2(838656, 32760), goal) < 0
  {
    assert VSub(Vec2(838656, 32760), goal) == Vec2(-15938560, -622600);
    assert Mul(-15938560, -15938560) == -418659696;
    assert Mul(-622600, -622600) == 5914776;
  }

  // ----- how far a tick takes a unit -----

  ghost predicate TickWithin(u: Unit, v: Unit) {
    var sx, sy := v.pos.x - u.pos.x, v.pos.y - u.pos.y;
    sx * sx + sy * sy <= (u.speed + 363) * (u.speed + 363)
  }

  lemma ClampShortens(p: Fix32, q: Fix32, side: Fix32)
    requires 0 <= p <= side
    ensures (Clamp(q, 0, side) - p) * (Clamp(q, 0, side) - p) <= (q - p) * (q - p)
  {
    var d, e := Abs(Clamp(q, 0, side) - p), Abs(q - p);
    MulMono(d, e, d, e);
    AbsSquare(Clamp(q, 0, side) - p);
    AbsSquare(q - p);
  }

  /** A tick takes a unit on the map at most its speed and 363 raw units far, if the squared distance to its target,
      which may be anywhere, does not overflow. */
  lemma TickLengthBound(u: Unit, mapX: Fix32, mapY: Fix32)
    requires OnMap(u.pos, mapX, mapY) && SafeSpeed(u.speed)
    requires DiffFits(u.moveTo.x - u.pos.x, u.moveTo.y - u.pos.y)
    ensures NeverPanics(u.speed) && TickWithin(u, Moved(u, mapX, mapY))
  {
    SafeIsPanicFree(u.speed);
    StepBound(u.pos, u.moveTo, u.speed);
    var r := MoveTowardOf(u.pos, u.moveTo, u.speed);
    ClampShortens(u.pos.x, r.x, mapX);
    ClampShortens(u.pos.y, r.y, mapY);
  }

  /** With a target on the map too, and a speed from 1024 raw to just above 180.0, that is exactly when it does. */
  lemma TickLengthExact(u: Unit, mapX: Fix32, mapY: Fix32)
    requires OnMap(u.pos, mapX, mapY) && OnMap(u.moveTo, mapX, mapY) && 1024 <= u.speed <= 11_800_000
    ensures NeverPanics(u.speed)
    ensures TickWithin(u, Moved(u, mapX, mapY)) <==> DiffFits(u.moveTo.x - u.pos.x, u.moveTo.y - u.pos.y)
  {
    SafeIsPanicFree(u.speed);
    OnMapNoWrap(u.pos, u.moveTo, mapX, mapY);
    MoveLengthExact(u.pos, u.moveTo, u.speed);
    MoveStaysBetween(u.pos, u.moveTo, u.speed);
  }

  /** And under the same conditions the unit is at its target after the tick, or at most 185 raw units short of its
      speed. */
  lemma TickLengthLeast(u: Unit, mapX: Fix32, mapY: Fix32)
    requires OnMap(u.pos, mapX, mapY) && OnMap(u.moveTo, mapX, mapY) && 1024 <= u.speed <= MAX_SAFE
    requires DiffFits(u.moveTo.x - u.pos.x, u.moveTo.y - u.pos.y)
    ensures NeverPanics(u.speed)
    ensures var v := Moved(u, mapX, mapY);
            var sx, sy := v.pos.x - u.pos.x, v.pos.y - u.pos.y;
            v.pos == u.moveTo || sx * sx + sy * sy >= (u.speed - 185) * (u.speed - 185)
  {
    SafeIsPanicFree(u.speed);
    OnMapNoWrap(u.pos, u.moveTo, mapX, mapY);
    MoveStaysBetween(u.pos, u.moveTo, u.speed);
    if !Snaps(u.pos, u.moveTo, u.speed) {
      MoveLengthLeast(u.pos, u.moveTo, u.speed);
    }
  }
}
