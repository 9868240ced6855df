/** The lockstep simulation as a function: what one tick does to a world. */
module Sim {
  import opened Words
  import opened Fixed
  import opened Vectors

  const IDLE: uint8 := 0
  const MOVING: uint8 := 1
  const DEAD: uint8 := 2

  const MOVE: uint8 := 1
  const ATTACK: uint8 := 2
  const STOP: uint8 := 3

  /** The squared attack range (2.0 squared) and the damage of one hit (0.5). */
  const RANGE_SQ: Fix32 := 4 * 0x1_0000
  const DAMAGE: Fix32 := HALF

  /** A state or op byte outside the named constants is stored and ignored, as in the source. */
  datatype Unit = Unit(
    id: uint32, owner: uint8, pos: Vec2, hp: Fix32, maxHP: Fix32, speed: Fix32,
    state: uint8, targetID: uint32, moveTo: Vec2)

  datatype Cmd = Cmd(player: uint8, op: uint8, unitID: uint32, targetPos: Vec2, targetID: uint32)

  datatype WorldState = WorldState(
    tick: uint32, seed: uint64, rand: uint64, units: seq<Unit>, nextID: uint32, mapX: Fix32, mapY: Fix32)

  function NewWorldState(seed: uint64, mapW: int32, mapH: int32): WorldState {
    WorldState(0, seed, seed, [], 1, FromInt(mapW), FromInt(mapH))
  }

  function Spawned(w: WorldState, owner: uint8, pos: Vec2, hp: Fix32, speed: Fix32): WorldState {
    w.(nextID := Inc32(w.nextID),
       units := w.units + [Unit(w.nextID, owner, pos, hp, hp, speed, IDLE, 0, Vec2(0, 0))])
  }

  /** The index of the first unit with this ID, or the length when there is none. */
  function Find(us: seq<Unit>, id: uint32): (i: nat)
    ensures i <= |us|
    ensures i < |us| ==> us[i].id == id
    ensures forall j :: 0 <= j < i ==> us[j].id != id
  {
    if us == [] || us[0].id == id then 0 else 1 + Find(us[1..], id)
  }

  // ----- phase 1: commands -----

  function Obey(u: Unit, c: Cmd): Unit {
    if u.state == DEAD || u.owner != c.player then u
    else if c.op == MOVE then u.(state := MOVING, moveTo := c.targetPos, targetID := 0)
    else if c.op == ATTACK then u.(state := IDLE, targetID := c.targetID)
    else if c.op == STOP then u.(state := IDLE, targetID := 0)
    else u
  }

  function ApplyCmd(us: seq<Unit>, c: Cmd): (r: seq<Unit>)
    ensures |r| == |us|
  {
    var j := Find(us, c.unitID);
    if j == |us| then us else us[j := Obey(us[j], c)]
  }

  function ApplyCmds(us: seq<Unit>, cs: seq<Cmd>): (r: seq<Unit>)
    ensures |r| == |us|
    decreases |cs|
  {
    if cs == [] then us else ApplyCmds(ApplyCmd(us, cs[0]), cs[1..])
  }

  // ----- phase 2: units in ID order -----

  /** Insertion of one unit behind every unit whose ID is not larger. */
  function Place(s: seq<Unit>, key: Unit): seq<Unit> {
    if s == [] || s[|s| - 1].id <= key.id then s + [key]
    else Place(s[..|s| - 1], key) + [s[|s| - 1]]
  }

  function SortByID(us: seq<Unit>): seq<Unit> {
    if us == [] then [] else Place(SortByID(us[..|us| - 1]), us[|us| - 1])
  }

  /** No position can make a move at this speed divide by zero. */
  ghost predicate NeverPanics(s: Fix32) {
    forall from, target :: !Panics(from, target, s)
  }

  ghost predicate PanicFree(us: seq<Unit>) {
    forall i :: 0 <= i < |us| ==> NeverPanics(us[i].speed)
  }

  ghost function Moved(u: Unit, mapX: Fix32, mapY: Fix32): Unit
    requires !Panics(u.pos, u.moveTo, u.speed)
  {
    var p := MoveTowardOf(u.pos, u.moveTo, u.speed);
    var q := Vec2(Clamp(p.x, 0, mapX), Clamp(p.y, 0, mapY));
    if DistSq(q, u.moveTo) <= EPS then u.(pos := q, state := IDLE) else u.(pos := q)
  }

  function Hit(t: Unit): Unit {
    var hp := Sub(t.hp, DAMAGE);
    if hp <= 0 then t.(hp := 0, state := DEAD) else t.(hp := hp)
  }

  /** The turn of unit i does not divide by zero. */
  ghost predicate TurnSafe(us: seq<Unit>, i: nat)
    requires i < |us|
  {
    var u := us[i];
    && (u.state == MOVING ==> !Panics(u.pos, u.moveTo, u.speed))
    && (u.state == IDLE && u.targetID != 0 ==>
          var j := Find(us, u.targetID);
          || j == |us| || us[j].state == DEAD || DistSq(u.pos, us[j].pos) <= RANGE_SQ
          || !Panics(u.pos, us[j].pos, u.speed))
  }

  ghost function Attacked(us: seq<Unit>, i: nat): (r: seq<Unit>)
    requires i < |us| && us[i].state == IDLE && TurnSafe(us, i)
    ensures |r| == |us|
  {
    var u := us[i];
    if u.targetID == 0 then us
    else
      var j := Find(us, u.targetID);
      if j == |us| || us[j].state == DEAD then us[i := u.(targetID := 0)]
      else if DistSq(u.pos, us[j].pos) <= RANGE_SQ then us[j := Hit(us[j])]
      else us[i := u.(pos := MoveTowardOf(u.pos, us[j].pos, u.speed))]
  }

  ghost function StepUnit(us: seq<Unit>, i: nat, mapX: Fix32, mapY: Fix32): (r: seq<Unit>)
    requires i < |us| && TurnSafe(us, i)
    ensures |r| == |us|
  {
    if us[i].state == MOVING then us[i := Moved(us[i], mapX, mapY)]
    else if us[i].state == IDLE then Attacked(us, i)
    else us
  }

  /** What a tick never changes about a unit. */
  predicate SameUnit(u: Unit, v: Unit) {
    u.id == v.id && u.owner == v.owner && u.maxHP == v.maxHP && u.speed == v.speed
  }

  /** None of the turns from i on divides by zero. */
  ghost predicate TurnsSafe(us: seq<Unit>, i: nat, mapX: Fix32, mapY: Fix32)
    requires i <= |us|
    decreases |us| - i
  {
    i < |us| ==> TurnSafe(us, i) && TurnsSafe(StepUnit(us, i, mapX, mapY), i + 1, mapX, mapY)
  }

  /** The turns from i on are safe: in particular, when no unit's speed can ever make a move divide by zero. */
  ghost predicate CanStep(us: seq<Unit>, i: nat, mapX: Fix32, mapY: Fix32)
    requires i <= |us|
  {
    PanicFree(us) || TurnsSafe(us, i, mapX, mapY)
  }

  ghost function StepUnits(us: seq<Unit>, i: nat, mapX: Fix32, mapY: Fix32): (r: seq<Unit>)
    requires i <= |us| && CanStep(us, i, mapX, mapY)
    ensures |r| == |us| && (PanicFree(us) ==> PanicFree(r))
    decreases |us| - i
  {
    if i == |us| then us
    else
      StepUnitKeeps(us, i, mapX, mapY);
      StepUnits(StepUnit(us, i, mapX, mapY), i + 1, mapX, mapY)
  }

  // ----- phase 3: removal -----

  function Alive(us: seq<Unit>): seq<Unit> {
    if us == [] then []
    else if us[|us| - 1].state != DEAD then Alive(us[..|us| - 1]) + [us[|us| - 1]]
    else Alive(us[..|us| - 1])
  }

  /** The tick does not divide by zero: in particular, when no unit's speed ever can. */
  ghost predicate StepSafe(w: WorldState, cs: seq<Cmd>) {
    PanicFree(w.units) || TurnsSafe(SortByID(ApplyCmds(w.units, cs)), 0, w.mapX, w.mapY)
  }

  ghost function Step(w: WorldState, cs: seq<Cmd>): WorldState
    requires StepSafe(w, cs)
  {
    OrderedKeepsPanicFree(w.units, cs);
    var us := StepUnits(SortByID(ApplyCmds(w.units, cs)), 0, w.mapX, w.mapY);
    w.(tick := Inc32(w.tick), units := Alive(us))
  }

  // ----- basic facts -----

  lemma {:induction false} ApplyKeepsUnits(us: seq<Unit>, cs: seq<Cmd>)
    ensures forall k :: 0 <= k < |us| ==>
              SameUnit(us[k], ApplyCmds(us, cs)[k]) && us[k].hp == ApplyCmds(us, cs)[k].hp
              && us[k].pos == ApplyCmds(us, cs)[k].pos
    decreases |cs|
  {
    if cs != [] {
      ApplyKeepsUnits(ApplyCmd(us, cs[0]), cs[1..]);
    }
  }

  lemma StepUnitKeeps(us: seq<Unit>, i: nat, mapX: Fix32, mapY: Fix32)
    requires i < |us| && (PanicFree(us) || TurnSafe(us, i))
    ensures TurnSafe(us, i)
    ensures var r := StepUnit(us, i, mapX, mapY);
            && (PanicFree(us) ==> PanicFree(r)) && forall k :: 0 <= k < |us| ==> SameUnit(us[k], r[k])
  {
    var r := StepUnit(us, i, mapX, mapY);
    assert forall k :: 0 <= k < |us| ==> SameUnit(us[k], r[k]);
  }

  /** One turn, and the turns after it. */
  lemma CanStepNext(us: seq<Unit>, i: nat, mapX: Fix32, mapY: Fix32)
    requires i < |us| && CanStep(us, i, mapX, mapY)
    ensures TurnSafe(us, i)
    ensures var r := StepUnit(us, i, mapX, mapY);
            && CanStep(r, i + 1, mapX, mapY) && StepUnits(us, i, mapX, mapY) == StepUnits(r, i + 1, mapX, mapY)
  {
    StepUnitKeeps(us, i, mapX, mapY);
  }

  lemma {:induction false} StepUnitsKeep(us: seq<Unit>, i: nat, mapX: Fix32, mapY: Fix32)
    requires i <= |us| && CanStep(us, i, mapX, mapY)
    ensures var r := StepUnits(us, i, mapX, mapY);
            forall k :: 0 <= k < |us| ==> SameUnit(us[k], r[k])
    decreases |us| - i
  {
    if i < |us| {
      StepUnitKeeps(us, i, mapX, mapY);
      StepUnitsKeep(StepUnit(us, i, mapX, mapY), i + 1, mapX, mapY);
    }
  }

  lemma {:induction false} PlacePermutes(s: seq<Unit>, key: Unit)
    ensures multiset(Place(s, key)) == multiset(s) + multiset{key}
  {
    if s != [] && s[|s| - 1].id > key.id {
      PlacePermutes(s[..|s| - 1], key);
      assert s == s[..|s| - 1] + [s[|s| - 1]];
    }
  }

  /** The insertion sort is a permutation. */
  lemma {:induction false} SortPermutes(us: seq<Unit>)
    ensures multiset(SortByID(us)) == multiset(us)
  {
    hide Place;
    if us != [] {
      SortPermutes(us[..|us| - 1]);
      PlacePermutes(SortByID(us[..|us| - 1]), us[|us| - 1]);
      assert us == us[..|us| - 1] + [us[|us| - 1]];
    }
  }

  predicate SortedByID(us: seq<Unit>) {
    forall i, j :: 0 <= i < j < |us| ==> us[i].id <= us[j].id
  }

  lemma {:induction false} PlaceSorted(s: seq<Unit>, key: Unit)
    requires SortedByID(s)
    ensures SortedByID(Place(s, key))
  {
    if s != [] && s[|s| - 1].id > key.id {
      var p := Place(s[..|s| - 1], key);
      PlaceSorted(s[..|s| - 1], key);
      PlacePermutes(s[..|s| - 1], key);
      forall i | 0 <= i < |p| ensures p[i].id <= s[|s| - 1].id {
        assert p[i] in multiset(p);
        assert p[i] == key || p[i] in s[..|s| - 1];
      }
    }
  }

  lemma {:induction false} SortSorts(us: seq<Unit>)
    ensures SortedByID(SortByID(us))
  {
    if us != [] {
      SortSorts(us[..|us| - 1]);
      PlaceSorted(SortByID(us[..|us| - 1]), us[|us| - 1]);
    }
  }

  /** On units already in ID order, as in every reachable world, the sort changes nothing. */
  lemma {:induction false} SortIdentity(us: seq<Unit>)
    requires SortedByID(us)
    ensures SortByID(us) == us
  {
    if us != [] {
      SortIdentity(us[..|us| - 1]);
      assert us == us[..|us| - 1] + [us[|us| - 1]];
    }
  }

  lemma SortKeepsPanicFree(us: seq<Unit>)
    requires PanicFree(us)
    ensures PanicFree(SortByID(us))
  {
    SortPermutes(us);
    var s := SortByID(us);
    forall i | 0 <= i < |s| ensures NeverPanics(s[i].speed) {
      assert s[i] in multiset(s);
      assert s[i] in multiset(us);
    }
  }

  lemma OrderedKeepsPanicFree(us: seq<Unit>, cs: seq<Cmd>)
    ensures PanicFree(us) ==> PanicFree(SortByID(ApplyCmds(us, cs)))
  {
    ApplyKeepsUnits(us, cs);
    if PanicFree(us) {
      SortKeepsPanicFree(ApplyCmds(us, cs));
    }
  }

  lemma {:induction false} PanicFreeTurns(us: seq<Unit>, i: nat, mapX: Fix32, mapY: Fix32)
    requires i <= |us| && PanicFree(us)
    ensures TurnsSafe(us, i, mapX, mapY)
    decreases |us| - i
  {
    if i < |us| {
      StepUnitKeeps(us, i, mapX, mapY);
      PanicFreeTurns(StepUnit(us, i, mapX, mapY), i + 1, mapX, mapY);
    }
  }

  /** A tick is safe if and only if none of its turns divides by zero. */
  lemma StepSafeExact(w: WorldState, cs: seq<Cmd>)
    ensures StepSafe(w, cs) <==> TurnsSafe(SortByID(ApplyCmds(w.units, cs)), 0, w.mapX, w.mapY)
  {
    if PanicFree(w.units) {
      OrderedKeepsPanicFree(w.units, cs);
      PanicFreeTurns(SortByID(ApplyCmds(w.units, cs)), 0, w.mapX, w.mapY);
    }
  }

  lemma {:induction false} AliveMembers(us: seq<Unit>)
    ensures forall u :: u in Alive(us) <==> u in us && u.state != DEAD
  {
    if us != [] {
      AliveMembers(us[..|us| - 1]);
      assert us == us[..|us| - 1] + [us[|us| - 1]];
    }
  }

  lemma StepKeepsPanicFree(w: WorldState, cs: seq<Cmd>)
    requires PanicFree(w.units)
    ensures PanicFree(Step(w, cs).units)
  {
    OrderedKeepsPanicFree(w.units, cs);
    var us := StepUnits(SortByID(ApplyCmds(w.units, cs)), 0, w.mapX, w.mapY);
    AliveMembers(us);
  }

  /** No tick of a whole game divides by zero. */
  ghost predicate PlaySafe(w: WorldState, css: seq<seq<Cmd>>)
    decreases |css|
  {
    PanicFree(w.units) || (css != [] ==> StepSafe(w, css[0]) && PlaySafe(Step(w, css[0]), css[1..]))
  }

  /** A whole game: one command list per tick. */
  ghost function Play(w: WorldState, css: seq<seq<Cmd>>): (r: WorldState)
    requires PlaySafe(w, css)
    ensures PanicFree(w.units) ==> PanicFree(r.units)
    decreases |css|
  {
    if css == [] then w
    else
      StepMayKeepPanicFree(w, css[0]);
      Play(Step(w, css[0]), css[1..])
  }

  lemma PlaySafeNext(w: WorldState, css: seq<seq<Cmd>>)
    requires css != [] && PlaySafe(w, css)
    ensures StepSafe(w, css[0]) && PlaySafe(Step(w, css[0]), css[1..])
  {
    StepMayKeepPanicFree(w, css[0]);
  }

  lemma {:induction false} PlaySafePrefix(w: WorldState, css: seq<seq<Cmd>>, k: nat)
    requires k <= |css| && PlaySafe(w, css)
    ensures PlaySafe(w, css[..k])
    decreases k
  {
    if k > 0 {
      PlaySafeNext(w, css);
      PlaySafePrefix(Step(w, css[0]), css[1..], k - 1);
      assert css[..k][1..] == css[1..][..k - 1];
    }
  }

  lemma StepMayKeepPanicFree(w: WorldState, cs: seq<Cmd>)
    requires StepSafe(w, cs)
    ensures PanicFree(w.units) ==> PanicFree(Step(w, cs).units)
  {
    if PanicFree(w.units) {
      StepKeepsPanicFree(w, cs);
    }
  }

  lemma PlayPrefixNext(w: WorldState, css: seq<seq<Cmd>>, k: nat)
    requires k < |css| && PlaySafe(w, css)
    ensures StepSafe(w, css[0])
    ensures PlaySafe(w, css[..k + 1]) && PlaySafe(Step(w, css[0]), css[1..][..k])
    ensures Play(w, css[..k + 1]) == Play(Step(w, css[0]), css[1..][..k])
  {
    PlaySafeNext(w, css);
    PlaySafePrefix(w, css, k + 1);
    PlaySafePrefix(Step(w, css[0]), css[1..], k);
    assert css[..k + 1][1..] == css[1..][..k];
  }

  lemma {:induction false} PlaySplit(w: WorldState, a: seq<seq<Cmd>>, b: seq<seq<Cmd>>)
    requires PlaySafe(w, a + b)
    ensures PlaySafe(w, a) && PlaySafe(Play(w, a), b)
    ensures Play(w, a + b) == Play(Play(w, a), b)
    decreases |a|
  {
    if a == [] {
      assert a + b == b;
    } else {
      var ab := a + b;
      assert ab[0] == a[0] && ab[1..] == a[1..] + b;
      PlaySafeNext(w, ab);
      PlaySplit(Step(w, a[0]), a[1..], b);
    }
  }

  /** Worlds that differ at most in the state of their random generator, from which clients draw when they make
      commands. */
  predicate SameButRand(v: WorldState, w: WorldState) {
    v == w.(rand := v.rand)
  }

  /** No tick reads or changes the random state. */
  lemma {:induction false} PlayIgnoresRand(w: WorldState, r: uint64, css: seq<seq<Cmd>>)
    requires PlaySafe(w, css)
    ensures PlaySafe(w.(rand := r), css)
    ensures Play(w.(rand := r), css) == Play(w, css).(rand := r)
    decreases |css|
  {
    if css != [] {
      PlaySafeNext(w, css);
      assert Step(w.(rand := r), css[0]) == Step(w, css[0]).(rand := r);
      PlayIgnoresRand(Step(w, css[0]), r, css[1..]);
    }
  }
}
