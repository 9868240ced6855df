/** Attacks succeed: an attacker reaches its target and kills it, within a number of ticks known in advance. */
module Pursuit {
  import opened Words
  import opened Fixed
  import opened Vectors
  import opened Sim
  import opened SimInvariants
  import opened Movement
  import opened Orders

  /** At most 2.0 apart, by the squared distance that the source computes. */
  predicate InRange(p: Vec2, q: Vec2) {
    DistSq(p, q) <= 4 * 0x1_0000
  }

  /** A hit takes 0.5 of health, and kills when nothing is left. */
  predicate IsHit(t: Unit, v: Unit) {
    if t.hp - 0x8000 <= 0 then v == t.(hp := 0, state := 2) else v == t.(hp := t.hp - 0x8000)
  }

  /** What an attacker u does on its turn to itself (v) and to its living target t (x). */
  predicate Attacks(u: Unit, t: Unit, v: Unit, x: Unit) {
    if InRange(u.pos, t.pos) then v == u && IsHit(t, x)
    else x == t && v == u.(pos := v.pos) && (v.pos == t.pos || Manhattan(v.pos, t.pos) < Manhattan(u.pos, t.pos))
  }

  /** The turn of an idle unit with a living target: a hit within range, else a move that ends at the target or strictly
      nearer; all other units stay as they are. */
  lemma AttackTurn(us: seq<Unit>, i: nat, mapX: Fix32, mapY: Fix32)
    requires i < |us| && us[i].state == 0 && us[i].targetID != 0 && 512 <= us[i].speed <= MAX_SAFE
    requires var j := Find(us, us[i].targetID);
             && j < |us| && j != i && us[j].state != 2 && us[j].hp > 0 && NoWrap(us[i].pos, us[j].pos)
    ensures TurnSafe(us, i)
    ensures var j := Find(us, us[i].targetID);
            var vs := StepUnit(us, i, mapX, mapY);
            && Attacks(us[i], us[j], vs[i], vs[j])
            && forall k :: 0 <= k < |us| && k != i && k != j ==> vs[k] == us[k]
  {
    var u, t := us[i], us[Find(us, us[i].targetID)];
    SafeSpeedNeverPanics(u.pos, t.pos, u.speed);
    if !InRange(u.pos, t.pos) && !Snaps(u.pos, t.pos, u.speed) {
      MoveMakesProgress(u.pos, t.pos, u.speed);
    }
  }

  /** An idle unit whose target is dead or gone forgets it and does nothing else. */
  lemma LostTargetTurn(us: seq<Unit>, i: nat, mapX: Fix32, mapY: Fix32)
    requires i < |us| && us[i].state == 0 && us[i].targetID != 0
    requires var j := Find(us, us[i].targetID); j == |us| || us[j].state == 2
    ensures TurnSafe(us, i) && StepUnit(us, i, mapX, mapY) == us[i := us[i].(targetID := 0)]
  {
  }

  // ----- a pursuit that nobody interferes with -----

  /** Nobody but the attacker aims at either of the two. */
  predicate Spared(us: seq<Unit>, i: nat, a: uint32, b: uint32) {
    forall k :: 0 <= k < |us| && k != i ==> us[k].targetID != a && us[k].targetID != b
  }

  /** Units i and j are an idle attacker and its idle target, which attacks nobody. */
  predicate Pair(us: seq<Unit>, i: nat, j: nat, a: uint32, b: uint32) {
    && i < |us| && j < |us| && i != j && us[i].id == a && us[j].id == b && a != 0 && b != 0
    && us[i].state == 0 && us[i].targetID == b && 512 <= us[i].speed <= MAX_SAFE
    && us[j].state == 0 && us[j].targetID == 0 && us[j].hp > 0
    && StrictlyOrdered(us) && Spared(us, i, a, b) && NoWrap(us[i].pos, us[j].pos)
  }

  /** Units i and j, of which j attacks nobody, and nobody but i aims at either. */
  predicate Alone(us: seq<Unit>, i: nat, j: nat, a: uint32, b: uint32) {
    && i < |us| && j < |us| && i != j && us[i].id == a && us[j].id == b && a != 0 && b != 0
    && StrictlyOrdered(us) && Spared(us, i, a, b)
    && (us[j].state == 2 || (us[j].state == 0 && us[j].targetID == 0))
  }

  /** Anybody else's turn leaves both alone. */
  lemma OthersTurn(us: seq<Unit>, k: nat, i: nat, j: nat, a: uint32, b: uint32, mapX: Fix32, mapY: Fix32)
    requires k < |us| && k != i && Alone(us, i, j, a, b) && TurnSafe(us, k)
    ensures var vs := StepUnit(us, k, mapX, mapY);
            vs[i] == us[i] && vs[j] == us[j] && Alone(vs, i, j, a, b)
  {
    var vs := StepUnit(us, k, mapX, mapY);
    var v := Find(us, us[k].targetID);
    assert us[k].targetID != 0 && v < |us| ==> v != i && v != j;
    assert forall m :: 0 <= m < |us| ==> vs[m].id == us[m].id;
    assert forall m :: 0 <= m < |us| ==> vs[m].targetID == us[m].targetID || vs[m].targetID == 0;
  }

  /** The next turn, which is somebody else's, and what is left of the tick. */
  lemma NextOther(us: seq<Unit>, n: nat, i: nat, j: nat, a: uint32, b: uint32, mapX: Fix32, mapY: Fix32)
      returns (ws: seq<Unit>)
    requires n < |us| && n != i && Alone(us, i, j, a, b) && CanStep(us, n, mapX, mapY)
    ensures |ws| == |us| && CanStep(ws, n + 1, mapX, mapY) && Alone(ws, i, j, a, b)
    ensures StepUnits(us, n, mapX, mapY) == StepUnits(ws, n + 1, mapX, mapY)
    ensures i < |us| && j < |us| && ws[i] == us[i] && ws[j] == us[j]
  {
    hide NeverPanics;
    CanStepNext(us, n, mapX, mapY);
    ws := StepUnit(us, n, mapX, mapY);
    OthersTurn(us, n, i, j, a, b, mapX, mapY);
    hide StepUnits, StepUnit, CanStep, TurnSafe, Spared, StrictlyOrdered;
  }

  lemma EndOfTick(us: seq<Unit>, mapX: Fix32, mapY: Fix32)
    ensures CanStep(us, |us|, mapX, mapY) && StepUnits(us, |us|, mapX, mapY) == us
  {
  }

  /** When the attacker's turn is over, the rest of the tick leaves both alone. */
  lemma {:induction false} RestOfTick(
      us: seq<Unit>, n: nat, i: nat, j: nat, a: uint32, b: uint32, mapX: Fix32, mapY: Fix32)
    requires i < n <= |us| && j < |us| && Alone(us, i, j, a, b) && CanStep(us, n, mapX, mapY)
    ensures var vs := StepUnits(us, n, mapX, mapY);
            vs[i] == us[i] && vs[j] == us[j] && Alone(vs, i, j, a, b)
    decreases |us| - n
  {
    if n == |us| {
      EndOfTick(us, mapX, mapY);
    }
    hide CanStep, Alone, StepUnits;
    if n < |us| {
      var ws := NextOther(us, n, i, j, a, b, mapX, mapY);
      RestOfTick(ws, n + 1, i, j, a, b, mapX, mapY);
    }
  }

  lemma PairIsAlone(us: seq<Unit>, i: nat, j: nat, a: uint32, b: uint32)
    requires Pair(us, i, j, a, b)
    ensures Alone(us, i, j, a, b)
  {
  }

  lemma StaysPair(us: seq<Unit>, vs: seq<Unit>, i: nat, j: nat, a: uint32, b: uint32)
    requires Pair(us, i, j, a, b) && Alone(vs, i, j, a, b) && vs[i] == us[i] && vs[j] == us[j]
    ensures Pair(vs, i, j, a, b)
  {
  }

  /** The attacker's own turn. */
  lemma PairTurn(us: seq<Unit>, i: nat, j: nat, a: uint32, b: uint32, mapX: Fix32, mapY: Fix32)
    requires Pair(us, i, j, a, b)
    ensures TurnSafe(us, i)
    ensures var vs := StepUnit(us, i, mapX, mapY); Attacks(us[i], us[j], vs[i], vs[j]) && Alone(vs, i, j, a, b)
  {
    FindUnique(us, j);
    AttackTurn(us, i, mapX, mapY);
    var vs := StepUnit(us, i, mapX, mapY);
    assert forall m :: 0 <= m < |us| && m != i && m != j ==> vs[m] == us[m];
    hide StepUnit, TurnSafe, Find;
  }

  lemma FromOwnTurn(us: seq<Unit>, i: nat, j: nat, a: uint32, b: uint32, mapX: Fix32, mapY: Fix32)
    requires Pair(us, i, j, a, b) && CanStep(us, i, mapX, mapY)
    ensures var vs := StepUnits(us, i, mapX, mapY);
            i < |vs| && j < |vs| && Attacks(us[i], us[j], vs[i], vs[j]) && Alone(vs, i, j, a, b)
  {
    hide NeverPanics;
    CanStepNext(us, i, mapX, mapY);
    PairTurn(us, i, j, a, b, mapX, mapY);
    hide StepUnits, StepUnit, CanStep, TurnSafe, Alone, Pair, Attacks;
    RestOfTick(StepUnit(us, i, mapX, mapY), i + 1, i, j, a, b, mapX, mapY);
  }

  /** Over the turns from n on, up to the attacker's own and beyond, the pair does what an attack does. */
  lemma {:induction false} PairTicks(
      us: seq<Unit>, n: nat, i: nat, j: nat, a: uint32, b: uint32, mapX: Fix32, mapY: Fix32)
    requires n <= i && Pair(us, i, j, a, b) && CanStep(us, n, mapX, mapY)
    ensures var vs := StepUnits(us, n, mapX, mapY);
            i < |vs| && j < |vs| && Attacks(us[i], us[j], vs[i], vs[j]) && Alone(vs, i, j, a, b)
    decreases i - n
  {
    hide NeverPanics;
    if n == i {
      FromOwnTurn(us, i, j, a, b, mapX, mapY);
    } else {
      PairIsAlone(us, i, j, a, b);
      assert n < |us|;
      hide StepUnits, CanStep, Alone, Pair, Attacks;
      var ws := NextOther(us, n, i, j, a, b, mapX, mapY);
      StaysPair(us, ws, i, j, a, b);
      PairTicks(ws, n + 1, i, j, a, b, mapX, mapY);
    }
  }

  // ----- ticks -----

  /** Nobody commands either of the two, and nobody is ordered to attack either. */
  predicate Undisturbed(cs: seq<Cmd>, a: uint32, ownerA: uint8, b: uint32, ownerB: uint8) {
    LeftAlone(cs, a, ownerA) && LeftAlone(cs, b, ownerB)
    && forall c :: c in cs && c.op == 2 ==> c.targetID != a && c.targetID != b
  }

  lemma {:induction false} CommandsSpare(us: seq<Unit>, cs: seq<Cmd>, i: nat, a: uint32, b: uint32)
    requires Spared(us, i, a, b) && a != 0 && b != 0
    requires forall c :: c in cs && c.op == 2 ==> c.targetID != a && c.targetID != b
    ensures Spared(ApplyCmds(us, cs), i, a, b)
    decreases |cs|
  {
    if cs != [] {
      assert cs[0] in cs;
      var vs := ApplyCmd(us, cs[0]);
      assert forall k :: 0 <= k < |us| ==>
          vs[k].targetID == us[k].targetID || vs[k].targetID == 0 || (cs[0].op == 2
              && vs[k].targetID == cs[0].targetID);
      CommandsSpare(vs, cs[1..], i, a, b);
    }
  }

  lemma CommandsKeepPair(us: seq<Unit>, cs: seq<Cmd>, i: nat, j: nat, a: uint32, b: uint32)
    requires Pair(us, i, j, a, b) && Undisturbed(cs, a, us[i].owner, b, us[j].owner)
    ensures var vs := ApplyCmds(us, cs); |vs| == |us| && vs[i] == us[i] && vs[j] == us[j] && Pair(vs, i, j, a, b)
  {
    OrdersPerUnit(us, cs, i);
    OrdersPerUnit(us, cs, j);
    NoOrders(us[i], cs);
    NoOrders(us[j], cs);
    CommandsSpare(us, cs, i, a, b);
    ApplyKeepsUnits(us, cs);
  }

  /** Removal of the dead keeps a living pair. */
  lemma AlivePair(vs: seq<Unit>, i: nat, j: nat, a: uint32, b: uint32)
    requires Alone(vs, i, j, a, b) && vs[i].state != 2 && vs[j].state != 2
    ensures var r := Alive(vs);
            var k, l := Find(r, a), Find(r, b);
            && k < |r| && l < |r| && r[k] == vs[i] && r[l] == vs[j] && k != l
            && StrictlyOrdered(r) && Spared(r, k, a, b)
  {
    FindSurvivor(vs, i);
    FindSurvivor(vs, j);
    AliveOrdered(vs);
    AliveMembers(vs);
    var r := Alive(vs);
    var k := Find(r, a);
    forall m | 0 <= m < |r| && m != k ensures r[m].targetID != a && r[m].targetID != b {
      assert r[m] in r;
      var n :| 0 <= n < |vs| && vs[n] == r[m];
      assert r[m].id != a;
    }
  }

  /** The target is gone; or the attacker is in range, or at most n raw units of Manhattan distance away. */
  ghost predicate Hunting(w: WorldState, a: uint32, b: uint32, n: int) {
    var i, j := Find(w.units, a), Find(w.units, b);
    j < |w.units| ==>
      && Pair(w.units, i, j, a, b)
      && (InRange(w.units[i].pos, w.units[j].pos) || Manhattan(w.units[i].pos, w.units[j].pos) <= n)
  }

  /** What one tick does to the target's health. */
  ghost predicate HealthFalls(w: WorldState, v: WorldState, a: uint32, b: uint32) {
    var i, j, l := Find(w.units, a), Find(w.units, b), Find(v.units, b);
    i < |w.units| && j < |w.units| ==>
      if !InRange(w.units[i].pos, w.units[j].pos) then l < |v.units| && v.units[l].hp == w.units[j].hp
      else if w.units[j].hp <= 0x8000 then l == |v.units|
      else l < |v.units| && v.units[l].hp == w.units[j].hp - 0x8000
  }

  lemma HuntTick(w: WorldState, cs: seq<Cmd>, a: uint32, b: uint32, n: int)
    requires Settled(w) && Hunting(w, a, b, n)
    requires var i, j := Find(w.units, a), Find(w.units, b);
             j < |w.units| ==> Undisturbed(cs, a, w.units[i].owner, b, w.units[j].owner)
    ensures StepSafe(w, cs)
    ensures Hunting(Step(w, cs), a, b, n - 1) && HealthFalls(w, Step(w, cs), a, b)
    ensures var v, j := Step(w, cs), Find(w.units, b);
            Find(v.units, b) < |v.units| ==>
              && j < |w.units| && v.units[Find(v.units, b)].owner == w.units[j].owner
              && v.units[Find(v.units, a)].owner == w.units[Find(w.units, a)].owner
  {
    OnMapIsPanicFree(w.units, w.mapX, w.mapY);
    var i, j := Find(w.units, a), Find(w.units, b);
    if j == |w.units| {
      NoNewUnits(w, cs, b);
    } else {
      HuntPhases(w, cs, i, j, a, b);
      StepKeepsSettled(w, cs);
    }
  }

  /** The tick of a pair: the attack, and the removal of the target if it died. */
  lemma HuntPhases(w: WorldState, cs: seq<Cmd>, i: nat, j: nat, a: uint32, b: uint32)
    requires Settled(w) && StepSafe(w, cs) && Pair(w.units, i, j, a, b)
    requires Undisturbed(cs, a, w.units[i].owner, b, w.units[j].owner)
    ensures var r := Step(w, cs).units;
            var k, l := Find(r, a), Find(r, b);
            exists v: Unit, x: Unit :: Attacks(w.units[i], w.units[j], v, x)
              && (x.state == 2 ==> l == |r|)
              && (x.state != 2 ==> k < |r| && l < |r| && r[k] == v && r[l] == x && k != l)
              && (x.state != 2 ==> StrictlyOrdered(r) && Spared(r, k, a, b))
  {
    var us := PhasesOfSound(w, cs);
    CommandsKeepPair(w.units, cs, i, j, a, b);
    PairTicks(us, 0, i, j, a, b, w.mapX, w.mapY);
    var vs := StepUnits(us, 0, w.mapX, w.mapY);
    assert Attacks(w.units[i], w.units[j], vs[i], vs[j]);
    if vs[j].state == 2 {
      FindUnique(vs, j);
      FindDead(vs, b);
    } else {
      AlivePair(vs, i, j, a, b);
    }
  }

  // ----- runs -----

  /** The two have these owners, as long as the target is there. */
  ghost predicate Owned(w: WorldState, a: uint32, ownerA: uint8, b: uint32, ownerB: uint8) {
    var i, j := Find(w.units, a), Find(w.units, b);
    j < |w.units| ==> i < |w.units| && w.units[i].owner == ownerA && w.units[j].owner == ownerB
  }

  lemma SamePlaceInRange(p: Vec2)
    ensures InRange(p, p)
  {
    assert VSub(p, p) == Vec2(0, 0);
    assert Mul(0, 0) == 0;
  }

  /** No distance left means in range. */
  lemma ArrivedInRange(w: WorldState, a: uint32, b: uint32, n: int)
    requires Hunting(w, a, b, n) && n <= 0
    ensures var i, j := Find(w.units, a), Find(w.units, b);
            j < |w.units| ==> i < |w.units| && InRange(w.units[i].pos, w.units[j].pos)
  {
    var i, j := Find(w.units, a), Find(w.units, b);
    if j < |w.units| {
      SamePlaceInRange(w.units[j].pos);
      assert Manhattan(w.units[i].pos, w.units[j].pos) <= 0 ==> w.units[i].pos == w.units[j].pos;
    }
  }

  /** The hits that fall in t ticks, when the first n of them may be needed to get into range. */
  function Hits(t: nat, n: int): nat {
    if n <= 0 then t else if t <= n then 0 else t - n
  }

  ghost predicate HealthAtMost(w: WorldState, b: uint32, h: int) {
    var j := Find(w.units, b);
    j < |w.units| ==> w.units[j].hp <= h
  }

  lemma {:induction false} HuntRun(
      w: WorldState, css: seq<seq<Cmd>>, a: uint32, ownerA: uint8, b: uint32, ownerB: uint8, n: int, h: int)
    requires Settled(w) && Hunting(w, a, b, n) && Owned(w, a, ownerA, b, ownerB) && HealthAtMost(w, b, h)
    requires forall t :: 0 <= t < |css| ==> Undisturbed(css[t], a, ownerA, b, ownerB)
    ensures PanicFree(w.units) && Hunting(Play(w, css), a, b, n - |css|)
    ensures HealthAtMost(Play(w, css), b, h - 0x8000 * Hits(|css|, n))
    decreases |css|
  {
    OnMapIsPanicFree(w.units, w.mapX, w.mapY);
    if css != [] {
      var v := Step(w, css[0]);
      HuntTick(w, css[0], a, b, n);
      StepKeepsSettled(w, css[0]);
      HealthNext(w, v, a, b, n, h);
      assert Owned(v, a, ownerA, b, ownerB);
      hide Hunting, Owned, HealthAtMost, HealthFalls, Step, Undisturbed, NeverPanics;
      HuntRun(v, css[1..], a, ownerA, b, ownerB, n - 1, h - 0x8000 * Hits(1, n));
      assert Hits(|css|, n) == Hits(1, n) + Hits(|css| - 1, n - 1);
    }
  }

  lemma HealthNext(w: WorldState, v: WorldState, a: uint32, b: uint32, n: int, h: int)
    requires Hunting(w, a, b, n) && HealthFalls(w, v, a, b) && HealthAtMost(w, b, h)
    requires Find(v.units, b) < |v.units| ==> Find(w.units, b) < |w.units|
    ensures HealthAtMost(v, b, h - 0x8000 * Hits(1, n))
  {
    if n <= 0 {
      ArrivedInRange(w, a, b, n);
    }
  }

  /** The target's health is positive as long as it is there. */
  lemma HuntedLives(w: WorldState, a: uint32, b: uint32, n: int, h: int)
    requires Hunting(w, a, b, n) && HealthAtMost(w, b, h) && h <= 0
    ensures Find(w.units, b) == |w.units|
  {
  }

  /** Attacks succeed: against a target that stays put, and with nobody interfering, an attacker on the map is within
      range, or its target is gone, after its Manhattan distance in ticks; and the target is gone after one more tick
      for each 0.5 of its health. */
  lemma AttackSucceeds(w: WorldState, css: seq<seq<Cmd>>, i: nat, j: nat)
    requires Settled(w) && i < |w.units| && j < |w.units| && Pair(w.units, i, j, w.units[i].id, w.units[j].id)
    requires forall t :: 0 <= t < |css| ==>
               Undisturbed(css[t], w.units[i].id, w.units[i].owner, w.units[j].id, w.units[j].owner)
    ensures PanicFree(w.units)
    ensures var a, b, n := w.units[i].id, w.units[j].id, Manhattan(w.units[i].pos, w.units[j].pos);
            var r := Play(w, css).units;
            && (|css| >= n ==>
                  Find(r, b) == |r| || (Find(r, a) < |r| && InRange(r[Find(r, a)].pos, r[Find(r, b)].pos)))
            && (0x8000 * (|css| - n) >= w.units[j].hp ==> Find(r, b) == |r|)
  {
    var u, t := w.units[i], w.units[j];
    var n := Manhattan(u.pos, t.pos);
    FindUnique(w.units, i);
    FindUnique(w.units, j);
    HuntRun(w, css, u.id, u.owner, t.id, t.owner, n, t.hp);
    var r := Play(w, css);
    hide Play, HealthAtMost, Hunting;
    if |css| >= n {
      ArrivedInRange(r, u.id, t.id, n - |css|);
    }
    if 0x8000 * (|css| - n) >= t.hp {
      assert Hits(|css|, n) == |css| - n;
      HuntedLives(r, u.id, t.id, n - |css|, t.hp - 0x8000 * Hits(|css|, n));
    }
  }
}
