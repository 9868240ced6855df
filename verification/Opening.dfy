/** The units a match starts with, and what the main results say of such a match. */
module Opening {
  import opened Words
  import opened Fixed
  import opened Vectors
  import opened Sim
  import opened SimWorld
  import opened SimInvariants
  import opened Replication
  import opened Match
  import RoomRuns

  const UNITS_PER_PLAYER := 5

  function StartPos(pid: nat, i: nat): Vec2 {
    Vec2(FromInt(I32(10 + pid * 80)), FromInt(I32(10 + i * 3)))
  }

  function WithUnits(w: WorldState, pid: nat, n: nat): WorldState {
    if n == 0 then w else Spawned(WithUnits(w, pid, n - 1), pid % 256, StartPos(pid, n - 1), FromInt(10), HALF)
  }

  function WithPlayers(w: WorldState, players: nat, per: nat): WorldState {
    if players == 0 then w else WithUnits(WithPlayers(w, players - 1, per), players - 1, per)
  }

  function OpeningOf(seed: uint64, mapW: int32, mapH: int32, players: nat): WorldState {
    WithPlayers(NewWorldState(seed, mapW, mapH), players, UNITS_PER_PLAYER)
  }

  /** The room runs this loop for its player count, the client for two players; both with five units per player. */
  method SpawnInitialUnits(world: World, playerCount: nat, unitsPerPlayer: nat)
    modifies world
    ensures world.State() == WithPlayers(old(world.State()), playerCount, unitsPerPlayer)
  {
    for pid := 0 to playerCount
      invariant world.State() == WithPlayers(old(world.State()), pid, unitsPerPlayer)
    {
      ghost var w := world.State();
      for i := 0 to unitsPerPlayer
        invariant world.State() == WithUnits(w, pid, i)
      {
        var x := FromInt(I32(10 + pid * 80));
        var y := FromInt(I32(10 + i * 3));
        var _ := world.SpawnUnit(pid % 256, Vec2(x, y), FromInt(10), HALF);
      }
    }
  }

  /** A world with n units, all from spawns at the opening's speed. */
  ghost predicate Fresh(w: WorldState, n: nat) {
    && |w.units| == n && w.nextID == n + 1 && Sound(w)
    && forall k :: 0 <= k < n ==> w.units[k].speed == HALF
  }

  lemma {:induction false} UnitsAreFresh(w: WorldState, pid: nat, n: nat, m: nat)
    requires Fresh(w, m) && m + n + 2 < TWO_TO_THE_32
    ensures Fresh(WithUnits(w, pid, n), m + n)
    ensures WithUnits(w, pid, n).mapX == w.mapX && WithUnits(w, pid, n).mapY == w.mapY
  {
    if n > 0 {
      UnitsAreFresh(w, pid, n - 1, m);
    }
  }

  lemma {:induction false} PlayersAreFresh(w: WorldState, players: nat)
    requires Fresh(w, 0) && 5 * players + 2 < TWO_TO_THE_32
    ensures Fresh(WithPlayers(w, players, 5), 5 * players)
    ensures WithPlayers(w, players, 5).mapX == w.mapX && WithPlayers(w, players, 5).mapY == w.mapY
  {
    if players > 0 {
      PlayersAreFresh(w, players - 1);
      UnitsAreFresh(WithPlayers(w, players - 1, 5), players - 1, 5, 5 * (players - 1));
    }
  }

  /** Unit number k of a match: the players' groups of five in order, 80 apart along x and the units 3 apart along y,
      from (10, 10) on, each with 10.0 health and the speed 0.5. */
  predicate StartsAs(u: Unit, k: nat) {
    && u.id == k + 1 && u.owner == (k / 5) % 256
    && u.pos.x == (10 + 80 * (k / 5)) * 65536 && u.pos.y == (10 + 3 * (k % 5)) * 65536
    && u.hp == 655360 && u.maxHP == 655360 && u.speed == 32768
    && u.state == 0 && u.targetID == 0 && u.moveTo.x == 0 && u.moveTo.y == 0
  }

  lemma {:induction false} UnitsStart(w: WorldState, pid: nat, n: nat)
    requires pid < 410 && n <= 5 && |w.units| == 5 * pid && w.nextID == 5 * pid + 1
    requires forall k :: 0 <= k < |w.units| ==> StartsAs(w.units[k], k)
    ensures var v := WithUnits(w, pid, n);
            && v == w.(units := v.units, nextID := w.nextID + n) && |v.units| == 5 * pid + n
            && forall k :: 0 <= k < |v.units| ==> StartsAs(v.units[k], k)
  {
    if n > 0 {
      UnitsStart(w, pid, n - 1);
      var k := 5 * pid + n - 1;
      assert k / 5 == pid && k % 5 == n - 1;
      assert StartsAs(WithUnits(w, pid, n).units[k], k);
    }
  }

  lemma {:induction false} PlayersStart(w: WorldState, players: nat)
    requires players <= 410 && w.units == [] && w.nextID == 1
    ensures var v := WithPlayers(w, players, 5);
            && v == w.(units := v.units, nextID := 5 * players + 1) && |v.units| == 5 * players
            && forall k :: 0 <= k < |v.units| ==> StartsAs(v.units[k], k)
  {
    if players > 0 {
      PlayersStart(w, players - 1);
      UnitsStart(WithPlayers(w, players - 1, 5), players - 1, 5);
    }
  }

  /** What a match starts with, field by field; from 411 players on the positions do not fit their type. */
  lemma OpeningWorld(seed: uint64, mapW: int32, mapH: int32, players: nat)
    requires players <= 410 && 0 <= mapW <= 32767 && 0 <= mapH <= 32767
    ensures var w := OpeningOf(seed, mapW, mapH, players);
            && w.tick == 0 && w.seed == seed && w.rand == seed && w.nextID == 5 * players + 1
            && w.mapX == mapW * 65536 && w.mapY == mapH * 65536 && |w.units| == 5 * players
            && forall k :: 0 <= k < |w.units| ==> StartsAs(w.units[k], k)
  {
    PlayersStart(NewWorldState(seed, mapW, mapH), players);
  }

  lemma OpeningIsReady(seed: uint64, mapW: int32, mapH: int32, players: nat)
    requires 5 * players + 2 < TWO_TO_THE_32
    ensures Fresh(OpeningOf(seed, mapW, mapH, players), 5 * players)
    ensures PanicFree(OpeningOf(seed, mapW, mapH, players).units)
  {
    PlayersAreFresh(NewWorldState(seed, mapW, mapH), players);
    SafeIsPanicFree(HALF);
  }

  /** The client, which spawns for two players, starts from the room's world if and only if the room is for two. */
  lemma SameOpening(seed: uint64, mapW: int32, mapH: int32, players: nat)
    requires 5 * players + 2 < TWO_TO_THE_32
    ensures OpeningOf(seed, mapW, mapH, players) == OpeningOf(seed, mapW, mapH, 2) <==> players == 2
  {
    OpeningIsReady(seed, mapW, mapH, players);
    OpeningIsReady(seed, mapW, mapH, 2);
  }

  lemma {:induction false} PlayStaysOnMap(w: WorldState, css: seq<seq<Cmd>>)
    requires 0 <= w.mapX && 0 <= w.mapY && AllOnMap(w.units, w.mapX, w.mapY) && PanicFree(w.units) && Sound(w)
    ensures AllOnMap(Play(w, css).units, w.mapX, w.mapY) && Sound(Play(w, css))
    decreases |css|
  {
    if css != [] {
      StepStaysOnMap(w, css[0]);
      StepKeepsSound(w, css[0]);
      StepKeepsPanicFree(w, css[0]);
      PlayStaysOnMap(Step(w, css[0]), css[1..]);
    }
  }

  lemma {:induction false} UnitsOnMap(w: WorldState, pid: nat, n: nat)
    requires AllOnMap(w.units, w.mapX, w.mapY) && pid <= 1 && n <= 5 && w.mapX >= 90 * 0x1_0000
        && w.mapY >= 22 * 0x1_0000
    ensures var v := WithUnits(w, pid, n); v.mapX == w.mapX && v.mapY == w.mapY && AllOnMap(v.units, v.mapX, v.mapY)
  {
    if n > 0 {
      UnitsOnMap(w, pid, n - 1);
      assert OnMap(StartPos(pid, n - 1), w.mapX, w.mapY);
      assert SafeSpeed(HALF);
    }
  }

  /** All units of a match of two start on the map, if it is at least 90 by 22; the largest side that fits is 32767. */
  lemma OpeningOnMap(seed: uint64, mapW: int32, mapH: int32)
    requires 90 <= mapW <= 32767 && 22 <= mapH <= 32767
    ensures var w := OpeningOf(seed, mapW, mapH, 2); 0 <= w.mapX && 0 <= w.mapY && AllOnMap(w.units, w.mapX, w.mapY)
  {
    var w := NewWorldState(seed, mapW, mapH);
    UnitsOnMap(w, 0, 5);
    UnitsOnMap(WithUnits(w, 0, 5), 1, 5);
    assert WithPlayers(w, 1, 5) == WithUnits(WithPlayers(w, 0, 5), 0, 5);
    assert WithPlayers(w, 2, 5) == WithUnits(WithPlayers(w, 1, 5), 1, 5);
  }

  /** Every unit on the map, healthy and in order. */
  predicate InOrderOnMap(w: WorldState, mapX: Fix32, mapY: Fix32) {
    Sound(w) && AllOnMap(w.units, mapX, mapY)
  }

  /** A match of two on such a map, without interruption: in every interleaving both clients are in step with the
      server, the room detects no desync, and no world ever loses a unit off the map or breaks an invariant of the
      units. */
  lemma MatchOfTwo(seed: uint64, mapW: int32, mapH: int32, es: seq<Entry>, hs: seq<Happening>)
    requires 90 <= mapW <= 32767 && 22 <= mapH <= 32767 && |es| == 2
    ensures PanicFree(OpeningOf(seed, mapW, mapH, 2).units)
    ensures var w0 := OpeningOf(seed, mapW, mapH, 2);
            var s := Reached(NewMatch(w0, 2, es), hs);
            BoundedMatch(s) && Uninterrupted(es, hs, s) ==>
              && AllInStep(w0, s) && NoDesync(s.run.room.slots)
              && InOrderOnMap(s.run.room.world, w0.mapX, w0.mapY)
              && forall q :: 0 <= q < 2 ==> InOrderOnMap(s.links[q].client.replica.world, w0.mapX, w0.mapY)
  {
    hide NeverPanics, Step, OnMap;
    OpeningIsReady(seed, mapW, mapH, 2);
    OpeningOnMap(seed, mapW, mapH);
    var w0 := OpeningOf(seed, mapW, mapH, 2);
    var s := Reached(NewMatch(w0, 2, es), hs);
    hide OpeningOf, Reached, NewMatch;
    if BoundedMatch(s) && Uninterrupted(es, hs, s) {
      UninterruptedMatch(w0, 2, es, hs);
      PlayerMissesNothing(w0, 2, es, hs, 0);
      var css := RoomRuns.Orders(s.run.frames);
      PlayStaysOnMap(w0, css[..|css|]);
      forall q | 0 <= q < 2 ensures InOrderOnMap(s.links[q].client.replica.world, w0.mapX, w0.mapY) {
        assert InStep(w0, View(s, q));
        PlayStaysOnMap(w0, css[..s.links[q].client.replica.lastTick]);
      }
    }
  }
}
