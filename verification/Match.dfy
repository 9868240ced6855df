/** A whole match: one room and any number of players, each with its own connection, network and client. */
module Match {
  import opened Words
  import opened Endpoints
  import opened Wire
  import opened Hashes
  import opened RoomRuns
  import opened EndToEnd
  import opened Replication
  import P = Protocol
  import Rooms
  import Sim
  import Hash

  /** One player's part of a match. */
  datatype Link = Link(net: P.Sys, joined: bool, carry: seq<nat>, client: Copy)

  datatype System = System(run: Run, links: seq<Link>)

  datatype Sending = Sending(outcome: Outcome, now: int)

  datatype Happening =
    | By(player: nat, act: Action)                // an action at one player's connection
    | SealAll(n: uint8, sends: seq<Sending>)      // the room seals a tick and sends the frame to all who joined

  /** The actions that one player's connection is part of, and the others are not. */
  predicate Own(act: Action) {
    !act.Seal? && !act.Other?
  }

  ghost predicate Going(s: System) {
    && Playable(s.run) && |s.links| <= 256
    && forall q :: 0 <= q < |s.links| ==> Sim.PanicFree(s.links[q].client.replica.world.units)
  }

  /** The match as it looks from player q's connection. */
  function View(s: System, q: nat): Game
    requires q < |s.links| <= 256
  {
    var l := s.links[q];
    Game(l.net, s.run, q, l.joined, l.carry, l.client)
  }

  function LinkOf(g: Game): Link {
    Link(g.net, g.joined, g.carry, g.client)
  }

  ghost function SentTo(s: System, q: nat, n: uint8, send: Sending): Game
    requires Going(s) && q < |s.links|
  {
    SealedAndSent(View(s, q), n, send.outcome, send.now)
  }

  ghost function Happened(s: System, h: Happening): (r: System)
    requires Going(s)
    ensures Going(r) && |r.links| == |s.links|
  {
    match h
    case By(p, act) =>
      if p < |s.links| && Own(act) then
        var g := Done(View(s, p), act);
        System(g.run, s.links[p := LinkOf(g)])
      else s
    case SealAll(n, sends) =>
      if |sends| != |s.links| then s
      else System(After(s.run, RoomRuns.Seal(n)),
                  seq(|s.links|, q requires 0 <= q < |s.links| => LinkOf(SentTo(s, q, n, sends[q]))))
  }

  ghost function Reached(s: System, hs: seq<Happening>): (r: System)
    requires Going(s)
    ensures Going(r) && |r.links| == |s.links|
  {
    if hs == [] then s else Happened(Reached(s, hs[..|hs| - 1]), hs[|hs| - 1])
  }

  /** How a player enters the match: whether the room sends to it from the start, and its connection. */
  datatype Entry = Entry(joined: bool, connID: uint16, capA: nat, capB: nat)

  function NewMatch(w0: Sim.WorldState, playerCount: int, es: seq<Entry>): System {
    System(NewRun(w0, playerCount, false, []),
           seq(|es|, q requires 0 <= q < |es| =>
             LinkOf(NewGame(w0, playerCount, 0, es[q].joined, es[q].connID, es[q].capA, es[q].capB))))
  }

  function SetupOf(w0: Sim.WorldState, playerCount: int, es: seq<Entry>, q: nat): Setup
    requires q < |es| <= 256
  {
    Setup(w0, playerCount, q, es[q].joined, es[q].connID, es[q].capA, es[q].capB)
  }

  // ----- each player's view of a match is a game of its own -----

  /** What player q sees of something that happens: at most one action. */
  ghost predicate Sees(s: System, q: nat, h: Happening, acts: seq<Action>)
    requires Going(s) && q < |s.links|
  {
    && (acts == [] ==> View(Happened(s, h), q) == View(s, q))
    && (acts != [] ==> |acts| == 1 && View(Happened(s, h), q) == Done(View(s, q), acts[0]))
    && (acts == [Connect(false)] ==> h == By(q, Connect(false)))
  }

  /** What a message from one player is to another. */
  function Overheard(p: uint8, d: Bytes): seq<Action> {
    match Wire.DecodeOf(d)
    case Ok(CmdMsg(c)) => [Order(c)]
    case Ok(HashMsg(ha)) => [Other(p, ha)]
    case _ => []
  }

  function SeenOf(s: System, q: nat, p: nat, act: Action): seq<Action>
    requires q < |s.links| <= 256 && p < |s.links|
  {
    if p == q || act.Order? then [act]
    else if act.ServerDispatch? && s.links[p].net.a.ep.inbox != [] then Overheard(p, s.links[p].net.a.ep.inbox[0])
    else []
  }

  lemma OthersRun(g: Game, act: Action)
    requires Playing(g) && Own(act)
    ensures Done(g, act).run ==
            (if act.Order? then After(g.run, Arrive(act.cmd))
             else if act.ServerDispatch? && g.net.a.ep.inbox != [] then Handled(g.run, g.me, g.net.a.ep.inbox[0])
             else g.run)
  {
  }

  lemma SeesAction(s: System, q: nat, p: nat, act: Action)
    requires Going(s) && q < |s.links| && p < |s.links| && Own(act)
    ensures Sees(s, q, By(p, act), SeenOf(s, q, p, act))
  {
    hide Sim.NeverPanics;
    OthersRun(View(s, p), act);
    hide P.Moved;
    var r := Happened(s, By(p, act));
    if p == q {
      assert View(r, q) == Done(View(s, p), act);
    } else {
      assert r.links[q] == s.links[q];
    }
  }

  lemma SeesSeal(s: System, q: nat, n: uint8, sends: seq<Sending>)
    requires Going(s) && q < |s.links| == |sends|
    ensures Sees(s, q, SealAll(n, sends), [EndToEnd.Seal(n, sends[q].outcome, sends[q].now)])
  {
  }

  lemma Seen(s: System, q: nat, h: Happening) returns (acts: seq<Action>)
    requires Going(s) && q < |s.links|
    ensures Sees(s, q, h, acts)
  {
    acts := [];
    match h
    case By(p, act) =>
      if p < |s.links| && Own(act) {
        SeesAction(s, q, p, act);
        acts := SeenOf(s, q, p, act);
      }
    case SealAll(n, sends) =>
      if |sends| == |s.links| {
        SeesSeal(s, q, n, sends);
        acts := [EndToEnd.Seal(n, sends[q].outcome, sends[q].now)];
      }
  }

  ghost predicate NeverLeaves(es: seq<Entry>, hs: seq<Happening>, q: nat)
    requires q < |es|
  {
    es[q].joined && forall k :: 0 <= k < |hs| ==> hs[k] != By(q, Connect(false))
  }

  /** Every run of a match is, from each player's connection, a run of its game with the room. */
  lemma {:induction false} Projects(w0: Sim.WorldState, playerCount: int, es: seq<Entry>, hs: seq<Happening>, q: nat)
    returns (acts: seq<Action>)
    requires Sim.PanicFree(w0.units) && q < |es| <= 256
    ensures Final(SetupOf(w0, playerCount, es, q), acts) == View(Reached(NewMatch(w0, playerCount, es), hs), q)
    ensures NeverLeaves(es, hs, q) ==> AlwaysJoined(SetupOf(w0, playerCount, es, q), acts)
  {
    hide Sim.NeverPanics;
    var s := SetupOf(w0, playerCount, es, q);
    if hs == [] {
      acts := [];
    } else {
      var m := |hs| - 1;
      var before := Projects(w0, playerCount, es, hs[..m], q);
      var more := Seen(Reached(NewMatch(w0, playerCount, es), hs[..m]), q, hs[m]);
      hide P.Moved, Done, Happened, NewMatch;
      acts := if more == [] then before else before + more;
      if more != [] {
        FinalAppend(s, before, more[0]);
        assert before + more == before + [more[0]];
      }
      assert NeverLeaves(es, hs, q) ==> NeverLeaves(es, hs[..m], q);
    }
  }

  lemma FinalAppend(s: Setup, acts: seq<Action>, act: Action)
    requires Ready(s)
    ensures Final(s, acts + [act]) == Done(Final(s, acts), act)
    ensures AlwaysJoined(s, acts) && act != Connect(false) ==> AlwaysJoined(s, acts + [act])
  {
    FinalNext(s, acts + [act]);
    assert (acts + [act])[..|acts|] == acts;
  }

  // ----- only players report -----

  ghost predicate KnownReporters(slots: Slots, n: nat) {
    forall t, p :: t in slots && p in slots[t].hashes ==> p as nat < n
  }

  lemma HandledKnown(u: Run, me: uint8, d: Bytes, n: nat)
    requires Playable(u) && KnownReporters(u.room.slots, n) && me as nat < n
    ensures KnownReporters(Handled(u, me, d).room.slots, n)
  {
    match Wire.DecodeOf(d)
    case Ok(HashMsg(ha)) =>
      var after := Reported(u.room.slots, ha.tick, me, ha.hash).0;
      forall t, p | t in after && p in after[t].hashes ensures p as nat < n {
        assert p == me || (t in u.room.slots && p in u.room.slots[t].hashes);
      }
    case _ =>
  }

  lemma HappenedKnown(s: System, h: Happening)
    requires Going(s) && KnownReporters(s.run.room.slots, |s.links|)
    ensures KnownReporters(Happened(s, h).run.room.slots, |s.links|)
  {
    match h
    case By(p, act) =>
      if p < |s.links| && Own(act) {
        var g := View(s, p);
        OthersRun(g, act);
        if act.ServerDispatch? && g.net.a.ep.inbox != [] {
          HandledKnown(s.run, p, g.net.a.ep.inbox[0], |s.links|);
        }
      }
    case SealAll(n, sends) =>
      SealHashes(s.run.room.slots, s.run.room.playerCount, Inc32(s.run.room.tick));
  }

  lemma {:induction false} ReportersKnown(w0: Sim.WorldState, playerCount: int, es: seq<Entry>, hs: seq<Happening>)
    requires Sim.PanicFree(w0.units) && |es| <= 256
    ensures KnownReporters(Reached(NewMatch(w0, playerCount, es), hs).run.room.slots, |es|)
  {
    if hs != [] {
      ReportersKnown(w0, playerCount, es, hs[..|hs| - 1]);
      HappenedKnown(Reached(NewMatch(w0, playerCount, es), hs[..|hs| - 1]), hs[|hs| - 1]);
    }
  }

  // ----- the guarantees -----

  ghost predicate BoundedMatch(s: System)
    requires |s.links| <= 256
  {
    forall q :: 0 <= q < |s.links| ==> Bounded(View(s, q))
  }

  ghost predicate AllMissedHarmless(w0: Sim.WorldState, s: System)
    requires Sim.PanicFree(w0.units) && |s.links| <= 256
  {
    forall q :: 0 <= q < |s.links| ==> MissedHarmless(w0, View(s, q))
  }

  /** After every tick that any client has executed, its world was the server's after the same number of ticks. */
  ghost predicate AllAlwaysInStep(w0: Sim.WorldState, s: System)
    requires Sim.PanicFree(w0.units) && |s.links| <= 256
  {
    forall q :: 0 <= q < |s.links| ==> AlwaysInStep(w0, View(s, q))
  }

  ghost predicate AllMissedOnlyEmpty(s: System)
    requires |s.links| <= 256
  {
    forall q :: 0 <= q < |s.links| ==> MissedOnlyEmpty(View(s, q))
  }

  /** Every client has, but for random draws, the server's world of the tick it has reached, and has reported the
      server's hashes. */
  ghost predicate AllInStep(w0: Sim.WorldState, s: System)
    requires Sim.PanicFree(w0.units) && |s.links| <= 256
  {
    forall q :: 0 <= q < |s.links| ==> InStep(w0, View(s, q))
  }

  /** Any two clients that have reached the same tick have the same world. */
  ghost predicate ReplicasAgree(s: System) {
    forall p, q :: 0 <= p < |s.links| && 0 <= q < |s.links| ==>
      var v, w := s.links[p].client.replica, s.links[q].client.replica;
      v.lastTick == w.lastTick ==> Sim.SameButRand(v.world, w.world)
  }

  predicate NoDesync(slots: Slots) {
    forall t :: t in slots ==> Agree(slots[t].hashes) && slots[t].state != Desync
  }

  lemma InStepAgree(w0: Sim.WorldState, s: System)
    requires Sim.PanicFree(w0.units) && |s.links| <= 256 && AllInStep(w0, s)
    ensures ReplicasAgree(s)
  {
    forall p, q | 0 <= p < |s.links| && 0 <= q < |s.links|
      && s.links[p].client.replica.lastTick == s.links[q].client.replica.lastTick
      ensures Sim.SameButRand(s.links[p].client.replica.world, s.links[q].client.replica.world)
    {
      assert InStep(w0, View(s, p)) && InStep(w0, View(s, q));
    }
  }

  /** What the room's window holds of a player is what its client reported, and each slot's state is the verdict on
      it. */
  ghost predicate SlotsFor(s: System, q: nat)
    requires q < |s.links| <= 256
  {
    && OwnReports(s.run.room.slots, q, s.links[q].client.reports)
    && forall t :: t in s.run.room.slots ==> SlotOK(s.run.room.slots[t])
  }

  lemma SlotsAgree(w0: Sim.WorldState, s: System)
    requires Sim.PanicFree(w0.units) && |s.links| <= 256 && AllInStep(w0, s)
    requires KnownReporters(s.run.room.slots, |s.links|)
    requires |s.links| > 0 && forall q :: 0 <= q < |s.links| ==> SlotsFor(s, q)
    ensures NoDesync(s.run.room.slots)
  {
    assert SlotsFor(s, 0);
    forall t | t in s.run.room.slots ensures Agree(s.run.room.slots[t].hashes) {
      var hashes := s.run.room.slots[t].hashes;
      forall p | p in hashes
        ensures 1 <= t <= |s.run.frames| && hashes[p] == Hash.HashOf(WorldAt(w0, s.run.frames, t))
      {
        assert SlotsFor(s, p);
        assert HashAck(t, hashes[p]) in View(s, p).client.reports;
        assert InStep(w0, View(s, p));
      }
    }
  }

  lemma PlayerInStep(w0: Sim.WorldState, playerCount: int, es: seq<Entry>, hs: seq<Happening>, q: nat)
    requires Sim.PanicFree(w0.units) && q < |es| <= 256
    requires Bounded(View(Reached(NewMatch(w0, playerCount, es), hs), q))
    ensures var s := Reached(NewMatch(w0, playerCount, es), hs);
            && (AlwaysInStep(w0, View(s, q)) <==> MissedHarmless(w0, View(s, q)))
            && (MissedHarmless(w0, View(s, q)) ==> InStep(w0, View(s, q))) && SlotsFor(s, q)
  {
    var acts := Projects(w0, playerCount, es, hs, q);
    hide Bounded, MissedHarmless, AlwaysInStep, InStep, Final, OwnReports, SlotOK;
    ReplicaInStep(SetupOf(w0, playerCount, es, q), acts);
    SlotsOfGame(SetupOf(w0, playerCount, es, q), acts);
  }

  /** In every run of a match, in whatever interleaving across all players: all clients are in step with the server at
      all their ticks if and only if every frame that any of them missed was harmless. */
  lemma InStepExactlyWhenHarmless(w0: Sim.WorldState, playerCount: int, es: seq<Entry>, hs: seq<Happening>)
    requires Sim.PanicFree(w0.units) && |es| <= 256 && BoundedMatch(Reached(NewMatch(w0, playerCount, es), hs))
    ensures var s := Reached(NewMatch(w0, playerCount, es), hs); AllAlwaysInStep(w0, s) <==> AllMissedHarmless(w0, s)
  {
    var s := Reached(NewMatch(w0, playerCount, es), hs);
    assert |s.links| == |es|;
    hide Bounded, MissedHarmless, AlwaysInStep, InStep, Reached, NewMatch;
    forall q | 0 <= q < |s.links| ensures AlwaysInStep(w0, View(s, q)) <==> MissedHarmless(w0, View(s, q)) {
      PlayerInStep(w0, playerCount, es, hs, q);
    }
  }

  /** And then they are in step with each other too, their reports are right, and the room never detects a desync. */
  lemma EveryReplicaInStep(w0: Sim.WorldState, playerCount: int, es: seq<Entry>, hs: seq<Happening>)
    requires Sim.PanicFree(w0.units) && 1 <= |es| <= 256
    requires var s := Reached(NewMatch(w0, playerCount, es), hs); BoundedMatch(s) && AllMissedHarmless(w0, s)
    ensures var s := Reached(NewMatch(w0, playerCount, es), hs);
            AllInStep(w0, s) && ReplicasAgree(s) && NoDesync(s.run.room.slots)
  {
    var s := Reached(NewMatch(w0, playerCount, es), hs);
    assert |s.links| == |es|;
    hide Bounded, MissedHarmless, AlwaysInStep, InStep, Reached, NewMatch;
    forall q | 0 <= q < |s.links| ensures InStep(w0, View(s, q)) && SlotsFor(s, q) {
      PlayerInStep(w0, playerCount, es, hs, q);
    }
    InStepAgree(w0, s);
    ReportersKnown(w0, playerCount, es, hs);
    assert SlotsFor(s, 0);
    SlotsAgree(w0, s);
  }

  /** In particular when each client missed only empty frames. */
  lemma EmptyFramesMayBeMissed(w0: Sim.WorldState, playerCount: int, es: seq<Entry>, hs: seq<Happening>)
    requires Sim.PanicFree(w0.units) && 1 <= |es| <= 256
    requires var s := Reached(NewMatch(w0, playerCount, es), hs); BoundedMatch(s) && AllMissedOnlyEmpty(s)
    ensures var s := Reached(NewMatch(w0, playerCount, es), hs);
            AllInStep(w0, s) && ReplicasAgree(s) && NoDesync(s.run.room.slots)
  {
    var s := Reached(NewMatch(w0, playerCount, es), hs);
    hide Bounded, MissedHarmless, MissedOnlyEmpty, InStep, Reached, NewMatch;
    forall q | 0 <= q < |s.links| ensures MissedHarmless(w0, View(s, q)) {
      EmptyIsHarmless(w0, View(s, q));
    }
    EveryReplicaInStep(w0, playerCount, es, hs);
  }

  /** Every player joined before the first tick and never left, and no client's inbox overflowed. */
  ghost predicate Uninterrupted(es: seq<Entry>, hs: seq<Happening>, s: System)
    requires |s.links| == |es|
  {
    forall q :: 0 <= q < |es| ==> NeverLeaves(es, hs, q) && !s.links[q].net.b.h.overflowed
  }

  /** Player q has taken every message the server has sent it. */
  predicate TookAll(s: System, q: nat)
    requires q < |s.links|
  {
    |s.links[q].net.b.h.consumed| == |s.links[q].net.a.h.log|
  }

  lemma PlayerMissesNothing(w0: Sim.WorldState, playerCount: int, es: seq<Entry>, hs: seq<Happening>, q: nat)
    requires Sim.PanicFree(w0.units) && q < |es| <= 256
    requires var s := Reached(NewMatch(w0, playerCount, es), hs);
             Bounded(View(s, q)) && NeverLeaves(es, hs, q) && !s.links[q].net.b.h.overflowed
    ensures var s := Reached(NewMatch(w0, playerCount, es), hs);
            && MissedOnlyEmpty(View(s, q))
            && (TookAll(s, q) ==> s.links[q].client.replica.lastTick == |s.run.frames|)
            && s.run.room.world == WorldAt(w0, s.run.frames, |s.run.frames|)
  {
    var acts := Projects(w0, playerCount, es, hs, q);
    JoinedIsUnbroken(SetupOf(w0, playerCount, es, q), acts);
    WorldIsCurrent(SetupOf(w0, playerCount, es, q), acts);
    hide Bounded, NeverLeaves, Final, Unbroken, AlwaysJoined;
    UnbrokenMissesNothing(View(Reached(NewMatch(w0, playerCount, es), hs), q));
  }

  /** Without interruption, every client is in step; the room detects no desync; and each client that has taken
      everything sent to it holds the server's current world. */
  lemma UninterruptedMatch(w0: Sim.WorldState, playerCount: int, es: seq<Entry>, hs: seq<Happening>)
    requires Sim.PanicFree(w0.units) && 1 <= |es| <= 256
    requires var s := Reached(NewMatch(w0, playerCount, es), hs); BoundedMatch(s) && Uninterrupted(es, hs, s)
    ensures var s := Reached(NewMatch(w0, playerCount, es), hs);
            && AllInStep(w0, s) && ReplicasAgree(s) && NoDesync(s.run.room.slots)
            && forall q :: 0 <= q < |es| && TookAll(s, q) ==>
                 Sim.SameButRand(s.links[q].client.replica.world, s.run.room.world)
  {
    var s := Reached(NewMatch(w0, playerCount, es), hs);
    assert |s.links| == |es|;
    hide Bounded, MissedOnlyEmpty, Reached, NewMatch, NeverLeaves, TookAll;
    forall q | 0 <= q < |es|
      ensures MissedOnlyEmpty(View(s, q)) && s.run.room.world == WorldAt(w0, s.run.frames, |s.run.frames|)
      ensures TookAll(s, q) ==> s.links[q].client.replica.lastTick == |s.run.frames|
    {
      PlayerMissesNothing(w0, playerCount, es, hs, q);
    }
    EmptyFramesMayBeMissed(w0, playerCount, es, hs);
    forall q | 0 <= q < |es| && TookAll(s, q)
      ensures Sim.SameButRand(s.links[q].client.replica.world, s.run.room.world)
    {
      assert InStep(w0, View(s, q));
    }
  }
}
