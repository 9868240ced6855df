/** What the room guarantees to one of its players: the client's world is the server's, in every interleaving. The
    random state of a world is left out of this, as the client draws from its own; neither a tick nor the hash reads
    it. */
module Replication {
  import opened Words
  import opened Endpoints
  import opened Wire
  import opened FakeClient
  import opened Hashes
  import opened RoomRuns
  import opened EndToEnd
  import P = Protocol
  import Rooms
  import Transport
  import Sim
  import Hash

  /** Room and client start from the same world, over a fresh connection, with the room sending to the player or not
      yet. */
  datatype Setup = Setup(
    w0: Sim.WorldState, playerCount: int, me: uint8, joined: bool, connID: uint16, capA: nat, capB: nat)

  ghost predicate Ready(s: Setup) {
    Sim.PanicFree(s.w0.units)
  }

  ghost function Final(s: Setup, acts: seq<Action>): (g: Game)
    requires Ready(s)
    ensures Playing(g)
  {
    Played(NewGame(s.w0, s.playerCount, s.me, s.joined, s.connID, s.capA, s.capB), acts)
  }

  lemma FinalNext(s: Setup, acts: seq<Action>)
    requires Ready(s) && acts != []
    ensures Final(s, acts) == Done(Final(s, acts[..|acts| - 1]), acts[|acts| - 1])
  {
  }

  lemma BoundedBefore(g: Game, act: Action)
    requires Playing(g) && Bounded(Done(g, act))
    ensures Bounded(g)
  {
    GrowsOnly(g, act);
    var h := Done(g, act);
    forall k | 0 <= k < |g.run.frames| ensures |g.run.frames[k].cmds| <= 2978 {
      assert h.run.frames[..|g.run.frames|][k] == g.run.frames[k];
    }
  }

  ghost predicate Shorter(s: P.Sys, r: P.Sys) {
    |s.a.h.log| <= |r.a.h.log| && |s.b.h.log| <= |r.b.h.log|
  }

  lemma MovesGrowOnly(g: Game, ev: P.Event, tick: nat)
    ensures Shorter(g.net, ServerMoves(g, ev, tick).net) && Shorter(g.net, ClientMoves(g, ev).net)
  {
    P.LogsGrow(g.net, P.Move(false, ev));
    P.LogsGrow(g.net, P.Move(true, ev));
  }

  lemma ClientTookGrowsOnly(g: Game, outcome: Outcome, now: int)
    requires Playing(g)
    ensures var h := ClientTook(g, outcome, now);
            Shorter(g.net, h.net) && h.run == g.run
  {
    MovesGrowOnly(g, P.Dispatch, 0);
    var h := ClientMoves(g, P.Dispatch);
    if g.net.b.ep.inbox != [] && IsFrame(g.net.b.ep.inbox[0]) {
      var ack := ReportOf(h.client.replica, FrameIn(g.net.b.ep.inbox[0]));
      MovesGrowOnly(h, P.Send(Wire.EncodeOf(HashMsg(ack)), outcome, now), 0);
    }
  }

  lemma ServerTookGrowsOnly(g: Game)
    requires Playing(g)
    ensures var h := ServerTook(g);
            Shorter(g.net, h.net) && h.run.frames == g.run.frames
  {
    MovesGrowOnly(g, P.Dispatch, 0);
  }

  lemma SealedGrowsOnly(g: Game, n: uint8, outcome: Outcome, now: int)
    requires Playing(g)
    ensures var h := SealedAndSent(g, n, outcome, now);
            Shorter(g.net, h.net) && h.run.frames == g.run.frames + [Rooms.NextFrame(g.run.room, n)]
  {
    var fb := Rooms.NextFrame(g.run.room, n);
    MovesGrowOnly(g, P.Send(Wire.EncodeOf(FrameMsg(fb)), outcome, now), fb.tick);
  }

  lemma GrowsOnly(g: Game, act: Action)
    requires Playing(g)
    ensures var h := Done(g, act);
            && Shorter(g.net, h.net)
            && |g.run.frames| <= |h.run.frames| && h.run.frames[..|g.run.frames|] == g.run.frames
  {
    hide Sim.NeverPanics, SealedAndSent, ClientTook, ServerTook;
    match act
    case Net(m) => MovesGrowOnly(g, m.ev, 0);
    case ServerDispatch => ServerTookGrowsOnly(g);
    case Seal(n, outcome, now) => SealedGrowsOnly(g, n, outcome, now);
    case ClientDispatch(outcome, now) => ClientTookGrowsOnly(g, outcome, now);
    case _ =>
  }

  /** The invariant holds in every run within the bounds. */
  lemma {:induction false} EveryGame(s: Setup, acts: seq<Action>)
    requires Ready(s) && Bounded(Final(s, acts))
    ensures EndToEnd.Inv(s.w0, Final(s, acts))
  {
    if acts == [] {
      StartsRight(s);
    } else {
      var before, act := Final(s, acts[..|acts| - 1]), acts[|acts| - 1];
      BoundedBefore(before, act);
      EveryGame(s, acts[..|acts| - 1]);
      ActionKeepsInv(s.w0, before, act);
    }
  }

  lemma StartsRight(s: Setup)
    requires Ready(s)
    ensures EndToEnd.Inv(s.w0, Final(s, []))
  {
    P.NewSysInv(s.connID, s.capA, s.capB);
    RoomRuns.EveryRun(s.w0, s.playerCount, false, [], []);
    assert Sim.Play(s.w0, []) == s.w0;
  }

  // ----- the client's world -----

  /** The command lists of a match with those of the missed ticks left out. */
  function Blanked(css: seq<seq<Sim.Cmd>>, ran: set<nat>): (r: seq<seq<Sim.Cmd>>)
    ensures |r| == |css|
  {
    seq(|css|, k requires 0 <= k < |css| => if k + 1 in ran then css[k] else [])
  }

  lemma OrdersBlanked(orders: seq<seq<Sim.Cmd>>, ran: set<nat>, frames: seq<FrameBundle>)
    requires OrdersOK(orders, ran, frames)
    ensures orders == Blanked(Orders(frames)[..|orders|], ran)
  {
    var r := Blanked(Orders(frames)[..|orders|], ran);
    forall k | 0 <= k < |orders| ensures orders[k] == r[k] {
      var t := k + 1;
      assert orders[t - 1] == if t in ran then Orders(frames)[t - 1] else [];
    }
  }

  /** The copy is what the match makes of w0 with the missed ticks left out. */
  ghost predicate RunsWhatItGot(w0: Sim.WorldState, c: Copy, frames: seq<FrameBundle>)
    requires Sim.PanicFree(w0.units)
  {
    var css := Blanked(Orders(frames), c.ran);
    && c.replica.lastTick <= |frames|
    && Sim.SameButRand(c.replica.world, Sim.Play(w0, css[..c.replica.lastTick]))
    && (forall ha :: ha in c.reports ==>
          1 <= ha.tick <= c.replica.lastTick && ha.hash == Hash.HashOf(Sim.Play(w0, css[..ha.tick])))
  }

  lemma CopyRunsWhatItGot(w0: Sim.WorldState, c: Copy, frames: seq<FrameBundle>)
    requires Sim.PanicFree(w0.units) && CopyOK(w0, c, frames)
    ensures RunsWhatItGot(w0, c, frames)
  {
    var css := Blanked(Orders(frames), c.ran);
    OrdersBlanked(c.orders, c.ran, frames);
    assert css[..|c.orders|] == c.orders;
    forall ha | ha in c.reports
      ensures 1 <= ha.tick <= c.replica.lastTick && ha.hash == Hash.HashOf(Sim.Play(w0, css[..ha.tick]))
    {
      assert ReportRight(w0, c.orders, ha);
      assert css[..ha.tick] == c.orders[..ha.tick];
    }
  }

  /** Whatever the client missed, its world is exactly the result of the frames it got, at their own ticks, with idle
      ticks in between; and each hash it reported for a tick is that of its world after that tick. */
  lemma ClientRunsWhatItGot(s: Setup, acts: seq<Action>)
    requires Ready(s) && Bounded(Final(s, acts))
    ensures RunsWhatItGot(s.w0, Final(s, acts).client, Final(s, acts).run.frames)
  {
    EveryGame(s, acts);
    hide Bounded, Final, CopyOK, RunsWhatItGot;
    CopyRunsWhatItGot(s.w0, Final(s, acts).client, Final(s, acts).run.frames);
  }

  // ----- exactly when that is the server's world -----

  /** Each tick that the client has passed without its frame changed the server's world as an idle tick would have. */
  ghost predicate Harmless(w0: Sim.WorldState, frames: seq<FrameBundle>, ran: set<nat>, last: nat)
    requires Sim.PanicFree(w0.units)
  {
    forall t :: 1 <= t <= last && t <= |frames| && t !in ran ==>
      WorldAt(w0, frames, t) == Sim.Step(WorldAt(w0, frames, t - 1), [])
  }

  /** After each of these ticks the frames that the client got, with idle ticks between, lead to the server's world. */
  ghost predicate SameThroughout(w0: Sim.WorldState, frames: seq<FrameBundle>, ran: set<nat>, last: nat)
    requires Sim.PanicFree(w0.units) && last <= |frames|
  {
    forall n :: 0 <= n <= last ==> Sim.Play(w0, Blanked(Orders(frames), ran)[..n]) == WorldAt(w0, frames, n)
  }

  lemma PlayNext(w0: Sim.WorldState, css: seq<seq<Sim.Cmd>>, n: nat)
    requires Sim.PanicFree(w0.units) && n < |css|
    ensures Sim.Play(w0, css[..n + 1]) == Sim.Step(Sim.Play(w0, css[..n]), css[n])
  {
    assert css[..n + 1] == css[..n] + [css[n]];
    Sim.PlaySplit(w0, css[..n], [css[n]]);
    OneTick(Sim.Play(w0, css[..n]), [css[n]]);
  }

  /** These commands do in this tick what those of the match do. */
  ghost predicate KeepsPace(w0: Sim.WorldState, css: seq<seq<Sim.Cmd>>, k: nat, cs: seq<Sim.Cmd>)
    requires Sim.PanicFree(w0.units) && k < |css|
  {
    Sim.Play(w0, css[..k + 1]) == Sim.Step(Sim.Play(w0, css[..k]), cs)
  }

  lemma {:induction false} PaceIsSame(w0: Sim.WorldState, css: seq<seq<Sim.Cmd>>, bss: seq<seq<Sim.Cmd>>, n: nat)
    requires Sim.PanicFree(w0.units) && n <= |css| == |bss|
    requires forall k :: 0 <= k < n ==> KeepsPace(w0, css, k, bss[k])
    ensures Sim.Play(w0, bss[..n]) == Sim.Play(w0, css[..n])
  {
    if n == 0 {
      assert bss[..0] == css[..0];
    } else {
      PaceIsSame(w0, css, bss, n - 1);
      PlayNext(w0, bss, n - 1);
      assert KeepsPace(w0, css, n - 1, bss[n - 1]);
    }
  }

  lemma SameIsPace(w0: Sim.WorldState, css: seq<seq<Sim.Cmd>>, bss: seq<seq<Sim.Cmd>>, k: nat)
    requires Sim.PanicFree(w0.units) && k < |css| == |bss|
    requires Sim.Play(w0, bss[..k]) == Sim.Play(w0, css[..k])
    requires Sim.Play(w0, bss[..k + 1]) == Sim.Play(w0, css[..k + 1])
    ensures KeepsPace(w0, css, k, bss[k])
  {
    PlayNext(w0, bss, k);
  }

  /** Harmless, seen from the command lists. */
  lemma HarmlessAt(w0: Sim.WorldState, frames: seq<FrameBundle>, ran: set<nat>, k: nat)
    requires Sim.PanicFree(w0.units) && k < |frames|
    ensures KeepsPace(w0, Orders(frames), k, Blanked(Orders(frames), ran)[k]) <==>
            k + 1 in ran || WorldAt(w0, frames, k + 1) == Sim.Step(WorldAt(w0, frames, k), [])
  {
    PlayNext(w0, Orders(frames), k);
  }

  /** The client is in step at every tick if and only if every frame it missed was harmless: something that the room can
      see when it seals the frame. */
  lemma SameExactlyWhenHarmless(w0: Sim.WorldState, frames: seq<FrameBundle>, ran: set<nat>, last: nat)
    requires Sim.PanicFree(w0.units) && last <= |frames|
    ensures SameThroughout(w0, frames, ran, last) <==> Harmless(w0, frames, ran, last)
  {
    var css, bss := Orders(frames), Blanked(Orders(frames), ran);
    hide Orders, Blanked, Sim.Play, Sim.Step, KeepsPace;
    if Harmless(w0, frames, ran, last) {
      forall n | 0 <= n <= last ensures Sim.Play(w0, bss[..n]) == WorldAt(w0, frames, n) {
        forall k | 0 <= k < n ensures KeepsPace(w0, css, k, bss[k]) {
          var t := k + 1;
          assert t !in ran ==> WorldAt(w0, frames, t) == Sim.Step(WorldAt(w0, frames, t - 1), []);
          HarmlessAt(w0, frames, ran, k);
        }
        PaceIsSame(w0, css, bss, n);
      }
    }
    if SameThroughout(w0, frames, ran, last) {
      forall t | 1 <= t <= last && t !in ran
        ensures WorldAt(w0, frames, t) == Sim.Step(WorldAt(w0, frames, t - 1), [])
      {
        SameIsPace(w0, css, bss, t - 1);
        HarmlessAt(w0, frames, ran, t - 1);
      }
    }
  }

  ghost predicate MissedHarmless(w0: Sim.WorldState, g: Game)
    requires Sim.PanicFree(w0.units)
  {
    Harmless(w0, g.run.frames, g.client.ran, g.client.replica.lastTick)
  }

  /** After every tick it has executed, the client's world was the server's after the same number of ticks. */
  ghost predicate AlwaysInStep(w0: Sim.WorldState, g: Game)
    requires Sim.PanicFree(w0.units)
  {
    && g.client.replica.lastTick <= |g.run.frames|
    && SameThroughout(w0, g.run.frames, g.client.ran, g.client.replica.lastTick)
  }

  /** The client's world is, but for random draws, the server's after the same number of ticks, and each hash it
      reported for a tick is the hash of the server's world at that tick. */
  ghost predicate InStep(w0: Sim.WorldState, g: Game)
    requires Sim.PanicFree(w0.units)
  {
    && g.client.replica.lastTick <= |g.run.frames|
    && Sim.SameButRand(g.client.replica.world, WorldAt(w0, g.run.frames, g.client.replica.lastTick))
    && (forall ha :: ha in g.client.reports ==>
          1 <= ha.tick <= |g.run.frames| && ha.hash == Hash.HashOf(WorldAt(w0, g.run.frames, ha.tick)))
  }

  /** End to end: in every interleaving of command arrival, sealing, loss, duplication, reordering, retransmission and
      dispatch, a client is in step with the server at all its ticks if and only if every frame it missed was harmless;
      and then so are its world and its reports. */
  lemma ReplicaInStep(s: Setup, acts: seq<Action>)
    requires Ready(s) && Bounded(Final(s, acts))
    ensures AlwaysInStep(s.w0, Final(s, acts)) <==> MissedHarmless(s.w0, Final(s, acts))
    ensures MissedHarmless(s.w0, Final(s, acts)) ==> InStep(s.w0, Final(s, acts))
  {
    ClientRunsWhatItGot(s, acts);
    hide Bounded, Final, Harmless;
    var g := Final(s, acts);
    SameExactlyWhenHarmless(s.w0, g.run.frames, g.client.ran, g.client.replica.lastTick);
    if MissedHarmless(s.w0, g) {
      SameIsInStep(s.w0, g);
    }
  }

  lemma SameIsInStep(w0: Sim.WorldState, g: Game)
    requires Sim.PanicFree(w0.units) && RunsWhatItGot(w0, g.client, g.run.frames) && AlwaysInStep(w0, g)
    ensures InStep(w0, g)
  {
    var css := Blanked(Orders(g.run.frames), g.client.ran);
    forall ha | ha in g.client.reports
      ensures 1 <= ha.tick <= |g.run.frames| && ha.hash == Hash.HashOf(WorldAt(w0, g.run.frames, ha.tick))
    {
      assert Sim.Play(w0, css[..ha.tick]) == WorldAt(w0, g.run.frames, ha.tick);
    }
  }

  /** Every frame that the client has passed without getting it had no commands. */
  ghost predicate MissedOnlyEmpty(g: Game) {
    forall t :: 1 <= t <= g.client.replica.lastTick && t <= |g.run.frames| && t !in g.client.ran ==>
      g.run.frames[t - 1].cmds == []
  }

  /** Empty frames are harmless. */
  lemma EmptyIsHarmless(w0: Sim.WorldState, g: Game)
    requires Sim.PanicFree(w0.units) && MissedOnlyEmpty(g)
    ensures MissedHarmless(w0, g)
  {
    var frames := g.run.frames;
    forall t | 1 <= t <= g.client.replica.lastTick && t <= |frames| && t !in g.client.ran
      ensures WorldAt(w0, frames, t) == Sim.Step(WorldAt(w0, frames, t - 1), [])
    {
      PlayNext(w0, Orders(frames), t - 1);
      assert frames[t - 1].cmds == [] && ToSimAll([]) == [];
    }
  }

  lemma SlotsOfGame(s: Setup, acts: seq<Action>)
    requires Ready(s) && Bounded(Final(s, acts))
    ensures var g := Final(s, acts);
            && OwnReports(g.run.room.slots, g.me, g.client.reports)
            && (forall t :: t in g.run.room.slots ==> SlotOK(g.run.room.slots[t]))
  {
    EveryGame(s, acts);
    hide P.Inv, NetOK, CopyOK, RanConsumed, OwnReports, Final;
  }

  // ----- when nothing is missed -----

  /** The room sends to the player from before the first tick and never stops. */
  ghost predicate AlwaysJoined(s: Setup, acts: seq<Action>) {
    s.joined && forall k :: 0 <= k < |acts| ==> acts[k] != Connect(false)
  }

  /** Every frame has been given a number of the server's sequence space. */
  ghost predicate AllCarried(g: Game) {
    g.joined && |g.carry| == |g.net.a.h.log| && forall t :: 1 <= t <= |g.run.frames| ==> t in g.carry
  }

  lemma MoveKeepsCarried(g: Game, m: P.Move)
    requires AllCarried(g) && Free(m)
    ensures AllCarried(if m.flipped then ClientMoves(g, m.ev) else ServerMoves(g, m.ev, 0))
  {
    ActedShows(g.net.a, m.ev);
    ActedShows(g.net.b, m.ev);
  }

  lemma SealKeepsCarried(g: Game, n: uint8, outcome: Outcome, now: int)
    requires Playing(g) && AllCarried(g) && g.run.room.tick == |g.run.frames| < TWO_TO_THE_32 - 1
    ensures AllCarried(SealedAndSent(g, n, outcome, now))
  {
    var h := SealedAndSent(g, n, outcome, now);
    ActedShows(g.net.a, P.Send(Wire.EncodeOf(FrameMsg(Rooms.NextFrame(g.run.room, n))), outcome, now));
    assert h.run.frames == g.run.frames + [Rooms.NextFrame(g.run.room, n)];
    assert h.carry == g.carry + [|g.run.frames| + 1];
    assert h.carry[|g.carry|] == |g.run.frames| + 1;
  }

  lemma ServerTookKeepsCarried(g: Game)
    requires Playing(g) && AllCarried(g)
    ensures AllCarried(ServerTook(g))
  {
    ActedShows(g.net.a, P.Dispatch);
  }

  lemma ClientTookKeepsCarried(g: Game, outcome: Outcome, now: int)
    requires Playing(g) && AllCarried(g)
    ensures AllCarried(ClientTook(g, outcome, now))
  {
    hide P.Acted;
  }

  lemma ActionKeepsCarried(g: Game, act: Action)
    requires Playing(g) && AllCarried(g) && act != Connect(false)
    requires g.run.room.tick == |g.run.frames| && |Done(g, act).run.frames| < TWO_TO_THE_32
    ensures AllCarried(Done(g, act))
  {
    match act
    case Net(m) => if Free(m) { MoveKeepsCarried(g, m); }
    case Seal(n, outcome, now) =>
      assert |SealedAndSent(g, n, outcome, now).run.frames| == |g.run.frames| + 1;
      SealKeepsCarried(g, n, outcome, now);
    case ServerDispatch => ServerTookKeepsCarried(g);
    case ClientDispatch(outcome, now) => ClientTookKeepsCarried(g, outcome, now);
    case _ =>
  }

  lemma TickOfGame(s: Setup, acts: seq<Action>)
    requires Ready(s) && Bounded(Final(s, acts))
    ensures Final(s, acts).run.room.tick == |Final(s, acts).run.frames|
  {
    EveryGame(s, acts);
  }

  lemma {:induction false} JoinedCarriesAll(s: Setup, acts: seq<Action>)
    requires Ready(s) && Bounded(Final(s, acts)) && AlwaysJoined(s, acts)
    ensures AllCarried(Final(s, acts))
  {
    if acts != [] {
      var g, act := Final(s, acts[..|acts| - 1]), acts[|acts| - 1];
      BoundedBefore(g, act);
      JoinedCarriesAll(s, acts[..|acts| - 1]);
      TickOfGame(s, acts[..|acts| - 1]);
      hide AllCarried, Done;
      ActionKeepsCarried(g, act);
    }
  }

  /** What was taken is the beginning of the log, with no gap. */
  ghost predicate TakenFrom(consumed: seq<Bytes>, log: seq<P.Slot>) {
    && |consumed| <= |log|
    && (forall k :: 0 <= k < |consumed| ==> consumed[k] == P.WireLog(log)[k] && log[k].Tracked?)
  }

  lemma TakenFromLog(g: Game)
    requires P.Inv(g.net) && g.net.b.h.hints == 0 && !g.net.b.h.overflowed
    ensures TakenFrom(g.net.b.h.consumed, g.net.a.h.log)
  {
    var log, c, d := g.net.a.h.log, g.net.b.h.consumed, g.net.b.h.delivered;
    Transport.LinkInOrder(g.net.a, g.net.b, g.net.ab, g.net.ba);
    assert d == P.WireLog(log)[..|d|] && c + g.net.b.ep.inbox == d;
    forall k | 0 <= k < |c| ensures c[k] == P.WireLog(log)[k] && log[k].Tracked? {
      assert c[k] == d[k];
      assert P.IsTracked(log, k + 1);
    }
  }

  /** The frame in a slot that the client has got to has been executed. */
  lemma SlotExecuted(c: seq<Bytes>, log: seq<P.Slot>, carry: seq<nat>, frames: seq<FrameBundle>, ran: set<nat>, j: nat)
    requires ServerLog(log, carry, frames) && Numbered(frames) && TakenFrom(c, log) && RanConsumed(ran, c)
    requires j < |c| && carry[j] > 0
    ensures carry[j] in ran
  {
    LogInOrder(log, carry, frames);
    assert c[j] == P.WireLog(log)[j];
  }

  /** So has every frame sent before an executed one. */
  lemma RanIsClosed(c: seq<Bytes>, log: seq<P.Slot>, carry: seq<nat>, frames: seq<FrameBundle>, ran: set<nat>,
      last: nat, t: nat)
    requires ServerLog(log, carry, frames) && Numbered(frames) && TakenFrom(c, log) && RanConsumed(ran, c)
    requires last in ran && t in carry && 1 <= t <= last
    ensures t in ran
  {
    var i :| 0 <= i < |c| && IsFrame(c[i]) && FrameIn(c[i]).tick == last;
    LogInOrder(log, carry, frames);
    assert c[i] == P.WireLog(log)[i] && carry[i] == last;
    var j :| 0 <= j < |carry| && carry[j] == t;
    SlotExecuted(c, log, carry, frames, ran, j);
  }

  /** What a game in which the room always sends and the client's inbox never overflows consists of. */
  ghost predicate Unbroken(g: Game) {
    && ServerLog(g.net.a.h.log, g.carry, g.run.frames) && Numbered(g.run.frames)
    && TakenFrom(g.net.b.h.consumed, g.net.a.h.log) && RanConsumed(g.client.ran, g.net.b.h.consumed)
    && (forall t :: 1 <= t <= |g.run.frames| ==> t in g.carry)
    && OrdersOK(g.client.orders, g.client.ran, g.run.frames) && |g.client.orders| == g.client.replica.lastTick
  }

  lemma JoinedIsUnbroken(s: Setup, acts: seq<Action>)
    requires Ready(s) && Bounded(Final(s, acts)) && AlwaysJoined(s, acts) && !Final(s, acts).net.b.h.overflowed
    ensures Unbroken(Final(s, acts))
  {
    EveryGame(s, acts);
    JoinedCarriesAll(s, acts);
    BoundedNumbered(s.w0, Final(s, acts));
    TakenFromLog(Final(s, acts));
    hide P.Inv, ServerLog, Final, Numbered, TakenFrom, RanConsumed, OrdersOK, RoomRuns.Inv, OwnReports;
  }

  lemma CarriedExecuted(c: seq<Bytes>, log: seq<P.Slot>, carry: seq<nat>, frames: seq<FrameBundle>, ran: set<nat>,
      t: nat)
    requires ServerLog(log, carry, frames) && Numbered(frames) && TakenFrom(c, log) && RanConsumed(ran, c)
    requires |c| == |log| && t in carry && t > 0
    ensures t in ran
  {
    var j :| 0 <= j < |carry| && carry[j] == t;
    SlotExecuted(c, log, carry, frames, ran, j);
  }

  /** Then the client misses nothing; and once it has taken every message, it has executed every frame. */
  lemma UnbrokenMissesNothing(g: Game)
    requires Unbroken(g)
    ensures forall t :: 1 <= t <= g.client.replica.lastTick ==> t in g.client.ran
    ensures |g.net.b.h.consumed| == |g.net.a.h.log| ==> g.client.replica.lastTick == |g.run.frames|
  {
    var c, log, last := g.net.b.h.consumed, g.net.a.h.log, g.client.replica.lastTick as nat;
    hide ServerLog, Numbered, TakenFrom, RanConsumed;
    forall t | 1 <= t <= last ensures t in g.client.ran {
      RanIsClosed(c, log, g.carry, g.run.frames, g.client.ran, last, t);
    }
    if |c| == |log| && |g.run.frames| > 0 {
      CarriedExecuted(c, log, g.carry, g.run.frames, g.client.ran, |g.run.frames|);
    }
  }

  lemma WorldIsCurrent(s: Setup, acts: seq<Action>)
    requires Ready(s) && Bounded(Final(s, acts))
    ensures var g := Final(s, acts); g.run.room.world == WorldAt(s.w0, g.run.frames, |g.run.frames|)
  {
    EveryGame(s, acts);
    hide P.Inv, NetOK, CopyOK, RanConsumed, OwnReports, Final;
  }

  /** End to end, for a client that joined before the first tick and whose inbox never overflowed: it is in step with
      the server; and once it has taken everything the server has sent, its world is the server's current one. */
  lemma JoinedReplicaInStep(s: Setup, acts: seq<Action>)
    requires Ready(s) && Bounded(Final(s, acts)) && AlwaysJoined(s, acts) && !Final(s, acts).net.b.h.overflowed
    ensures var g := Final(s, acts);
            && InStep(s.w0, g)
            && (|g.net.b.h.consumed| == |g.net.a.h.log| ==>
                  && g.client.replica.lastTick == |g.run.frames|
                  && Sim.SameButRand(g.client.replica.world, g.run.room.world))
  {
    JoinedIsUnbroken(s, acts);
    UnbrokenMissesNothing(Final(s, acts));
    WorldIsCurrent(s, acts);
    hide Bounded, Final, AlwaysJoined, Unbroken, MissedHarmless, AlwaysInStep;
    EmptyIsHarmless(s.w0, Final(s, acts));
    ReplicaInStep(s, acts);
  }
}
