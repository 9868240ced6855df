/** The game between the room and one of its players, as it looks from that player's connection: the room seals frames
    and sends them over the reliable transport, the player's client executes them on its own copy of the world and
    reports hashes back. */
module EndToEnd {
  import opened Words
  import opened Results
  import opened Packets
  import opened Acks
  import opened Retx
  import opened Records
  import opened Endpoints
  import opened Wire
  import opened Rooms
  import opened FakeClient
  import opened Hashes
  import opened RoomRuns
  import P = Protocol
  import Sim
  import Hash

  /** The client, and its history: the command lists it has executed, one per tick; the ticks it has executed with their
      frame; and what it has reported. */
  datatype Copy = Copy(replica: Replica, orders: seq<seq<Sim.Cmd>>, ran: set<nat>, reports: set<HashAck>)

  /** Both connections and the network between them (net.a is the server's end), the room, and the client. `carry` is
      history: the tick of the frame that each number of the server's sequence space was spent on, or 0. */
  datatype Game = Game(net: P.Sys, run: Run, me: uint8, joined: bool, carry: seq<nat>, client: Copy)

  datatype Action =
    | Net(move: P.Move)                             // what network and transport do by themselves, other messages
    | Connect(on: bool)                             // the room starts or stops sending to the player
    | Draw(rand: uint64)                            // the client draws from its world's random generator
    | Order(cmd: Cmd)                               // a command reaches the room from elsewhere
    | Other(player: uint8, ack: HashAck)            // another player's report, of whatever hash, reaches the room
    | Seal(n: uint8, outcome: Outcome, now: int)    // the room seals a tick and sends the frame
    | ServerDispatch                                // the room takes a message from the player's connection
    | ClientDispatch(outcome: Outcome, now: int)    // the client takes a message, and answers a frame with a hash

  predicate IsFrame(d: Bytes) {
    Wire.DecodeOf(d).Ok? && Wire.DecodeOf(d).value.FrameMsg?
  }

  function FrameIn(d: Bytes): FrameBundle
    requires IsFrame(d)
  {
    Wire.DecodeOf(d).value.frame
  }

  predicate IsHash(d: Bytes) {
    Wire.DecodeOf(d).Ok? && Wire.DecodeOf(d).value.HashMsg?
  }

  function HashIn(d: Bytes): HashAck
    requires IsHash(d)
  {
    Wire.DecodeOf(d).value.ack
  }

  /** The moves of the transport that need neither the room's nor the client's loop. Apart from frames the server sends
      any message reliably; apart from hashes the client sends any message either way. */
  predicate Free(m: P.Move) {
    match m.ev
    case Send(d, _, _) => if m.flipped then !IsHash(P.Arriving(d)) else !IsFrame(P.Arriving(d))
    case SendUnreliable(d, _) => m.flipped && !IsHash(P.Arriving(d))
    case Dispatch => false
    case _ => true
  }

  ghost predicate Playing(g: Game) {
    Playable(g.run) && Sim.PanicFree(g.client.replica.world.units)
  }

  /** The server's own moves spend a number on each send. */
  ghost function ServerMoves(g: Game, ev: P.Event, tick: nat): Game {
    g.(net := P.Moved(g.net, P.Move(false, ev)), carry := if ev.Send? then g.carry + [tick] else g.carry)
  }

  ghost function ClientMoves(g: Game, ev: P.Event): Game {
    g.(net := P.Moved(g.net, P.Move(true, ev)))
  }

  /** What the room does with a message from the player. */
  ghost function Handled(u: Run, me: uint8, d: Bytes): (v: Run)
    requires Playable(u)
    ensures Playable(v)
  {
    match Wire.DecodeOf(d)
    case Ok(CmdMsg(c)) => After(u, Arrive(c))
    case Ok(HashMsg(ha)) => After(u, Report(me, ha))
    case _ => u
  }

  ghost function Drawn(c: Copy, r: uint64): Copy {
    c.(replica := c.replica.(world := c.replica.world.(rand := r)))
  }

  ghost function CopyAfter(c: Copy, fb: FrameBundle): (d: Copy)
    requires Sim.PanicFree(c.replica.world.units)
    ensures Sim.PanicFree(d.replica.world.units)
  {
    Copy(AfterFrame(c.replica, fb), c.orders + CatchUp(c.replica.lastTick, fb), c.ran + {fb.tick as nat},
         c.reports + {ReportOf(c.replica, fb)})
  }

  ghost function Executed(g: Game, fb: FrameBundle, outcome: Outcome, now: int): (h: Game)
    requires Playing(g)
    ensures Playing(h)
  {
    var ack := ReportOf(g.client.replica, fb);
    ClientMoves(g, P.Send(Wire.EncodeOf(HashMsg(ack)), outcome, now)).(client := CopyAfter(g.client, fb))
  }

  ghost function SealedAndSent(g: Game, n: uint8, outcome: Outcome, now: int): (h: Game)
    requires Playing(g)
    ensures Playing(h)
  {
    var fb := NextFrame(g.run.room, n);
    var h := g.(run := After(g.run, RoomRuns.Seal(n)));
    if g.joined then ServerMoves(h, P.Send(Wire.EncodeOf(FrameMsg(fb)), outcome, now), fb.tick) else h
  }

  ghost function ServerTook(g: Game): (h: Game)
    requires Playing(g)
    ensures Playing(h)
  {
    var inbox := g.net.a.ep.inbox;
    if inbox == [] then g else ServerMoves(g.(run := Handled(g.run, g.me, inbox[0])), P.Dispatch, 0)
  }

  ghost function ClientTook(g: Game, outcome: Outcome, now: int): (h: Game)
    requires Playing(g)
    ensures Playing(h)
  {
    var inbox, h := g.net.b.ep.inbox, ClientMoves(g, P.Dispatch);
    if inbox == [] then g
    else if IsFrame(inbox[0]) then Executed(h, FrameIn(inbox[0]), outcome, now)
    else h
  }

  ghost function Done(g: Game, act: Action): (h: Game)
    requires Playing(g)
    ensures Playing(h)
  {
    match act
    case Net(m) => if !Free(m) then g else if m.flipped then ClientMoves(g, m.ev) else ServerMoves(g, m.ev, 0)
    case Connect(on) => g.(joined := on)
    case Draw(r) => g.(client := Drawn(g.client, r))
    case Order(c) => g.(run := After(g.run, Arrive(c)))
    case Other(p, ha) => if p == g.me then g else g.(run := After(g.run, Report(p, ha)))
    case Seal(n, outcome, now) => SealedAndSent(g, n, outcome, now)
    case ServerDispatch => ServerTook(g)
    case ClientDispatch(outcome, now) => ClientTook(g, outcome, now)
  }

  ghost function Played(g: Game, acts: seq<Action>): (h: Game)
    requires Playing(g)
    ensures Playing(h)
  {
    if acts == [] then g else Done(Played(g, acts[..|acts| - 1]), acts[|acts| - 1])
  }

  /** Room and client start from the same world over a fresh connection. */
  function NewGame(w0: Sim.WorldState, playerCount: int, me: uint8, joined: bool, connID: uint16, capA: nat,
      capB: nat): Game {
    Game(P.NewSys(connID, capA, capB), NewRun(w0, playerCount, false, []), me, joined, [],
         Copy(Replica(w0, 0), [], {}, {}))
  }

  // ----- the invariant -----

  /** The bounds of the 16-bit and 32-bit fields: no frame above 2978 commands, no sequence number or tick wrapped. */
  predicate Bounded(g: Game) {
    && |g.net.a.h.log| < 0x8000_0000 && |g.net.b.h.log| < 0x8000_0000
    && |g.run.frames| < TWO_TO_THE_32
    && (forall k :: 0 <= k < |g.run.frames| ==> |g.run.frames[k].cmds| <= 2978)
  }

  /** A slot of the server's log holds the frame of the tick it was spent on, or something that is no frame. */
  predicate SlotFits(s: P.Slot, tick: nat, frames: seq<FrameBundle>) {
    && tick <= |frames|
    && (s.Tracked? ==>
          if tick > 0 then s.payload == Wire.EncodeOf(FrameMsg(frames[tick - 1])) else !IsFrame(P.Arriving(s.payload)))
  }

  /** The frames are sent in tick order. */
  ghost predicate ServerLog(log: seq<P.Slot>, carry: seq<nat>, frames: seq<FrameBundle>) {
    && |carry| == |log|
    && (forall i :: 0 <= i < |log| ==> SlotFits(log[i], carry[i], frames))
    && (forall i, j :: 0 <= i < j < |log| && carry[i] > 0 && carry[j] > 0 ==> carry[i] < carry[j])
  }

  ghost predicate ClientLog(log: seq<P.Slot>, reports: set<HashAck>) {
    forall i :: 0 <= i < |log| && log[i].Tracked? ==>
      var d := P.Arriving(log[i].payload);
      IsHash(d) ==> HashIn(d) in reports
  }

  ghost predicate HashesReported(ds: seq<Bytes>, reports: set<HashAck>) {
    forall d :: d in ds && IsHash(d) ==> HashIn(d) in reports
  }

  ghost predicate NetOK(s: P.Sys, carry: seq<nat>, frames: seq<FrameBundle>, reports: set<HashAck>) {
    && ServerLog(s.a.h.log, carry, frames)
    && (forall p :: p in s.ab ==> !CarriesHint(p)) && s.b.h.hints == 0
    && ClientLog(s.b.h.log, reports)
    && (forall p :: p in s.ba && CarriesHint(p) ==> !IsHash(p.payload))
    && HashesReported(s.a.ep.inbox, reports)
  }

  /** The client has executed, tick after tick, each frame that it got, and nothing in the ticks of the frames it
      missed. */
  ghost predicate OrdersOK(orders: seq<seq<Sim.Cmd>>, ran: set<nat>, frames: seq<FrameBundle>) {
    && |orders| <= |frames|
    && (forall t :: 1 <= t <= |orders| ==> orders[t - 1] == if t in ran then Orders(frames)[t - 1] else [])
    && (forall t :: t in ran ==> 1 <= t <= |orders|)
    && (|orders| > 0 ==> |orders| in ran)
  }

  ghost predicate CopyOK(w0: Sim.WorldState, c: Copy, frames: seq<FrameBundle>)
    requires Sim.PanicFree(w0.units)
  {
    && |c.orders| == c.replica.lastTick
    && Sim.SameButRand(c.replica.world, Sim.Play(w0, c.orders))
    && OrdersOK(c.orders, c.ran, frames)
    && (forall ha :: ha in c.reports ==> ReportRight(w0, c.orders, ha))
  }

  ghost predicate ReportRight(w0: Sim.WorldState, orders: seq<seq<Sim.Cmd>>, ha: HashAck)
    requires Sim.PanicFree(w0.units)
  {
    1 <= ha.tick <= |orders| && ha.hash == Hash.HashOf(Sim.Play(w0, orders[..ha.tick]))
  }

  /** The ticks executed with their frame are those of the frames taken from the inbox. */
  ghost predicate RanConsumed(ran: set<nat>, consumed: seq<Bytes>) {
    && (forall i :: 0 <= i < |consumed| && IsFrame(consumed[i]) ==> FrameIn(consumed[i]).tick as nat in ran)
    && (forall t :: t in ran ==>
          exists i :: 0 <= i < |consumed| && IsFrame(consumed[i]) && FrameIn(consumed[i]).tick == t)
  }

  /** Each hash that the room's window holds for the player is one that the client reported. */
  ghost predicate OwnReports(slots: Slots, me: uint8, reports: set<HashAck>) {
    forall t :: t in slots && me in slots[t].hashes ==> HashAck(t, slots[t].hashes[me]) in reports
  }

  ghost predicate Inv(w0: Sim.WorldState, g: Game)
    requires Sim.PanicFree(w0.units)
  {
    && P.Inv(g.net)
    && RoomRuns.Inv(w0, [], g.run)
    && NetOK(g.net, g.carry, g.run.frames, g.client.reports)
    && CopyOK(w0, g.client, g.run.frames)
    && RanConsumed(g.client.ran, g.net.b.h.consumed)
    && OwnReports(g.run.room.slots, g.me, g.client.reports)
  }

  // ----- messages on their way -----

  lemma FrameArrives(fb: FrameBundle)
    requires |fb.cmds| <= 2978
    ensures var d := Wire.EncodeOf(FrameMsg(fb)); P.Arriving(d) == d && IsFrame(d) && FrameIn(d) == fb
  {
    var d := Wire.EncodeOf(FrameMsg(fb));
    PrintLength(CmdBytes, fb.cmds, 22);
    FrameRoundTrip(fb, []);
    assert d + [] == d && d[..|d|] == d;
  }

  lemma ReportArrives(ha: HashAck)
    ensures var d := Wire.EncodeOf(HashMsg(ha)); P.Arriving(d) == d && IsHash(d) && HashIn(d) == ha
  {
    var d := Wire.EncodeOf(HashMsg(ha));
    HashAckRoundTrip(ha, []);
    assert d + [] == d && d[..|d|] == d;
  }

  predicate FromRoom(d: Bytes, frames: seq<FrameBundle>)
    requires IsFrame(d)
  {
    1 <= FrameIn(d).tick <= |frames| && FrameIn(d) == frames[FrameIn(d).tick - 1]
  }

  /** The frames among these messages are frames of the room, in tick order. */
  ghost predicate FramesInOrder(ds: seq<Bytes>, frames: seq<FrameBundle>) {
    && (forall d :: d in ds && IsFrame(d) ==> FromRoom(d, frames))
    && (forall i, j :: 0 <= i < j < |ds| && IsFrame(ds[i]) && IsFrame(ds[j]) ==>
          FrameIn(ds[i]).tick < FrameIn(ds[j]).tick)
  }

  ghost predicate Numbered(frames: seq<FrameBundle>) {
    forall k :: 0 <= k < |frames| ==> frames[k].tick == k + 1 && |frames[k].cmds| <= 2978
  }

  lemma SlotArrives(s: P.Slot, tick: nat, frames: seq<FrameBundle>)
    requires Numbered(frames) && SlotFits(s, tick, frames)
    ensures var d := P.WireLog([s])[0];
            && (IsFrame(d) <==> s.Tracked? && tick > 0)
            && (IsFrame(d) ==> FromRoom(d, frames) && FrameIn(d).tick == tick)
  {
    if s.Tracked? && tick > 0 {
      FrameArrives(frames[tick - 1]);
    }
  }

  lemma LogInOrder(log: seq<P.Slot>, carry: seq<nat>, frames: seq<FrameBundle>)
    requires ServerLog(log, carry, frames) && Numbered(frames)
    ensures FramesInOrder(P.WireLog(log), frames)
    ensures forall i :: 0 <= i < |log| ==>
              && (IsFrame(P.WireLog(log)[i]) <==> log[i].Tracked? && carry[i] > 0)
              && (IsFrame(P.WireLog(log)[i]) ==> FrameIn(P.WireLog(log)[i]).tick == carry[i])
  {
    forall i | 0 <= i < |log|
      ensures && (IsFrame(P.WireLog(log)[i]) <==> log[i].Tracked? && carry[i] > 0)
              && (IsFrame(P.WireLog(log)[i]) ==>
                    FromRoom(P.WireLog(log)[i], frames) && FrameIn(P.WireLog(log)[i]).tick == carry[i])
    {
      SlotArrives(log[i], carry[i], frames);
      assert P.WireLog([log[i]])[0] == P.WireLog(log)[i];
    }
  }

  lemma {:induction false} SubsequenceInOrder(a: seq<Bytes>, b: seq<Bytes>, frames: seq<FrameBundle>)
    requires P.IsSubsequence(a, b) && FramesInOrder(b, frames)
    ensures FramesInOrder(a, frames) && forall d :: d in a ==> d in b
    decreases |b|
  {
    if a != [] {
      var m, n := |a| - 1, |b| - 1;
      if P.IsSubsequence(a, b[..n]) {
        SubsequenceInOrder(a, b[..n], frames);
      } else {
        SubsequenceInOrder(a[..m], b[..n], frames);
        assert a == a[..m] + [a[m]];
        forall i | 0 <= i < m && IsFrame(a[i]) && IsFrame(a[m]) ensures FrameIn(a[i]).tick < FrameIn(a[m]).tick {
          assert a[..m][i] in b[..n];
        }
      }
    }
  }

  /** What the client has taken from its inbox, and what is still in it. */
  lemma ClientGotInOrder(g: Game)
    requires P.Inv(g.net) && NetOK(g.net, g.carry, g.run.frames, g.client.reports) && Numbered(g.run.frames)
    ensures FramesInOrder(g.net.b.h.consumed + g.net.b.ep.inbox, g.run.frames)
  {
    var log, k := g.net.a.h.log, |g.net.b.h.delivered|;
    LogInOrder(log, g.carry, g.run.frames);
    assert g.net.b.h.delivered == P.WireLog(log)[..k];
    assert FramesInOrder(P.WireLog(log)[..k], g.run.frames);
    SubsequenceInOrder(g.net.b.h.entered, g.net.b.h.delivered, g.run.frames);
  }

  // ----- moves of the two ends -----

  lemma EnqueuedMembers(inbox: seq<Bytes>, capacity: nat, ps: seq<Bytes>)
    ensures forall d :: d in Enqueued(inbox, capacity, ps) ==> d in inbox || d in ps
  {
  }

  lemma InboxMembers(y: P.Node, ev: P.Event)
    ensures var z := P.Acted(y, ev).0;
            forall d :: d in z.ep.inbox ==>
              d in y.ep.inbox || d in z.h.delivered || (ev.Receive? && CarriesHint(ev.p) && d == ev.p.payload)
  {
    if ev.Receive? {
      EnqueuedMembers(y.ep.inbox, y.ep.capacity, Delivered(y.ep, ev.p));
      EnqueuedMembers(y.ep.inbox, y.ep.capacity, [ev.p.payload]);
    }
  }

  lemma DeliveredReported(y: P.Node, log: seq<P.Slot>, reports: set<HashAck>)
    requires P.BufferOK(log, y) && ClientLog(log, reports)
    ensures HashesReported(y.h.delivered, reports)
  {
    forall d | d in y.h.delivered && IsHash(d) ensures HashIn(d) in reports {
      var i :| 0 <= i < |y.h.delivered| && y.h.delivered[i] == d;
      assert d == P.WireLog(log)[i];
    }
  }

  lemma ServerMovesKeepInbox(g: Game, ev: P.Event, tick: nat)
    requires P.Inv(ServerMoves(g, ev, tick).net) && NetOK(g.net, g.carry, g.run.frames, g.client.reports)
    ensures HashesReported(ServerMoves(g, ev, tick).net.a.ep.inbox, g.client.reports)
  {
    InboxMembers(g.net.a, ev);
    DeliveredReported(ServerMoves(g, ev, tick).net.a, g.net.b.h.log, g.client.reports);
  }

  /** What a move adds to the log of the end that makes it. */
  function SlotsOf(ev: P.Event): seq<P.Slot> {
    if ev.Send? then [if ev.outcome == Failed then P.Skipped else P.Tracked(ev.payload)]
    else if ev.SendUnreliable? then [P.Skipped]
    else []
  }

  /** How a move of an end shows outside the transport. */
  lemma ActedShows(x: P.Node, ev: P.Event)
    ensures var r := P.Acted(x, ev);
            && r.0.h.log == x.h.log + SlotsOf(ev)
            && r.0.h.hints == (if ev.Receive? && CarriesHint(ev.p) then x.h.hints + 1 else x.h.hints)
            && r.0.h.consumed == (if ev.Dispatch? && x.ep.inbox != [] then x.h.consumed + [x.ep.inbox[0]]
                                  else x.h.consumed)
  {
    assert !ev.Send? && !ev.SendUnreliable? ==> x.h.log + [] == x.h.log;
  }

  lemma RetransmitsNoHint(x: P.Node, xy: set<Packet>, now: int, p: Packet)
    requires p in P.Acted(x, P.Tick(now)).1 && P.SendOK(x, xy)
    ensures !CarriesHint(p)
  {
    P.DataFlags();
    var q :| q in Retransmitted(x.ep, now) && p == P.OnWire(q);
  }

  lemma HintsOf(x: P.Node, xy: set<Packet>, ev: P.Event, p: Packet)
    requires p in P.Acted(x, ev).1 && CarriesHint(p) && P.SendOK(x, xy)
    ensures ev.SendUnreliable? && p.payload == P.Arriving(ev.payload)
  {
    P.DataFlags();
    if ev.Tick? {
      RetransmitsNoHint(x, xy, ev.now, p);
    }
  }

  lemma NetStep(s: P.Sys, m: P.Move)
    requires P.Inv(s) && |P.Moved(s, m).a.h.log| < P.HALF_SPACE && |P.Moved(s, m).b.h.log| < P.HALF_SPACE
    ensures P.Inv(P.Moved(s, m))
  {
    assert [m][..0] == [] && P.Reached(s, []) == s && P.Reached(s, [m]) == P.Moved(s, m);
    P.EveryRun(s, [m]);
  }

  lemma LogAppends(log: seq<P.Slot>, carry: seq<nat>, frames: seq<FrameBundle>, slot: P.Slot, tick: nat)
    requires ServerLog(log, carry, frames) && SlotFits(slot, tick, frames)
        && (tick > 0 ==> forall c :: c in carry ==> c < tick)
    ensures ServerLog(log + [slot], carry + [tick], frames)
  {
    var more := carry + [tick];
    forall i, j | 0 <= i < j < |more| && more[i] > 0 && more[j] > 0 ensures more[i] < more[j] {
      assert i < |log| && more[i] == carry[i] && carry[i] in carry;
    }
  }

  /** A send of the server must be spent on a later frame than all before it, or on no frame. */
  ghost predicate Spends(g: Game, ev: P.Event, tick: nat) {
    ev.Send? ==>
      && SlotFits(P.Tracked(ev.payload), tick, g.run.frames)
      && (tick > 0 ==> forall c :: c in g.carry ==> c < tick)
  }

  lemma ServerMovesKeepNet(g: Game, ev: P.Event, tick: nat)
    requires P.Inv(g.net) && NetOK(g.net, g.carry, g.run.frames, g.client.reports)
    requires !ev.SendUnreliable? && Spends(g, ev, tick)
    requires |ServerMoves(g, ev, tick).net.a.h.log| < P.HALF_SPACE
    ensures var h := ServerMoves(g, ev, tick);
            P.Inv(h.net) && h.net.b == g.net.b && NetOK(h.net, h.carry, g.run.frames, g.client.reports)
  {
    var h := ServerMoves(g, ev, tick);
    NetStep(g.net, P.Move(false, ev));
    ServerMovesKeepInbox(g, ev, tick);
    ActedShows(g.net.a, ev);
    if ev.Send? {
      LogAppends(g.net.a.h.log, g.carry, g.run.frames, SlotsOf(ev)[0], tick);
    }
    forall p | p in h.net.ab ensures !CarriesHint(p) {
      if p !in g.net.ab && CarriesHint(p) {
        HintsOf(g.net.a, g.net.ab, ev, p);
      }
    }
  }

  /** A send of the client must not be a hash that it does not count as reported. */
  ghost predicate Tells(ev: P.Event, reports: set<HashAck>) {
    && (ev.SendUnreliable? ==> !IsHash(P.Arriving(ev.payload)))
    && (ev.Send? && IsHash(P.Arriving(ev.payload)) ==> HashIn(P.Arriving(ev.payload)) in reports)
  }

  lemma ClientMovesKeepNet(g: Game, ev: P.Event)
    requires P.Inv(g.net) && NetOK(g.net, g.carry, g.run.frames, g.client.reports) && Tells(ev, g.client.reports)
    requires |ClientMoves(g, ev).net.b.h.log| < P.HALF_SPACE
    ensures var h := ClientMoves(g, ev);
            P.Inv(h.net) && h.net.a == g.net.a && NetOK(h.net, g.carry, g.run.frames, g.client.reports)
  {
    var h := ClientMoves(g, ev);
    NetStep(g.net, P.Move(true, ev));
    ActedShows(g.net.b, ev);
    forall p | p in h.net.ba && CarriesHint(p) ensures !IsHash(p.payload) {
      if p !in g.net.ba {
        HintsOf(g.net.b, g.net.ba, ev, p);
      }
    }
  }

  // ----- what the room does -----

  lemma ReportKeepsOwn(slots: Slots, me: uint8, reports: set<HashAck>, p: uint8, ha: HashAck)
    requires OwnReports(slots, me, reports) && (p == me ==> ha in reports)
    ensures OwnReports(Reported(slots, ha.tick, p, ha.hash).0, me, reports)
  {
    var after := Reported(slots, ha.tick, p, ha.hash).0;
    assert HashAck(ha.tick, ha.hash) == ha;
    forall t | t in after && me in after[t].hashes
      ensures after[t].hashes[me] == (if t == ha.tick && me == p then ha.hash else slots[t].hashes[me])
    {
    }
  }

  /** A seal adds no hash to the window. */
  lemma SealHashes(slots: Slots, expected: int, tick: uint32)
    ensures var after := SlotsAfterSeal(slots, expected, tick);
            forall t, p :: t in after && p in after[t].hashes ==>
              t in slots && p in slots[t].hashes && after[t].hashes[p] == slots[t].hashes[p]
  {
    var w := WithSlot(slots, WINDOW_SIZE, expected, tick);
    forall t, p | t in w && p in w[t].hashes ensures t in slots && w[t] == slots[t] {
    }
  }

  lemma FramesGrowKeepsCopy(w0: Sim.WorldState, c: Copy, frames: seq<FrameBundle>, fb: FrameBundle)
    requires Sim.PanicFree(w0.units) && CopyOK(w0, c, frames)
    ensures CopyOK(w0, c, frames + [fb])
  {
    OrdersGrow(frames, fb);
  }

  lemma FramesGrowKeepsNet(g: Game, fb: FrameBundle)
    requires NetOK(g.net, g.carry, g.run.frames, g.client.reports)
    ensures NetOK(g.net, g.carry, g.run.frames + [fb], g.client.reports)
  {
  }

  // ----- what the client does -----

  lemma OrdersCatchUp(orders: seq<seq<Sim.Cmd>>, ran: set<nat>, frames: seq<FrameBundle>, lastTick: uint32,
      fb: FrameBundle)
    requires OrdersOK(orders, ran, frames) && |orders| == lastTick
    requires lastTick < fb.tick <= |frames| && fb == frames[fb.tick - 1]
    ensures OrdersOK(orders + CatchUp(lastTick, fb), ran + {fb.tick as nat}, frames)
  {
  }

  lemma ReportsStay(w0: Sim.WorldState, orders: seq<seq<Sim.Cmd>>, more: seq<seq<Sim.Cmd>>, ha: HashAck)
    requires Sim.PanicFree(w0.units) && ReportRight(w0, orders, ha)
    ensures ReportRight(w0, orders + more, ha)
  {
    assert (orders + more)[..ha.tick] == orders[..ha.tick];
  }

  lemma WorldCatchesUp(w0: Sim.WorldState, orders: seq<seq<Sim.Cmd>>, w: Sim.WorldState, more: seq<seq<Sim.Cmd>>)
    requires Sim.PanicFree(w0.units) && Sim.SameButRand(w, Sim.Play(w0, orders))
    ensures Sim.PanicFree(w.units) && Sim.SameButRand(Sim.Play(w, more), Sim.Play(w0, orders + more))
    ensures Hash.HashOf(Sim.Play(w, more)) == Hash.HashOf(Sim.Play(w0, orders + more))
  {
    var v := Sim.Play(w0, orders);
    Sim.PlaySplit(w0, orders, more);
    Sim.PlayIgnoresRand(v, w.rand, more);
    assert w == v.(rand := w.rand);
  }

  lemma ExecuteKeepsCopy(w0: Sim.WorldState, c: Copy, frames: seq<FrameBundle>, fb: FrameBundle)
    requires Sim.PanicFree(w0.units) && Sim.PanicFree(c.replica.world.units) && CopyOK(w0, c, frames)
    requires c.replica.lastTick < fb.tick <= |frames| && fb == frames[fb.tick - 1]
    ensures CopyOK(w0, CopyAfter(c, fb), frames)
  {
    var more := CatchUp(c.replica.lastTick, fb);
    var orders := c.orders + more;
    WorldCatchesUp(w0, c.orders, c.replica.world, more);
    OrdersCatchUp(c.orders, c.ran, frames, c.replica.lastTick, fb);
    forall ha | ha in c.reports ensures ReportRight(w0, orders, ha) {
      ReportsStay(w0, c.orders, more, ha);
    }
    hide Sim.Play, Sim.SameButRand, OrdersOK, Hash.HashOf;
    assert orders[..fb.tick] == orders;
    assert ReportRight(w0, orders, ReportOf(c.replica, fb));
  }

  lemma LaterThanRan(consumed: seq<Bytes>, rest: seq<Bytes>, ran: set<nat>, last: nat, frames: seq<FrameBundle>)
    requires FramesInOrder(consumed + rest, frames) && RanConsumed(ran, consumed)
    requires rest != [] && IsFrame(rest[0]) && (last > 0 ==> last in ran)
    ensures last < FrameIn(rest[0]).tick && FromRoom(rest[0], frames)
  {
    var all := consumed + rest;
    assert all[|consumed|] == rest[0] && rest[0] in all;
    if last > 0 {
      var i :| 0 <= i < |consumed| && IsFrame(consumed[i]) && FrameIn(consumed[i]).tick == last;
      assert all[i] == consumed[i];
    }
  }

  lemma ConsumeKeepsRan(ran: set<nat>, consumed: seq<Bytes>, d: Bytes)
    requires RanConsumed(ran, consumed)
    ensures RanConsumed(if IsFrame(d) then ran + {FrameIn(d).tick as nat} else ran, consumed + [d])
  {
    var all := consumed + [d];
    var r := if IsFrame(d) then ran + {FrameIn(d).tick as nat} else ran;
    forall t | t in r ensures exists i :: 0 <= i < |all| && IsFrame(all[i]) && FrameIn(all[i]).tick == t {
      if t in ran {
        var i :| 0 <= i < |consumed| && IsFrame(consumed[i]) && FrameIn(consumed[i]).tick == t;
        assert all[i] == consumed[i];
      } else {
        assert all[|consumed|] == d;
      }
    }
  }

  // ----- every action keeps the invariant -----

  lemma ServerMovesKeepInv(w0: Sim.WorldState, g: Game, ev: P.Event, tick: nat)
    requires Sim.PanicFree(w0.units) && Inv(w0, g) && Bounded(ServerMoves(g, ev, tick))
    requires !ev.SendUnreliable? && Spends(g, ev, tick)
    ensures Inv(w0, ServerMoves(g, ev, tick))
  {
    ServerMovesKeepNet(g, ev, tick);
  }

  lemma ClientMovesKeepInv(w0: Sim.WorldState, g: Game, ev: P.Event)
    requires Sim.PanicFree(w0.units) && Inv(w0, g) && Bounded(ClientMoves(g, ev)) && Tells(ev, g.client.reports)
        && !ev.Dispatch?
    ensures Inv(w0, ClientMoves(g, ev))
  {
    ClientMovesKeepNet(g, ev);
    ActedShows(g.net.b, ev);
  }

  lemma RoomEventKeepsInv(w0: Sim.WorldState, g: Game, ev: RoomRuns.Event)
    requires Sim.PanicFree(w0.units) && Playable(g.run) && Inv(w0, g)
    requires match ev
             case Arrive(_) => true
             case Report(p, ha) => p == g.me ==> ha in g.client.reports
             case Seal(_) => |g.run.frames| + 1 < TWO_TO_THE_32
    ensures Inv(w0, g.(run := After(g.run, ev)))
  {
    match ev
    case Arrive(_) => EventKeepsInv(w0, [], g.run, ev);
    case Report(p, ha) =>
      EventKeepsInv(w0, [], g.run, ev);
      ReportKeepsOwn(g.run.room.slots, g.me, g.client.reports, p, ha);
    case Seal(n) =>
      var fb := NextFrame(g.run.room, n);
      EventKeepsInv(w0, [], g.run, ev);
      SealHashes(g.run.room.slots, g.run.room.playerCount, fb.tick);
      FramesGrowKeepsCopy(w0, g.client, g.run.frames, fb);
      FramesGrowKeepsNet(g, fb);
  }

  lemma SendFrameKeepsInv(w0: Sim.WorldState, g: Game, fb: FrameBundle, outcome: Outcome, now: int)
    requires Sim.PanicFree(w0.units) && Inv(w0, g)
    requires fb.tick == |g.run.frames| > 0 && fb == g.run.frames[fb.tick - 1]
        && forall c :: c in g.carry ==> c < fb.tick
    requires Bounded(ServerMoves(g, P.Send(Wire.EncodeOf(FrameMsg(fb)), outcome, now), fb.tick))
    ensures Inv(w0, ServerMoves(g, P.Send(Wire.EncodeOf(FrameMsg(fb)), outcome, now), fb.tick))
  {
    ServerMovesKeepInv(w0, g, P.Send(Wire.EncodeOf(FrameMsg(fb)), outcome, now), fb.tick);
  }

  lemma SealKeepsInv(w0: Sim.WorldState, g: Game, n: uint8, outcome: Outcome, now: int)
    requires Sim.PanicFree(w0.units) && Playing(g) && Inv(w0, g) && Bounded(SealedAndSent(g, n, outcome, now))
    ensures Inv(w0, SealedAndSent(g, n, outcome, now))
  {
    hide Sim.NeverPanics, Sim.Step, P.Inv, CopyOK;
    var fb := NextFrame(g.run.room, n);
    var h := g.(run := After(g.run, RoomRuns.Seal(n)));
    assert h.run.frames == g.run.frames + [fb] && |SealedAndSent(g, n, outcome, now).run.frames| == |h.run.frames|;
    assert g.run.room.tick == |g.run.frames| && ServerLog(g.net.a.h.log, g.carry, g.run.frames);
    CarriedBefore(g);
    RoomEventKeepsInv(w0, g, RoomRuns.Seal(n));
    if g.joined {
      SendFrameKeepsInv(w0, h, fb, outcome, now);
    }
  }

  lemma CarriedBefore(g: Game)
    requires ServerLog(g.net.a.h.log, g.carry, g.run.frames)
    ensures forall c :: c in g.carry ==> c <= |g.run.frames|
  {
    forall c | c in g.carry ensures c <= |g.run.frames| {
      var i :| 0 <= i < |g.carry| && g.carry[i] == c;
      assert SlotFits(g.net.a.h.log[i], g.carry[i], g.run.frames);
    }
  }

  lemma HandledKeepsInv(w0: Sim.WorldState, g: Game, d: Bytes)
    requires Sim.PanicFree(w0.units) && Playing(g) && Inv(w0, g) && (IsHash(d) ==> HashIn(d) in g.client.reports)
    ensures Inv(w0, g.(run := Handled(g.run, g.me, d)))
  {
    hide NetOK, CopyOK, OwnReports, RanConsumed, RoomRuns.Inv, P.Inv;
    match Wire.DecodeOf(d) {
      case Ok(CmdMsg(c)) => RoomEventKeepsInv(w0, g, Arrive(c));
      case Ok(HashMsg(ha)) => RoomEventKeepsInv(w0, g, Report(g.me, ha));
      case _ =>
    }
  }

  lemma ServerDispatchKeepsInv(w0: Sim.WorldState, g: Game)
    requires Sim.PanicFree(w0.units) && Playing(g) && Inv(w0, g) && Bounded(ServerTook(g))
    ensures Inv(w0, ServerTook(g))
  {
    var inbox := g.net.a.ep.inbox;
    if inbox != [] {
      var h := g.(run := Handled(g.run, g.me, inbox[0]));
      HandledKeepsInv(w0, g, inbox[0]);
      ServerMovesKeepInv(w0, h, P.Dispatch, 0);
    }
  }

  /** The client takes a message from its inbox. */
  lemma TakeKeepsNet(g: Game)
    requires P.Inv(g.net) && NetOK(g.net, g.carry, g.run.frames, g.client.reports)
        && RanConsumed(g.client.ran, g.net.b.h.consumed)
    requires g.net.b.ep.inbox != [] && |ClientMoves(g, P.Dispatch).net.b.h.log| < P.HALF_SPACE
    ensures var h, d := ClientMoves(g, P.Dispatch), g.net.b.ep.inbox[0];
            && P.Inv(h.net) && NetOK(h.net, g.carry, g.run.frames, g.client.reports)
            && RanConsumed(if IsFrame(d) then g.client.ran + {FrameIn(d).tick as nat} else g.client.ran,
                           h.net.b.h.consumed)
  {
    ClientMovesKeepNet(g, P.Dispatch);
    ActedShows(g.net.b, P.Dispatch);
    ConsumeKeepsRan(g.client.ran, g.net.b.h.consumed, g.net.b.ep.inbox[0]);
  }

  lemma ReportKeepsNet(g: Game, ack: HashAck, outcome: Outcome, now: int)
    requires P.Inv(g.net) && NetOK(g.net, g.carry, g.run.frames, g.client.reports)
    requires |ClientMoves(g, P.Send(Wire.EncodeOf(HashMsg(ack)), outcome, now)).net.b.h.log| < P.HALF_SPACE
    ensures var h := ClientMoves(g, P.Send(Wire.EncodeOf(HashMsg(ack)), outcome, now));
            && P.Inv(h.net) && NetOK(h.net, g.carry, g.run.frames, g.client.reports + {ack})
            && h.net.b.h.consumed == g.net.b.h.consumed
  {
    ReportArrives(ack);
    var ev := P.Send(Wire.EncodeOf(HashMsg(ack)), outcome, now);
    ClientMovesKeepNet(g.(client := g.client.(reports := g.client.reports + {ack})), ev);
    ActedShows(g.net.b, ev);
  }

  /** The frame the client takes is a frame of the room, later than any it has executed. */
  lemma TakenIsLater(w0: Sim.WorldState, g: Game)
    requires Sim.PanicFree(w0.units) && Inv(w0, g) && Numbered(g.run.frames)
    requires g.net.b.ep.inbox != [] && IsFrame(g.net.b.ep.inbox[0])
    ensures g.client.replica.lastTick < FrameIn(g.net.b.ep.inbox[0]).tick && FromRoom(g.net.b.ep.inbox[0], g.run.frames)
  {
    ClientGotInOrder(g);
    LaterThanRan(g.net.b.h.consumed, g.net.b.ep.inbox, g.client.ran, g.client.replica.lastTick, g.run.frames);
  }

  lemma ExecuteKeepsInv(w0: Sim.WorldState, g: Game, h: Game, fb: FrameBundle, outcome: Outcome, now: int)
    requires Sim.PanicFree(w0.units) && Playing(g) && Inv(w0, g) && Playing(h)
    requires h == g.(net := h.net) && P.Inv(h.net) && NetOK(h.net, g.carry, g.run.frames, g.client.reports)
    requires RanConsumed(g.client.ran + {fb.tick as nat}, h.net.b.h.consumed)
    requires g.client.replica.lastTick < fb.tick <= |g.run.frames| && fb == g.run.frames[fb.tick - 1]
    requires |Executed(h, fb, outcome, now).net.b.h.log| < P.HALF_SPACE
    ensures Inv(w0, Executed(h, fb, outcome, now))
  {
    ExecuteKeepsCopy(w0, g.client, g.run.frames, fb);
    ReportKeepsNet(h, ReportOf(h.client.replica, fb), outcome, now);
  }

  lemma TakeKeepsInv(w0: Sim.WorldState, g: Game)
    requires Sim.PanicFree(w0.units) && Inv(w0, g) && g.net.b.ep.inbox != [] && !IsFrame(g.net.b.ep.inbox[0])
    requires |ClientMoves(g, P.Dispatch).net.b.h.log| < P.HALF_SPACE
    ensures Inv(w0, ClientMoves(g, P.Dispatch))
  {
    hide NetOK, P.Moved, CopyOK, OwnReports, RanConsumed, RoomRuns.Inv, P.Inv;
    TakeKeepsNet(g);
  }

  lemma TakeFrameKeepsInv(w0: Sim.WorldState, g: Game, outcome: Outcome, now: int)
    requires Sim.PanicFree(w0.units) && Playing(g) && Inv(w0, g) && Numbered(g.run.frames)
    requires g.net.b.ep.inbox != [] && IsFrame(g.net.b.ep.inbox[0])
    requires var h, fb := ClientMoves(g, P.Dispatch), FrameIn(g.net.b.ep.inbox[0]);
             |h.net.b.h.log| < P.HALF_SPACE && |Executed(h, fb, outcome, now).net.b.h.log| < P.HALF_SPACE
    ensures Inv(w0, Executed(ClientMoves(g, P.Dispatch), FrameIn(g.net.b.ep.inbox[0]), outcome, now))
  {
    hide NetOK, P.Moved, CopyOK, OwnReports, RanConsumed, RoomRuns.Inv, P.Inv, Executed, Numbered, Wire.DecodeOf;
    TakeKeepsNet(g);
    TakenIsLater(w0, g);
    ExecuteKeepsInv(w0, g, ClientMoves(g, P.Dispatch), FrameIn(g.net.b.ep.inbox[0]), outcome, now);
  }

  lemma BoundedNumbered(w0: Sim.WorldState, g: Game)
    requires Sim.PanicFree(w0.units) && Inv(w0, g) && Bounded(g)
    ensures Numbered(g.run.frames)
  {
  }

  lemma FrameDispatchKeepsInv(w0: Sim.WorldState, g: Game, outcome: Outcome, now: int)
    requires Sim.PanicFree(w0.units) && Playing(g) && Inv(w0, g) && Bounded(g) && Bounded(ClientTook(g, outcome, now))
    requires g.net.b.ep.inbox != [] && IsFrame(g.net.b.ep.inbox[0])
    ensures Inv(w0, ClientTook(g, outcome, now))
  {
    DispatchKeepsLogs(g);
    BoundedNumbered(w0, g);
    hide Inv, P.Moved, P.Acted;
    TakeFrameKeepsInv(w0, g, outcome, now);
  }

  /** Taking a message from the inbox sends nothing. */
  lemma DispatchKeepsLogs(g: Game)
    ensures var h := ClientMoves(g, P.Dispatch); h.net.a.h.log == g.net.a.h.log && h.net.b.h.log == g.net.b.h.log
  {
    ActedShows(g.net.b, P.Dispatch);
  }

  lemma ClientDispatchKeepsInv(w0: Sim.WorldState, g: Game, outcome: Outcome, now: int)
    requires Sim.PanicFree(w0.units) && Playing(g) && Inv(w0, g) && Bounded(g) && Bounded(ClientTook(g, outcome, now))
    ensures Inv(w0, ClientTook(g, outcome, now))
  {
    hide Inv, P.Moved, P.Acted;
    if g.net.b.ep.inbox != [] {
      if IsFrame(g.net.b.ep.inbox[0]) {
        FrameDispatchKeepsInv(w0, g, outcome, now);
      } else {
        DispatchKeepsLogs(g);
        TakeKeepsInv(w0, g);
      }
    }
  }

  lemma NetKeepsInv(w0: Sim.WorldState, g: Game, m: P.Move)
    requires Sim.PanicFree(w0.units) && Playing(g) && Inv(w0, g) && Bounded(Done(g, Net(m)))
    ensures Inv(w0, Done(g, Net(m)))
  {
    hide Inv, P.Moved, P.Acted;
    if Free(m) {
      if m.flipped {
        ClientMovesKeepInv(w0, g, m.ev);
      } else {
        ServerMovesKeepInv(w0, g, m.ev, 0);
      }
    }
  }

  lemma DrawKeepsInv(w0: Sim.WorldState, g: Game, r: uint64)
    requires Sim.PanicFree(w0.units) && Inv(w0, g)
    ensures Inv(w0, g.(client := Drawn(g.client, r)))
  {
    hide P.Inv, NetOK, RanConsumed, RoomRuns.Inv, OrdersOK, ReportRight;
  }

  lemma ActionKeepsInv(w0: Sim.WorldState, g: Game, act: Action)
    requires Sim.PanicFree(w0.units) && Playing(g) && Inv(w0, g) && Bounded(g) && Bounded(Done(g, act))
    ensures Inv(w0, Done(g, act))
  {
    hide P.Moved, P.Acted, P.Inv, NetOK, CopyOK, OwnReports, RanConsumed, RoomRuns.Inv;
    match act
    case Net(m) => NetKeepsInv(w0, g, m);
    case Connect(_) =>
    case Draw(r) => DrawKeepsInv(w0, g, r);
    case Order(c) => RoomEventKeepsInv(w0, g, Arrive(c));
    case Other(p, ha) => if p != g.me { RoomEventKeepsInv(w0, g, Report(p, ha)); }
    case Seal(n, outcome, now) => SealKeepsInv(w0, g, n, outcome, now);
    case ServerDispatch => ServerDispatchKeepsInv(w0, g);
    case ClientDispatch(outcome, now) => ClientDispatchKeepsInv(w0, g, outcome, now);
  }
}
