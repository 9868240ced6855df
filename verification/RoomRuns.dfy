/** What holds of a room after any sequence of commands, reports and seals. */
module RoomRuns {
  import opened Words
  import opened Wire
  import opened Inputs
  import opened Hashes
  import opened Rooms
  import Sim
  import Hash
  import Replay

  datatype Event =
    | Arrive(cmd: Cmd)
    | Report(player: uint8, ack: HashAck)
    | Seal(n: uint8)

  /** A room and what has happened to it: the commands in the order of their arrival, the frames in the order
      of their seals, and how many commands had arrived before each seal. */
  datatype Run = Run(room: RoomState, arrivals: seq<Cmd>, frames: seq<FrameBundle>, before: seq<nat>)

  function NewRun(w0: Sim.WorldState, playerCount: int, recording: bool, log: Bytes): Run {
    Run(NewRoomState(w0, playerCount, recording, log), [], [], [])
  }

  ghost predicate Playable(u: Run) {
    Sim.PanicFree(u.room.world.units)
  }

  ghost function After(u: Run, ev: Event): (v: Run)
    requires Playable(u)
    ensures Playable(v)
  {
    match ev
    case Arrive(c) => u.(room := WithCmd(u.room, c), arrivals := u.arrivals + [c])
    case Report(p, ha) => u.(room := WithReport(u.room, p, ha).0)
    case Seal(n) =>
      var fb := NextFrame(u.room, n);
      Sim.StepKeepsPanicFree(u.room.world, ToSimAll(fb.cmds));
      Run(Sealed(u.room, n), u.arrivals, u.frames + [fb], u.before + [|u.arrivals|])
  }

  ghost function Ran(u: Run, evs: seq<Event>): (v: Run)
    requires Playable(u)
    ensures Playable(v)
  {
    if evs == [] then u else After(Ran(u, evs[..|evs| - 1]), evs[|evs| - 1])
  }

  // ----- the invariant -----

  /** The commands addressed to a tick, in order. */
  function OfTick(cs: seq<Cmd>, t: nat): seq<Cmd> {
    if cs == [] then []
    else if cs[|cs| - 1].tick == t then OfTick(cs[..|cs| - 1], t) + [cs[|cs| - 1]]
    else OfTick(cs[..|cs| - 1], t)
  }

  function SealedFor(frames: seq<FrameBundle>, t: nat): seq<Cmd> {
    if 1 <= t <= |frames| then frames[t - 1].cmds else []
  }

  /** Each frame has the commands of its tick that arrived before its seal, in order of arrival; those that came after
      stay buffered for ever. */
  ghost predicate Booked(buckets: Buckets, arrivals: seq<Cmd>, frames: seq<FrameBundle>, before: seq<nat>) {
    && |before| == |frames|
    && (forall t: uint32 :: SealedFor(frames, t) + Bucket(buckets, t) == OfTick(arrivals, t))
    && (forall k :: 0 <= k < |frames| ==> FrameBooked(arrivals, frames[k], before[k], k + 1))
  }

  predicate FrameBooked(arrivals: seq<Cmd>, fb: FrameBundle, before: nat, t: nat) {
    fb.tick == t && before <= |arrivals| && fb.cmds == OfTick(arrivals[..before], t)
  }

  ghost predicate CommandsOK(u: Run) {
    u.room.tick == |u.frames| && Booked(u.room.buckets, u.arrivals, u.frames, u.before)
  }

  function Newest(frames: seq<FrameBundle>): seq<FrameBundle> {
    if |frames| <= 200 then frames else frames[|frames| - 200..]
  }

  /** The command lists of a run of frames, one per tick. */
  function Orders(frames: seq<FrameBundle>): (css: seq<seq<Sim.Cmd>>)
    ensures |css| == |frames|
  {
    seq(|frames|, k requires 0 <= k < |frames| => ToSimAll(frames[k].cmds))
  }

  /** The world after the first t frames. */
  ghost function WorldAt(w0: Sim.WorldState, frames: seq<FrameBundle>, t: nat): Sim.WorldState
    requires Sim.PanicFree(w0.units) && t <= |frames|
  {
    Sim.Play(w0, Orders(frames)[..t])
  }

  ghost predicate WorldOK(w0: Sim.WorldState, u: Run)
    requires Sim.PanicFree(w0.units)
  {
    && u.room.world == WorldAt(w0, u.frames, |u.frames|)
    && u.room.history == Newest(u.frames)
    && (w0.tick == 0 ==> u.room.world.tick == u.room.tick)
  }

  ghost function RecordAt(w0: Sim.WorldState, frames: seq<FrameBundle>, k: nat): Replay.TickRecord
    requires Sim.PanicFree(w0.units) && k < |frames|
  {
    Replay.TickRecord(frames[k].tick, frames[k].cmds, Hash.HashOf(WorldAt(w0, frames, k + 1)))
  }

  ghost function Recording(w0: Sim.WorldState, frames: seq<FrameBundle>): (trs: seq<Replay.TickRecord>)
    requires Sim.PanicFree(w0.units)
    ensures |trs| == |frames|
  {
    seq(|frames|, k requires 0 <= k < |frames| => RecordAt(w0, frames, k))
  }

  ghost predicate LogOK(w0: Sim.WorldState, head: Bytes, u: Run)
    requires Sim.PanicFree(w0.units)
  {
    u.room.log == if u.room.recording then head + Replay.StreamBytes(Recording(w0, u.frames)) else head
  }

  /** The hash window holds exactly the last 101 sealed ticks. A slot is Pending until its first report, then its state
      is the verdict on the latest hash of each player, unless it has timed out; no slot older than 60 ticks is
      Pending. */
  ghost predicate WindowOK(slots: Slots, now: uint32, expected: int) {
    && (forall t: uint32 :: t in slots <==> 1 <= t <= now && now - t <= 100)
    && (forall t :: t in slots ==> slots[t].expected == expected && SlotOK(slots[t]))
    && (forall t :: t in slots && now - t > 60 ==> slots[t].state != Pending)
  }

  ghost predicate SlotsOK(r: RoomState) {
    WindowOK(r.slots, r.tick, r.playerCount)
  }

  predicate SlotOK(th: TickHash) {
    match th.state
    case Pending => th.hashes == map[]
    case Timeout => th.hashes == map[] || |th.hashes| < th.expected
    case s => s == Verdict(th.hashes, th.expected)
  }

  ghost predicate Inv(w0: Sim.WorldState, head: Bytes, u: Run)
    requires Sim.PanicFree(w0.units)
  {
    CommandsOK(u) && WorldOK(w0, u) && LogOK(w0, head, u) && SlotsOK(u.room)
  }

  // ----- each event keeps each part -----

  lemma OfTickNext(cs: seq<Cmd>, c: Cmd, t: nat)
    ensures OfTick(cs + [c], t) == if c.tick == t then OfTick(cs, t) + [c] else OfTick(cs, t)
  {
    assert (cs + [c])[..|cs|] == cs;
  }

  lemma ArriveKeepsBooked(buckets: Buckets, arrivals: seq<Cmd>, frames: seq<FrameBundle>, before: seq<nat>, c: Cmd)
    requires Booked(buckets, arrivals, frames, before)
    ensures Booked(Buffered(buckets, c), arrivals + [c], frames, before)
  {
    forall t: uint32 ensures SealedFor(frames, t) + Bucket(Buffered(buckets, c), t) == OfTick(arrivals + [c], t) {
      OfTickNext(arrivals, c, t);
      if t == c.tick {
        assert SealedFor(frames, t) + (Bucket(buckets, t) + [c]) == (SealedFor(frames, t) + Bucket(buckets, t)) + [c];
      }
    }
    forall k | 0 <= k < |frames| ensures FrameBooked(arrivals + [c], frames[k], before[k], k + 1) {
      assert FrameBooked(arrivals, frames[k], before[k], k + 1);
      assert (arrivals + [c])[..before[k]] == arrivals[..before[k]];
    }
  }

  /** A seal moves one bucket into a frame. */
  lemma SealMoves(buckets: Buckets, frames: seq<FrameBundle>, fb: FrameBundle, t: uint32)
    requires fb.tick == |frames| + 1 && fb.cmds == Bucket(buckets, fb.tick)
    ensures SealedFor(frames + [fb], t) + Bucket(buckets - {fb.tick}, t) == SealedFor(frames, t) + Bucket(buckets, t)
  {
  }

  lemma SealKeepsBooked(buckets: Buckets, arrivals: seq<Cmd>, frames: seq<FrameBundle>, before: seq<nat>,
      fb: FrameBundle)
    requires Booked(buckets, arrivals, frames, before)
    requires fb.tick == |frames| + 1 && fb.cmds == Bucket(buckets, fb.tick)
    ensures Booked(buckets - {fb.tick}, arrivals, frames + [fb], before + [|arrivals|])
  {
    var n := |frames|;
    assert SealedFor(frames, fb.tick) + Bucket(buckets, fb.tick) == OfTick(arrivals, fb.tick);
    assert arrivals[..|arrivals|] == arrivals;
    assert FrameBooked(arrivals, fb, |arrivals|, n + 1);
    hide SealedFor, Bucket, OfTick, FrameBooked;
    forall t: uint32 ensures SealedFor(frames + [fb], t) + Bucket(buckets - {fb.tick}, t) == OfTick(arrivals, t) {
      SealMoves(buckets, frames, fb, t);
    }
  }

  lemma OrdersGrow(frames: seq<FrameBundle>, fb: FrameBundle)
    ensures Orders(frames + [fb]) == Orders(frames) + [ToSimAll(fb.cmds)]
  {
  }

  lemma WorldNext(w0: Sim.WorldState, frames: seq<FrameBundle>, fb: FrameBundle)
    requires Sim.PanicFree(w0.units)
    ensures forall t :: 0 <= t <= |frames| ==> WorldAt(w0, frames + [fb], t) == WorldAt(w0, frames, t)
    ensures WorldAt(w0, frames + [fb], |frames| + 1) == Sim.Step(WorldAt(w0, frames, |frames|), ToSimAll(fb.cmds))
  {
    OrdersGrow(frames, fb);
    var css, last := Orders(frames), [ToSimAll(fb.cmds)];
    forall t | 0 <= t <= |frames| ensures WorldAt(w0, frames + [fb], t) == WorldAt(w0, frames, t) {
      assert (css + last)[..t] == css[..t];
    }
    assert (css + last)[..|frames| + 1] == css + last && css[..|frames|] == css;
    Sim.PlaySplit(w0, css, last);
    OneTick(Sim.Play(w0, css), last);
  }

  lemma OneTick(w: Sim.WorldState, css: seq<seq<Sim.Cmd>>)
    requires Sim.PanicFree(w.units) && |css| == 1
    ensures Sim.Play(w, css) == Sim.Step(w, css[0])
  {
    assert css[1..] == [];
  }

  lemma SealKeepsWorld(w0: Sim.WorldState, u: Run, n: uint8)
    requires Sim.PanicFree(w0.units) && Playable(u) && WorldOK(w0, u) && u.room.tick == |u.frames| < TWO_TO_THE_32 - 1
    ensures WorldOK(w0, After(u, Seal(n)))
  {
    WorldNext(w0, u.frames, NextFrame(u.room, n));
  }

  lemma RecordingGrows(w0: Sim.WorldState, frames: seq<FrameBundle>, fb: FrameBundle)
    requires Sim.PanicFree(w0.units)
    ensures var w := Sim.Step(WorldAt(w0, frames, |frames|), ToSimAll(fb.cmds));
            var tr := Replay.TickRecord(fb.tick, fb.cmds, Hash.HashOf(w));
            && Recording(w0, frames + [fb]) == Recording(w0, frames) + [tr]
            && Replay.StreamBytes(Recording(w0, frames + [fb]))
               == Replay.StreamBytes(Recording(w0, frames)) + Replay.TickBytes(tr)
  {
    WorldNext(w0, frames, fb);
    var all, tr := frames + [fb], RecordAt(w0, frames + [fb], |frames|);
    forall k | 0 <= k < |frames| ensures RecordAt(w0, all, k) == RecordAt(w0, frames, k) {
      assert all[k] == frames[k];
    }
    assert Recording(w0, all) == Recording(w0, frames) + [tr];
    Replay.StreamAppend(Recording(w0, frames), tr);
  }

  lemma SealKeepsLog(w0: Sim.WorldState, head: Bytes, u: Run, n: uint8)
    requires Sim.PanicFree(w0.units) && Playable(u) && WorldOK(w0, u) && LogOK(w0, head, u)
    ensures LogOK(w0, head, After(u, Seal(n)))
  {
    var fb := NextFrame(u.room, n);
    RecordingGrows(w0, u.frames, fb);
    hide Recording, Replay.StreamBytes, Replay.TickBytes, WorldAt, SlotsAfterSeal, Remember;
    var tr := Replay.TickRecord(fb.tick, fb.cmds, Hash.HashOf(Sim.Step(u.room.world, ToSimAll(fb.cmds))));
    Assoc(head, Replay.StreamBytes(Recording(w0, u.frames)), Replay.TickBytes(tr));
  }

  /** The window after a new slot was added and old ones were cut off, before timeouts are marked. */
  ghost predicate Shifted(v: Slots, w: Slots, now: uint32, expected: int)
    requires now >= 1
  {
    && (forall t: uint32 :: t in w <==> 1 <= t <= now && now - t <= 100)
    && w[now] == TickHash(map[], expected, Pending)
    && (forall t :: t in w && t != now ==> t in v && w[t] == v[t])
  }

  lemma WindowShifts(slots: Slots, now: uint32, expected: int)
    requires now >= 1 && WindowOK(slots, now - 1, expected)
    ensures Shifted(slots, WithSlot(slots, WINDOW_SIZE, expected, now), now, expected)
  {
    var v := slots[now := TickHash(map[], expected, Pending)];
    assert forall t: uint32 :: t in v <==> 1 <= t <= now && now - t <= 101;
  }

  lemma TimeoutsMarked(w: Slots, now: uint32, expected: int)
    requires forall t :: t in w ==> t <= now && w[t].expected == expected && SlotOK(w[t])
    ensures var s := TimedOut(w, now, MAX_AGE);
            && s.Keys == w.Keys
            && forall t :: t in s ==>
                 && s[t].expected == expected && SlotOK(s[t])
                 && (now - t > 60 ==> s[t].state != Pending && s[t].state != Partial)
  {
  }

  lemma SealKeepsWindow(slots: Slots, now: uint32, expected: int)
    requires now >= 1 && WindowOK(slots, now - 1, expected)
    ensures WindowOK(SlotsAfterSeal(slots, expected, now), now, expected)
    ensures NothingStale(SlotsAfterSeal(slots, expected, now), now)
  {
    var w := WithSlot(slots, WINDOW_SIZE, expected, now);
    WindowShifts(slots, now, expected);
    forall t | t in w ensures t <= now && w[t].expected == expected && SlotOK(w[t]) {
      assert t != now ==> w[t] == slots[t];
    }
    TimeoutsMarked(w, now, expected);
    hide TimedOut, WithSlot, SlotOK;
    var s := SlotsAfterSeal(slots, expected, now);
    assert s == TimedOut(w, now, MAX_AGE);
  }

  lemma SealKeepsSlots(r: RoomState, n: uint8)
    requires SlotsOK(r) && Sim.PanicFree(r.world.units) && r.tick + 1 < TWO_TO_THE_32
    ensures SlotsOK(Sealed(r, n)) && NothingStale(Sealed(r, n).slots, r.tick + 1)
  {
    SealKeepsWindow(r.slots, r.tick + 1, r.playerCount);
  }

  /** No slot older than 60 ticks still waits for reports. */
  predicate NothingStale(slots: Slots, now: uint32) {
    forall t :: t in slots && now - t > 60 ==> slots[t].state != Pending && slots[t].state != Partial
  }

  lemma ReportKeepsSlots(r: RoomState, p: uint8, ha: HashAck)
    requires SlotsOK(r)
    ensures SlotsOK(WithReport(r, p, ha).0)
  {
  }

  lemma EventKeepsInv(w0: Sim.WorldState, head: Bytes, u: Run, ev: Event)
    requires Sim.PanicFree(w0.units) && Playable(u) && Inv(w0, head, u) && |After(u, ev).frames| < TWO_TO_THE_32
    ensures Inv(w0, head, After(u, ev))
  {
    match ev
    case Arrive(c) => ArriveKeepsBooked(u.room.buckets, u.arrivals, u.frames, u.before, c);
    case Report(p, ha) => ReportKeepsSlots(u.room, p, ha);
    case Seal(n) =>
      SealKeepsBooked(u.room.buckets, u.arrivals, u.frames, u.before, NextFrame(u.room, n));
      SealKeepsWorld(w0, u, n);
      SealKeepsLog(w0, head, u, n);
      SealKeepsSlots(u.room, n);
  }

  /** The invariant holds in every run of fewer than 2^32 seals. */
  lemma {:induction false} EveryRun(w0: Sim.WorldState, playerCount: int, recording: bool, head: Bytes, evs: seq<Event>)
    requires Sim.PanicFree(w0.units)
    requires |Ran(NewRun(w0, playerCount, recording, head), evs).frames| < TWO_TO_THE_32
    ensures Inv(w0, head, Ran(NewRun(w0, playerCount, recording, head), evs))
  {
    var u := NewRun(w0, playerCount, recording, head);
    if evs == [] {
      assert Orders([])[..0] == [] && Recording(w0, []) == [];
      assert head + [] == head;
    } else {
      EveryRun(w0, playerCount, recording, head, evs[..|evs| - 1]);
      EventKeepsInv(w0, head, Ran(u, evs[..|evs| - 1]), evs[|evs| - 1]);
    }
  }

  // ----- what follows -----

  /** In every run, each frame is the commands of its tick that arrived before its seal, in order of arrival, and what
      was sealed and what is still buffered for a tick are together exactly what arrived for it. */
  lemma CommandsExactlyOnce(w0: Sim.WorldState, playerCount: int, recording: bool, head: Bytes, evs: seq<Event>)
    requires Sim.PanicFree(w0.units)
    requires |Ran(NewRun(w0, playerCount, recording, head), evs).frames| < TWO_TO_THE_32
    ensures var u := Ran(NewRun(w0, playerCount, recording, head), evs);
            && |u.before| == |u.frames|
            && (forall k :: 0 <= k < |u.frames| ==>
                  FrameBooked(u.arrivals, u.frames[k], u.before[k], k + 1))
            && (forall t: uint32 :: SealedFor(u.frames, t) + Bucket(u.room.buckets, t) == OfTick(u.arrivals, t))
  {
    EveryRun(w0, playerCount, recording, head, evs);
  }

  lemma OnlyItsOwnFrame(u: Run, c: Cmd, k: nat)
    requires CommandsOK(u) && k < |u.frames| && c.tick != k + 1
    ensures c !in u.frames[k].cmds
  {
    OfTickMembers(u.arrivals[..u.before[k]], k + 1);
  }

  /** A command that arrives for a tick already sealed is in no frame sealed after it. */
  lemma LateCommandsNeverRun(w0: Sim.WorldState, playerCount: int, evs: seq<Event>, c: Cmd, more: seq<Event>, k: nat)
    requires Sim.PanicFree(w0.units)
    requires var u := Ran(NewRun(w0, playerCount, false, []), evs);
             var v := Ran(NewRun(w0, playerCount, false, []), evs + [Arrive(c)] + more);
             |v.frames| < TWO_TO_THE_32 && c.tick <= u.room.tick && |u.frames| <= k < |v.frames|
    ensures c !in Ran(NewRun(w0, playerCount, false, []), evs + [Arrive(c)] + more).frames[k].cmds
  {
    var start, all := NewRun(w0, playerCount, false, []), evs + [Arrive(c)] + more;
    assert all == evs + ([Arrive(c)] + more);
    FramesGrow(start, evs, [Arrive(c)] + more);
    EveryRun(w0, playerCount, false, [], evs);
    EveryRun(w0, playerCount, false, [], all);
    hide Ran, Booked, WorldOK, LogOK, SlotsOK;
    OnlyItsOwnFrame(Ran(start, all), c, k);
  }

  lemma {:induction false} OfTickMembers(cs: seq<Cmd>, t: nat)
    ensures forall c :: c in OfTick(cs, t) <==> c in cs && c.tick == t
  {
    if cs != [] {
      OfTickMembers(cs[..|cs| - 1], t);
      assert cs == cs[..|cs| - 1] + [cs[|cs| - 1]];
    }
  }

  lemma {:induction false} FramesGrow(u: Run, evs: seq<Event>, more: seq<Event>)
    requires Playable(u)
    ensures |Ran(u, evs).frames| <= |Ran(u, evs + more).frames|
  {
    if more == [] {
      assert evs + more == evs;
    } else {
      FramesGrow(u, evs, more[..|more| - 1]);
      assert (evs + more)[..|evs + more| - 1] == evs + more[..|more| - 1];
    }
  }

  /** After every seal the hash window is exactly ticks max(1, t-100) to t, and no slot older than 60 still waits. */
  lemma HashWindow(w0: Sim.WorldState, playerCount: int, evs: seq<Event>, n: uint8)
    requires Sim.PanicFree(w0.units)
    requires |Ran(NewRun(w0, playerCount, false, []), evs).frames| + 1 < TWO_TO_THE_32
    ensures var u := Ran(NewRun(w0, playerCount, false, []), evs + [Seal(n)]);
            && u.room.tick == |u.frames|
            && (forall t: uint32 :: t in u.room.slots <==> 1 <= t <= u.room.tick && t + 100 >= u.room.tick)
            && NothingStale(u.room.slots, u.room.tick)
  {
    assert (evs + [Seal(n)])[..|evs|] == evs;
    EveryRun(w0, playerCount, false, [], evs);
    EventKeepsInv(w0, [], Ran(NewRun(w0, playerCount, false, []), evs), Seal(n));
    SealKeepsSlots(Ran(NewRun(w0, playerCount, false, []), evs).room, n);
  }

  /** Until the next seal a late report can make a timed-out slot wait again: exactly when players are still missing. */
  lemma LateReportReopens(r: RoomState, p: uint8, ha: HashAck)
    requires SlotsOK(r) && NothingStale(r.slots, r.tick) && ha.tick in r.slots && r.tick - ha.tick > 60
    ensures !NothingStale(WithReport(r, p, ha).0.slots, r.tick) <==>
            |r.slots[ha.tick].hashes.Keys + {p}| < r.playerCount
  {
    var th := r.slots[ha.tick];
    var hashes := th.hashes[p := ha.hash];
    assert hashes.Keys == th.hashes.Keys + {p} && |hashes| == |hashes.Keys|;
    OneSlotReopens(r.slots, r.tick, ha.tick, TickHash(hashes, th.expected, Verdict(hashes, th.expected)));
  }

  lemma OneSlotReopens(slots: Slots, now: uint32, t: uint32, th: TickHash)
    requires NothingStale(slots, now) && t in slots && now - t > 60
    ensures !NothingStale(slots[t := th], now) <==> th.state == Pending || th.state == Partial
  {
    assert slots[t := th][t] == th;
  }

  // ----- the hashes in the window are the latest reports -----

  function Seals(evs: seq<Event>): nat {
    if evs == [] then 0 else Seals(evs[..|evs| - 1]) + if evs[|evs| - 1].Seal? then 1 else 0
  }

  predicate IsReport(ev: Event, t: uint32, p: uint8) {
    ev.Report? && ev.player == p && ev.ack.tick == t
  }

  /** Event j is the player's last report for the tick, made after its seal. */
  predicate LastReport(evs: seq<Event>, t: uint32, p: uint8, j: nat) {
    && j < |evs| && IsReport(evs[j], t, p) && Seals(evs[..j]) >= t
    && forall i :: j < i < |evs| ==> !IsReport(evs[i], t, p)
  }

  /** There is a hash for the player exactly if it has reported since the seal, and it is that of its last report. */
  ghost predicate IsLatest(hashes: map<uint8, uint64>, evs: seq<Event>, t: uint32, p: uint8) {
    && (p in hashes <==> exists j: nat :: LastReport(evs, t, p, j))
    && (forall j: nat :: LastReport(evs, t, p, j) ==> p in hashes && hashes[p] == evs[j].ack.hash)
  }

  lemma {:induction false} SealsGrow(evs: seq<Event>, j: nat)
    requires j <= |evs|
    ensures Seals(evs[..j]) <= Seals(evs)
  {
    if j == |evs| {
      assert evs[..j] == evs;
    } else {
      SealsGrow(evs[..|evs| - 1], j);
      assert evs[..|evs| - 1][..j] == evs[..j];
    }
  }

  lemma LastReportNext(evs: seq<Event>, ev: Event, t: uint32, p: uint8, j: nat)
    ensures LastReport(evs + [ev], t, p, j) <==>
            if IsReport(ev, t, p) then j == |evs| && Seals(evs) >= t else LastReport(evs, t, p, j)
  {
    var all := evs + [ev];
    assert j <= |evs| ==> all[..j] == evs[..j];
    assert evs[..|evs|] == evs && all[|evs|] == ev;
    assert forall i :: 0 <= i < |evs| ==> all[i] == evs[i];
  }

  /** An event that leaves a player's hash alone, and is no report of it. */
  lemma LatestStays(hashes: map<uint8, uint64>, evs: seq<Event>, ev: Event, t: uint32, p: uint8)
    requires IsLatest(hashes, evs, t, p) && !IsReport(ev, t, p)
    ensures IsLatest(hashes, evs + [ev], t, p)
  {
    forall j: nat ensures LastReport(evs + [ev], t, p, j) <==> LastReport(evs, t, p, j) {
      LastReportNext(evs, ev, t, p, j);
    }
    hide LastReport;
    if j: nat :| LastReport(evs, t, p, j) {
      assert LastReport(evs + [ev], t, p, j);
    }
    forall j: nat | LastReport(evs + [ev], t, p, j)
      ensures p in hashes && hashes[p] == (evs + [ev])[j].ack.hash
    {
      LastReportIn(evs, t, p, j);
    }
  }

  lemma LastReportIn(evs: seq<Event>, t: uint32, p: uint8, j: nat)
    requires LastReport(evs, t, p, j)
    ensures j < |evs| && evs[j].Report?
  {
  }

  /** The player's own new report. */
  lemma LatestTaken(hashes: map<uint8, uint64>, evs: seq<Event>, ev: Event, t: uint32, p: uint8)
    requires IsReport(ev, t, p) && Seals(evs) >= t
    ensures IsLatest(hashes[p := ev.ack.hash], evs + [ev], t, p)
  {
    forall j: nat ensures LastReport(evs + [ev], t, p, j) <==> j == |evs| {
      LastReportNext(evs, ev, t, p, j);
    }
    assert LastReport(evs + [ev], t, p, |evs|);
  }

  /** Nothing counts from before the seal. */
  lemma LatestOfNewSlot(evs: seq<Event>, ev: Event, t: uint32, p: uint8)
    requires ev.Seal? && t == Seals(evs) + 1
    ensures IsLatest(map[], evs + [ev], t, p)
  {
    forall j: nat ensures !LastReport(evs + [ev], t, p, j) {
      LastReportNext(evs, ev, t, p, j);
      if j <= |evs| {
        SealsGrow(evs, j);
      }
    }
  }

  lemma SealedHashes(slots: Slots, expected: int, now: uint32)
    ensures var after := SlotsAfterSeal(slots, expected, now);
            forall t :: t in after ==>
              after[t].hashes == (if t == now then map[] else if t in slots then slots[t].hashes else map[])
              && (t == now || t in slots)
  {
  }

  ghost predicate LatestOK(r: RoomState, evs: seq<Event>) {
    r.tick == Seals(evs) && forall t, p: uint8 :: t in r.slots ==> IsLatest(r.slots[t].hashes, evs, t, p)
  }

  lemma SamePlayersHash(g: map<uint8, uint64>, h: map<uint8, uint64>, evs: seq<Event>, t: uint32, p: uint8)
    requires IsLatest(g, evs, t, p) && (p in g <==> p in h) && (p in g ==> g[p] == h[p])
    ensures IsLatest(h, evs, t, p)
  {
    hide LastReport;
  }

  lemma EventKeepsLatest(u: Run, evs: seq<Event>, ev: Event)
    requires Playable(u) && LatestOK(u.room, evs) && SlotsOK(u.room)
    requires ev.Seal? ==> u.room.tick + 1 < TWO_TO_THE_32
    ensures LatestOK(After(u, ev).room, evs + [ev])
  {
    var v := After(u, ev);
    assert (evs + [ev])[..|evs|] == evs;
    if ev.Seal? {
      SealedHashes(u.room.slots, u.room.playerCount, u.room.tick + 1);
    }
    hide IsLatest, Sim.Step;
    forall t, p: uint8 | t in v.room.slots ensures IsLatest(v.room.slots[t].hashes, evs + [ev], t, p) {
      if ev.Seal? && t == u.room.tick + 1 {
        LatestOfNewSlot(evs, ev, t, p);
      } else {
        var g, h := u.room.slots[t].hashes, v.room.slots[t].hashes;
        if IsReport(ev, t, p) {
          LatestTaken(g, evs, ev, t, p);
        } else {
          LatestStays(g, evs, ev, t, p);
          SamePlayersHash(g, h, evs + [ev], t, p);
        }
      }
    }
  }

  /** In every run, each slot of the window holds for each player the hash of its last report for that tick since the
      seal, and nothing for a player who has not reported since. */
  lemma {:induction false} HashesAreLatest(
      w0: Sim.WorldState, playerCount: int, recording: bool, head: Bytes, evs: seq<Event>)
    requires Sim.PanicFree(w0.units)
    requires |Ran(NewRun(w0, playerCount, recording, head), evs).frames| < TWO_TO_THE_32
    ensures LatestOK(Ran(NewRun(w0, playerCount, recording, head), evs).room, evs)
  {
    var u := NewRun(w0, playerCount, recording, head);
    if evs != [] {
      var p, ev := evs[..|evs| - 1], evs[|evs| - 1];
      assert evs == p + [ev];
      FramesGrow(u, p, [ev]);
      HashesAreLatest(w0, playerCount, recording, head, p);
      EveryRun(w0, playerCount, recording, head, p);
      EventKeepsLatest(Ran(u, p), p, ev);
    }
  }

  // ----- desyncs are detected -----

  /** The hash of a player's last report for the tick since its seal. */
  ghost predicate ReportedHash(evs: seq<Event>, t: uint32, p: uint8, hash: uint64) {
    exists j: nat :: LastReport(evs, t, p, j) && evs[j].ack.hash == hash
  }

  ghost predicate HasReported(evs: seq<Event>, t: uint32, p: uint8) {
    exists j: nat :: LastReport(evs, t, p, j)
  }

  ghost predicate EachReported(evs: seq<Event>, t: uint32, players: set<uint8>) {
    forall p: uint8 :: p in players ==> HasReported(evs, t, p)
  }

  /** At least this many players have reported for the tick since its seal. */
  ghost predicate AllReported(evs: seq<Event>, t: uint32, expected: int) {
    exists players: set<uint8> :: EachReported(evs, t, players) && |players| >= expected
  }

  /** Two players' last reports for the tick differ. */
  ghost predicate ReportsDiffer(evs: seq<Event>, t: uint32) {
    exists p: uint8, q: uint8, g: uint64, h: uint64 ::
      ReportedHash(evs, t, p, g) && ReportedHash(evs, t, q, h) && g != h
  }

  lemma SubsetIsSmaller(a: set<uint8>, b: set<uint8>)
    requires a <= b
    ensures |a| <= |b|
  {
    assert b == a + (b - a);
  }

  lemma LatestMeans(hashes: map<uint8, uint64>, evs: seq<Event>, t: uint32, p: uint8)
    requires IsLatest(hashes, evs, t, p)
    ensures HasReported(evs, t, p) <==> p in hashes
    ensures p in hashes ==> ReportedHash(evs, t, p, hashes[p])
    ensures forall h: uint64 :: ReportedHash(evs, t, p, h) ==> p in hashes && h == hashes[p]
  {
    if p in hashes {
      var j: nat :| LastReport(evs, t, p, j);
      assert evs[j].ack.hash == hashes[p];
    }
  }

  lemma AllReportedMeans(hashes: map<uint8, uint64>, evs: seq<Event>, t: uint32, expected: int)
    requires forall p: uint8 :: IsLatest(hashes, evs, t, p)
    ensures AllReported(evs, t, expected) <==> |hashes| >= expected
  {
    hide HasReported, IsLatest;
    forall p: uint8 ensures HasReported(evs, t, p) <==> p in hashes {
      LatestMeans(hashes, evs, t, p);
    }
    if AllReported(evs, t, expected) {
      var players: set<uint8> :| EachReported(evs, t, players) && |players| >= expected;
      SubsetIsSmaller(players, hashes.Keys);
    }
    assert EachReported(evs, t, hashes.Keys) && |hashes.Keys| == |hashes|;
  }

  lemma ReportsDifferMeans(hashes: map<uint8, uint64>, evs: seq<Event>, t: uint32)
    requires forall p: uint8 :: IsLatest(hashes, evs, t, p)
    ensures ReportsDiffer(evs, t) <==> Differ(hashes)
  {
    hide ReportedHash, HasReported, IsLatest;
    if Differ(hashes) {
      var p, q :| p in hashes && q in hashes && hashes[p] != hashes[q];
      LatestMeans(hashes, evs, t, p);
      LatestMeans(hashes, evs, t, q);
    }
    if ReportsDiffer(evs, t) {
      var p: uint8, q: uint8, g: uint64, h: uint64 :|
        ReportedHash(evs, t, p, g) && ReportedHash(evs, t, q, h) && g != h;
      LatestMeans(hashes, evs, t, p);
      LatestMeans(hashes, evs, t, q);
    }
  }

  lemma SlotDecides(th: TickHash)
    requires SlotOK(th)
    ensures th.state == Desync <==> |th.hashes| >= th.expected && Differ(th.hashes)
    ensures th.state == Match ==> |th.hashes| >= th.expected && !Differ(th.hashes)
    ensures th.expected > 0 && |th.hashes| >= th.expected && !Differ(th.hashes) ==> th.state == Match
  {
  }

  /** A desync is detected exactly when there is one: in every run, a tick in the window is in state Desync if and only
      if all expected players have reported for it since its seal and two of their last reports differ; it is in state
      Match if and only if all have and none differ. */
  lemma DesyncExactlyWhenReportsDiffer(
      w0: Sim.WorldState, playerCount: int, recording: bool, head: Bytes, evs: seq<Event>, t: uint32)
    requires Sim.PanicFree(w0.units)
    requires var r := Ran(NewRun(w0, playerCount, recording, head), evs);
             |r.frames| < TWO_TO_THE_32 && t in r.room.slots
    ensures var slot := Ran(NewRun(w0, playerCount, recording, head), evs).room.slots[t];
            && (slot.state == Desync <==> AllReported(evs, t, playerCount) && ReportsDiffer(evs, t))
            && (playerCount > 0 ==>
                  (slot.state == Match <==> AllReported(evs, t, playerCount) && !ReportsDiffer(evs, t)))
  {
    EveryRun(w0, playerCount, recording, head, evs);
    HashesAreLatest(w0, playerCount, recording, head, evs);
    PlayersStay(NewRun(w0, playerCount, recording, head), evs);
    var slot := Ran(NewRun(w0, playerCount, recording, head), evs).room.slots[t];
    hide Ran, NewRun, Booked, WorldOK, LogOK, IsLatest, AllReported, ReportsDiffer, Differ;
    assert SlotOK(slot) && slot.expected == playerCount;
    SlotDecides(slot);
    AllReportedMeans(slot.hashes, evs, t, playerCount);
    ReportsDifferMeans(slot.hashes, evs, t);
  }

  lemma {:induction false} PlayersStay(u: Run, evs: seq<Event>)
    requires Playable(u)
    ensures Ran(u, evs).room.playerCount == u.room.playerCount
  {
    if evs != [] {
      PlayersStay(u, evs[..|evs| - 1]);
    }
  }

  lemma SealedSlots(r: RoomState, n: uint8)
    requires Sim.PanicFree(r.world.units) && r.tick + 1 < TWO_TO_THE_32
    ensures var now: uint32 := r.tick + 1;
            Sealed(r, n).slots == TimedOut(WithSlot(r.slots, WINDOW_SIZE, r.playerCount, now), now, MAX_AGE)
  {
    hide Sim.Step, Sim.NeverPanics;
  }

  /** A seal leaves every slot of age at most 60 in the state it was in, and the new one waiting. */
  lemma SealKeepsYoung(r: RoomState, n: uint8, t: uint32)
    requires SlotsOK(r) && Sim.PanicFree(r.world.units) && r.tick + 1 < TWO_TO_THE_32
    requires t in Sealed(r, n).slots && r.tick + 1 - t <= 60
    ensures t == r.tick + 1 ==> Sealed(r, n).slots[t] == TickHash(map[], r.playerCount, Pending)
    ensures t <= r.tick ==> t in r.slots && Sealed(r, n).slots[t] == r.slots[t]
  {
    var now: uint32 := r.tick + 1;
    var w := WithSlot(r.slots, WINDOW_SIZE, r.playerCount, now);
    WindowShifts(r.slots, now, r.playerCount);
    SealedSlots(r, n);
    hide Sealed, Sim.PanicFree, WithSlot, TimedOut;
    TimeoutsDecide(w, now, MAX_AGE, t);
  }
}
