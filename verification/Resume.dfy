/** A client that resumes ends in the room's current world. */
module Resume {
  import opened Results
  import opened Words
  import opened Wire
  import opened Rooms
  import opened RoomRuns
  import Sim
  import Snapshot

  /** What a client makes of a Resync, starting from the world it had. */
  ghost function Resumed(cw: Sim.WorldState, rs: Resync): Result<Sim.WorldState>
    requires Sim.PanicFree(cw.units)
  {
    if rs.hasSnapshot then Snapshot.UnmarshalOf(rs.snapshot) else Ok(Sim.Play(cw, Orders(rs.frames)))
  }

  /** Consecutive frames, the first for tick a + 1. */
  predicate Consecutive(h: seq<FrameBundle>, a: nat) {
    forall k :: 0 <= k < |h| ==> h[k].tick == a + 1 + k
  }

  lemma {:induction false} FramesAfterSplit(h: seq<FrameBundle>, a: nat, t: uint32)
    requires Consecutive(h, a) && a <= t
    ensures FramesAfter(h, t) == if t - a <= |h| then h[t - a..] else []
  {
    if h != [] {
      var n, i := |h| - 1, t - a;
      FramesAfterSplit(h[..n], a, t);
      if i <= n {
        assert h[..n][i..] + [h[n]] == h[i..];
      }
    }
  }

  /** A client at most 100 ticks behind finds every frame that it missed in the history. */
  lemma HistoryReaches(frames: seq<FrameBundle>, t: uint32)
    requires |frames| <= t + 200 && Consecutive(frames, 0)
    ensures FramesAfter(Newest(frames), t) == if t <= |frames| then frames[t..] else []
  {
    var a := if |frames| <= 200 then 0 else |frames| - 200;
    var h := frames[a..];
    assert Newest(frames) == h && Consecutive(h, a);
    FramesAfterSplit(h, a, t);
    if t <= |frames| {
      assert h[t - a..] == frames[t..];
    }
  }

  lemma ReplayMissed(w0: Sim.WorldState, frames: seq<FrameBundle>, t: nat)
    requires Sim.PanicFree(w0.units) && t <= |frames|
    ensures Sim.Play(WorldAt(w0, frames, t), Orders(frames[t..])) == WorldAt(w0, frames, |frames|)
  {
    var css := Orders(frames);
    assert css[..|frames|] == css[..t] + Orders(frames[t..]);
    Sim.PlaySplit(w0, css[..t], Orders(frames[t..]));
  }

  /** Resume is correct: a client whose world is, but for its random state r, the server's after tick `last` gets to the
      room's current world, by replaying the missed frames when it is at most 100 ticks behind and from the snapshot
      otherwise. */
  lemma ResumeCatchesUp(w0: Sim.WorldState, playerCount: int, recording: bool, head: Bytes, evs: seq<Event>,
      last: uint32, r: uint64)
    requires Sim.PanicFree(w0.units)
    requires var u := Ran(NewRun(w0, playerCount, recording, head), evs);
             last <= |u.frames| < TWO_TO_THE_32 && |u.room.world.units| < TWO_TO_THE_32
    ensures var u := Ran(NewRun(w0, playerCount, recording, head), evs);
            var rs := ResyncOf(u.room, last);
            && Resumed(WorldAt(w0, u.frames, last).(rand := r), rs)
               == Ok(u.room.world.(rand := if rs.hasSnapshot then u.room.world.rand else r))
            && rs.hasSnapshot == (|u.frames| - last > 100)
            && (!rs.hasSnapshot ==> rs.frames == u.frames[last..])
  {
    EveryRun(w0, playerCount, recording, head, evs);
    var u := Ran(NewRun(w0, playerCount, recording, head), evs);
    if |u.frames| - last > 100 {
      Snapshot.RoundTrip(u.room.world, []);
      assert Snapshot.MarshalOf(u.room.world) + [] == Snapshot.MarshalOf(u.room.world);
    } else {
      HistoryReaches(u.frames, last);
      ReplayMissed(w0, u.frames, last);
      Sim.PlayIgnoresRand(WorldAt(w0, u.frames, last), r, Orders(u.frames[last..]));
    }
  }

  /** A client that claims to be ahead of the room: the unsigned difference makes it a snapshot, unless the claim is
      within 100 ticks of 2^32, when it gets no frames and keeps the world it had. */
  lemma ClientAhead(w0: Sim.WorldState, playerCount: int, recording: bool, head: Bytes, evs: seq<Event>,
      last: uint32, cw: Sim.WorldState)
    requires Sim.PanicFree(w0.units) && Sim.PanicFree(cw.units)
    requires var u := Ran(NewRun(w0, playerCount, recording, head), evs);
             |u.frames| < last && |u.room.world.units| < TWO_TO_THE_32
    ensures var u := Ran(NewRun(w0, playerCount, recording, head), evs);
            var rs := ResyncOf(u.room, last);
            && rs.hasSnapshot == (last - |u.frames| < TWO_TO_THE_32 - 100)
            && Resumed(cw, rs) == Ok(if rs.hasSnapshot then u.room.world else cw)
  {
    EveryRun(w0, playerCount, recording, head, evs);
    var u := Ran(NewRun(w0, playerCount, recording, head), evs);
    if last - |u.frames| < TWO_TO_THE_32 - 100 {
      Snapshot.RoundTrip(u.room.world, []);
      assert Snapshot.MarshalOf(u.room.world) + [] == Snapshot.MarshalOf(u.room.world);
    } else {
      HistoryReaches(u.frames, last);
      assert Orders([]) == [];
    }
  }
}
