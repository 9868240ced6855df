/** The replay checker: re-steps a recorded match and counts the hashes that differ. */
module ReplayCheck {
  import opened Results
  import opened Words
  import opened Wire
  import opened Replay
  import opened SimWorld
  import Sim
  import Hash
  import Snapshot
  import opened Rooms
  import opened RoomRuns

  function RecordedOrders(trs: seq<TickRecord>): (css: seq<seq<Sim.Cmd>>)
    ensures |css| == |trs|
  {
    seq(|trs|, k requires 0 <= k < |trs| => ToSimAll(trs[k].cmds))
  }

  /** Stepping through the records never divides by zero. */
  ghost predicate Steppable(w: Sim.WorldState, trs: seq<TickRecord>) {
    Sim.PlaySafe(w, RecordedOrders(trs))
  }

  lemma SteppableNext(w: Sim.WorldState, trs: seq<TickRecord>)
    requires trs != [] && Steppable(w, trs)
    ensures Sim.StepSafe(w, ToSimAll(trs[0].cmds)) && Steppable(Sim.Step(w, ToSimAll(trs[0].cmds)), trs[1..])
  {
    Sim.PlaySafeNext(w, RecordedOrders(trs));
    assert RecordedOrders(trs)[1..] == RecordedOrders(trs[1..]);
  }

  ghost function Desyncs(w: Sim.WorldState, trs: seq<TickRecord>): nat
    requires Steppable(w, trs)
    decreases |trs|
  {
    if trs == [] then 0
    else
      SteppableNext(w, trs);
      var v := Sim.Step(w, ToSimAll(trs[0].cmds));
      (if Hash.HashOf(v) != trs[0].hash then 1 else 0) + Desyncs(v, trs[1..])
  }

  /** The hash recorded at k is that of the world the first k + 1 recorded command lists lead to. */
  ghost predicate HashRight(w: Sim.WorldState, trs: seq<TickRecord>, k: nat)
    requires Steppable(w, trs) && k < |trs|
  {
    Sim.PlaySafePrefix(w, RecordedOrders(trs), k + 1);
    trs[k].hash == Hash.HashOf(Sim.Play(w, RecordedOrders(trs)[..k + 1]))
  }

  lemma HashRightLater(w: Sim.WorldState, trs: seq<TickRecord>, k: nat)
    requires Steppable(w, trs) && 1 <= k < |trs|
    ensures Sim.StepSafe(w, ToSimAll(trs[0].cmds)) && Steppable(Sim.Step(w, ToSimAll(trs[0].cmds)), trs[1..])
    ensures HashRight(w, trs, k) <==> HashRight(Sim.Step(w, ToSimAll(trs[0].cmds)), trs[1..], k - 1)
  {
    SteppableNext(w, trs);
    assert RecordedOrders(trs)[1..] == RecordedOrders(trs[1..]);
    Sim.PlayPrefixNext(w, RecordedOrders(trs), k);
    hide Sim.Step, Sim.StepSafe, Sim.PlaySafe, Sim.Play, Hash.HashOf;
  }

  lemma HashRightFirst(w: Sim.WorldState, trs: seq<TickRecord>)
    requires Steppable(w, trs) && trs != []
    ensures Sim.StepSafe(w, ToSimAll(trs[0].cmds))
    ensures HashRight(w, trs, 0) <==> trs[0].hash == Hash.HashOf(Sim.Step(w, ToSimAll(trs[0].cmds)))
  {
    SteppableNext(w, trs);
    Sim.PlaySafePrefix(w, RecordedOrders(trs), 1);
    var css := RecordedOrders(trs)[..1];
    assert css[1..] == [] && Sim.Play(w, css) == Sim.Step(w, css[0]);
  }

  ghost function Wrong(w: Sim.WorldState, trs: seq<TickRecord>): set<nat>
    requires Steppable(w, trs)
  {
    set k: nat | k < |trs| && !HashRight(w, trs, k)
  }

  lemma ShiftedSize(a: set<nat>, b: set<nat>)
    requires 0 !in a && forall k: nat :: k in b <==> k + 1 in a
    ensures |a| == |b|
    decreases |b|
  {
    if b == {} {
      assert forall k: nat :: k in a ==> k - 1 in b;
      assert a == {};
    } else {
      var k :| k in b;
      ShiftedSize(a - {k + 1}, b - {k});
    }
  }

  lemma WrongLater(w: Sim.WorldState, trs: seq<TickRecord>, k: nat)
    requires Steppable(w, trs) && trs != []
    ensures Sim.StepSafe(w, ToSimAll(trs[0].cmds)) && Steppable(Sim.Step(w, ToSimAll(trs[0].cmds)), trs[1..])
    ensures k in Wrong(Sim.Step(w, ToSimAll(trs[0].cmds)), trs[1..]) <==> k + 1 in Wrong(w, trs)
  {
    SteppableNext(w, trs);
    if k + 1 < |trs| {
      HashRightLater(w, trs, k + 1);
    }
    hide HashRight, Sim.Step, Sim.StepSafe, Sim.Play, Sim.PlaySafe, ToSimAll;
  }

  lemma WrongFirst(w: Sim.WorldState, trs: seq<TickRecord>)
    requires Steppable(w, trs) && trs != []
    ensures Sim.StepSafe(w, ToSimAll(trs[0].cmds))
    ensures 0 in Wrong(w, trs) <==> trs[0].hash != Hash.HashOf(Sim.Step(w, ToSimAll(trs[0].cmds)))
  {
    HashRightFirst(w, trs);
  }

  lemma WrongNext(w: Sim.WorldState, trs: seq<TickRecord>)
    requires Steppable(w, trs) && trs != []
    ensures Sim.StepSafe(w, ToSimAll(trs[0].cmds)) && Steppable(Sim.Step(w, ToSimAll(trs[0].cmds)), trs[1..])
    ensures var v := Sim.Step(w, ToSimAll(trs[0].cmds));
            |Wrong(w, trs)| == |Wrong(v, trs[1..])| + if trs[0].hash != Hash.HashOf(v) then 1 else 0
  {
    hide Sim.Step, Sim.StepSafe, Sim.Play, Sim.PlaySafe, ToSimAll, Hash.HashOf, HashRight;
    WrongFirst(w, trs);
    SteppableNext(w, trs);
    var v := Sim.Step(w, ToSimAll(trs[0].cmds));
    hide Wrong, Steppable;
    forall k: nat ensures k in Wrong(v, trs[1..]) <==> k + 1 in Wrong(w, trs) {
      WrongLater(w, trs, k);
    }
    ShiftedSize(Wrong(w, trs) - {0}, Wrong(v, trs[1..]));
  }

  /** The checker counts each wrong hash once. */
  lemma {:induction false} DesyncsCounts(w: Sim.WorldState, trs: seq<TickRecord>)
    requires Steppable(w, trs)
    ensures Desyncs(w, trs) == |Wrong(w, trs)|
    decreases |trs|
  {
    hide Sim.Step, Sim.StepSafe, Sim.Play, Sim.PlaySafe, ToSimAll, Hash.HashOf, HashRight;
    if trs == [] {
      assert Wrong(w, trs) == {};
    } else {
      WrongNext(w, trs);
      DesyncsCounts(Sim.Step(w, ToSimAll(trs[0].cmds)), trs[1..]);
    }
  }

  /** The checker is content if and only if every recorded hash is that of the world the recorded commands lead to. */
  lemma NoDesyncsMeans(w: Sim.WorldState, trs: seq<TickRecord>)
    requires Steppable(w, trs)
    ensures Desyncs(w, trs) == 0 <==> forall k :: 0 <= k < |trs| ==> HashRight(w, trs, k)
  {
    DesyncsCounts(w, trs);
    hide HashRight, Steppable, Desyncs;
    assert |Wrong(w, trs)| == 0 <==> Wrong(w, trs) == {};
    forall k | 0 <= k < |trs| ensures k in Wrong(w, trs) <==> !HashRight(w, trs, k) {
    }
  }

  lemma CheckNext(w: Sim.WorldState, ticks: seq<TickRecord>, i: nat)
    requires i < |ticks| && Steppable(w, ticks[i..])
    ensures Sim.StepSafe(w, ToSimAll(ticks[i].cmds))
    ensures var v := Sim.Step(w, ToSimAll(ticks[i].cmds));
            && Steppable(v, ticks[i + 1..])
            && Desyncs(w, ticks[i..]) == (if Hash.HashOf(v) != ticks[i].hash then 1 else 0) + Desyncs(v, ticks[i + 1..])
            && Sim.Play(w, RecordedOrders(ticks[i..])) == Sim.Play(v, RecordedOrders(ticks[i + 1..]))
  {
    var rest := ticks[i..];
    SteppableNext(w, rest);
    assert rest[1..] == ticks[i + 1..] && RecordedOrders(rest)[1..] == RecordedOrders(ticks[i + 1..]);
  }

  method Verify(world: World, ticks: seq<TickRecord>) returns (desyncCount: nat)
    requires Steppable(world.State(), ticks)
    modifies world
    ensures desyncCount == Desyncs(old(world.State()), ticks)
    ensures world.State() == Sim.Play(old(world.State()), RecordedOrders(ticks))
  {
    ghost var w := world.State();
    desyncCount := 0;
    assert ticks[0..] == ticks;
    for i := 0 to |ticks|
      invariant Steppable(world.State(), ticks[i..])
      invariant Desyncs(w, ticks) == desyncCount + Desyncs(world.State(), ticks[i..])
      invariant Sim.Play(w, RecordedOrders(ticks)) == Sim.Play(world.State(), RecordedOrders(ticks[i..]))
    {
      CheckNext(world.State(), ticks, i);
      var cmds := WireCmdsToSimCmds(ticks[i].cmds);
      world.Step(cmds);
      var hash := Hash.Hash(world.State());
      if hash != ticks[i].hash {
        desyncCount := desyncCount + 1;
      }
    }
  }

  /** Checking the log never divides by zero, in which case the program would panic. */
  ghost predicate Checkable(d: Bytes) {
    match UnmarshalHeaderOf(d)
    case Err(_) => true
    case Ok((h, n)) =>
      match Snapshot.UnmarshalOf(h.snapshot)
      case Err(_) => true
      case Ok(w) => !ReadAllOf(d[n..]).1 ==> Steppable(w, ReadAllOf(d[n..]).0)
  }

  /** The number of desyncs in a log, or an error when the header, the snapshot or a record does not parse. */
  ghost function Checked(d: Bytes): Result<nat>
    requires Checkable(d)
  {
    match UnmarshalHeaderOf(d)
    case Err(e) => Err(e)
    case Ok((h, n)) =>
      match Snapshot.UnmarshalOf(h.snapshot)
      case Err(e) => Err(e)
      case Ok(w) => var r := ReadAllOf(d[n..]); if r.1 then Err("read ticks") else Ok(Desyncs(w, r.0))
  }

  method Check(d: Bytes) returns (r: Result<nat>)
    requires Checkable(d)
    ensures r == Checked(d) || (r.Err? && Checked(d).Err?)
  {
    var source := NewReader(d);
    if source.Err? {
      return Err(source.error);
    }
    var reader := source.value;
    var state := Snapshot.Unmarshal(reader.header.snapshot);
    if state.Err? {
      return Err(state.error);
    }
    var world := new World.FromState(state.value);
    var ticks, failed := reader.ReadAll();
    if failed {
      return Err("read ticks");
    }
    var n := Verify(world, ticks);
    return Ok(n);
  }

  /** A recording begins with a header that holds the initial world. */
  ghost predicate RecordsFrom(h: Header, w0: Sim.WorldState) {
    && h.snapshot == Snapshot.MarshalOf(w0) && |h.snapshot| < TWO_TO_THE_32
    && |w0.units| < TWO_TO_THE_32 && Sim.PanicFree(w0.units)
  }

  lemma RecordsOrders(w0: Sim.WorldState, frames: seq<FrameBundle>, j: nat)
    requires Sim.PanicFree(w0.units) && j <= |frames|
    ensures RecordedOrders(Recording(w0, frames)[..j]) == Orders(frames)[..j]
  {
  }

  lemma RecordsAreRight(w0: Sim.WorldState, frames: seq<FrameBundle>, j: nat)
    requires Sim.PanicFree(w0.units) && j <= |frames|
    ensures Desyncs(w0, Recording(w0, frames)[..j]) == 0
  {
    var trs := Recording(w0, frames)[..j];
    RecordsOrders(w0, frames, j);
    forall k | 0 <= k < |trs| ensures HashRight(w0, trs, k) {
      assert Orders(frames)[..j][..k + 1] == Orders(frames)[..k + 1];
    }
    NoDesyncsMeans(w0, trs);
  }

  lemma HeaderOpens(h: Header, w0: Sim.WorldState, rest: Bytes)
    requires RecordsFrom(h, w0)
    ensures var d := HeaderBytes(h) + rest;
            && UnmarshalHeaderOf(d) == Ok((h, |HeaderBytes(h)|)) && d[|HeaderBytes(h)|..] == rest
            && Snapshot.UnmarshalOf(h.snapshot) == Ok(w0) && Checkable(d)
  {
    HeaderRoundTrip(h, rest);
    Snapshot.RoundTrip(w0, []);
    assert Snapshot.MarshalOf(w0) + [] == Snapshot.MarshalOf(w0);
  }

  /** Fewer than 2^32 ticks, each with a command count that fits its 16-bit field. */
  predicate Fits(frames: seq<FrameBundle>) {
    |frames| < TWO_TO_THE_32 && forall i :: 0 <= i < |frames| ==> |frames[i].cmds| < 0x1_0000
  }

  /** The log d, whose header is followed by the first m bytes of these records, checks without a desync, or with an
      error exactly when the cut is inside a record. */
  ghost predicate ChecksWhenCut(d: Bytes, trs: seq<TickRecord>, m: nat) {
    && Checkable(d)
    && (if m == |StreamBytes(trs[..Whole(trs, m)])| then Checked(d) == Ok(0) else Checked(d).Err?)
  }

  lemma CutChecks(h: Header, w0: Sim.WorldState, frames: seq<FrameBundle>, m: nat)
    requires RecordsFrom(h, w0) && Fits(frames) && m <= |StreamBytes(Recording(w0, frames))|
    ensures var trs := Recording(w0, frames); ChecksWhenCut(HeaderBytes(h) + StreamBytes(trs)[..m], trs, m)
  {
    var trs := Recording(w0, frames);
    CutLog(trs, m);
    HeaderOpens(h, w0, StreamBytes(trs)[..m]);
    RecordsAreRight(w0, frames, Whole(trs, m));
  }

  lemma CutJoin(a: Bytes, b: Bytes, k: nat)
    requires |a| <= k <= |a + b|
    ensures k - |a| <= |b| && (a + b)[..k] == a + b[..k - |a|]
  {
  }

  lemma CutLogChecks(h: Header, w0: Sim.WorldState, frames: seq<FrameBundle>, log: Bytes, k: nat)
    requires RecordsFrom(h, w0) && Fits(frames)
    requires log == HeaderBytes(h) + StreamBytes(Recording(w0, frames)) && |HeaderBytes(h)| <= k <= |log|
    ensures ChecksWhenCut(log[..k], Recording(w0, frames), k - |HeaderBytes(h)|)
  {
    hide ChecksWhenCut, StreamBytes, Recording, HeaderBytes, Fits;
    CutJoin(HeaderBytes(h), StreamBytes(Recording(w0, frames)), k);
    CutChecks(h, w0, frames, k - |HeaderBytes(h)|);
  }

  lemma RecordedLog(h: Header, w0: Sim.WorldState, playerCount: int, evs: seq<Event>)
    requires RecordsFrom(h, w0) && Fits(Ran(NewRun(w0, playerCount, true, HeaderBytes(h)), evs).frames)
    ensures var u := Ran(NewRun(w0, playerCount, true, HeaderBytes(h)), evs);
            u.room.log == HeaderBytes(h) + StreamBytes(Recording(w0, u.frames))
  {
    EveryRun(w0, playerCount, true, HeaderBytes(h), evs);
    RecordingStays(NewRun(w0, playerCount, true, HeaderBytes(h)), evs);
  }

  /** Replay verifies: the log of every recorded match checks with no desync. */
  lemma RecordingVerifies(h: Header, w0: Sim.WorldState, playerCount: int, evs: seq<Event>)
    requires RecordsFrom(h, w0) && Fits(Ran(NewRun(w0, playerCount, true, HeaderBytes(h)), evs).frames)
    ensures var log := Ran(NewRun(w0, playerCount, true, HeaderBytes(h)), evs).room.log;
            Checkable(log) && Checked(log) == Ok(0)
  {
    RecordedLog(h, w0, playerCount, evs);
    WholeChecks(h, w0, Ran(NewRun(w0, playerCount, true, HeaderBytes(h)), evs).frames);
  }

  lemma WholeChecks(h: Header, w0: Sim.WorldState, frames: seq<FrameBundle>)
    requires RecordsFrom(h, w0) && Fits(frames)
    ensures var log := HeaderBytes(h) + StreamBytes(Recording(w0, frames)); Checkable(log) && Checked(log) == Ok(0)
  {
    var trs := Recording(w0, frames);
    var s := StreamBytes(trs);
    CutChecks(h, w0, frames, |s|);
    WholeOfAll(trs);
    assert trs[..|trs|] == trs && s[..|s|] == s;
  }

  /** So does what is left of it after a crash: cut after k bytes, it checks without a desync, or with an error exactly
      when the cut is inside a record. */
  lemma CutRecordingVerifies(h: Header, w0: Sim.WorldState, playerCount: int, evs: seq<Event>, k: nat)
    requires RecordsFrom(h, w0) && Fits(Ran(NewRun(w0, playerCount, true, HeaderBytes(h)), evs).frames)
    requires |HeaderBytes(h)| <= k <= |Ran(NewRun(w0, playerCount, true, HeaderBytes(h)), evs).room.log|
    ensures var u := Ran(NewRun(w0, playerCount, true, HeaderBytes(h)), evs);
            ChecksWhenCut(u.room.log[..k], Recording(w0, u.frames), k - |HeaderBytes(h)|)
  {
    var u := Ran(NewRun(w0, playerCount, true, HeaderBytes(h)), evs);
    RecordedLog(h, w0, playerCount, evs);
    hide ChecksWhenCut, StreamBytes, Recording, HeaderBytes, Fits, Ran, NewRun;
    CutLogChecks(h, w0, u.frames, u.room.log, k);
  }

  lemma {:induction false} RecordingStays(u: Run, evs: seq<Event>)
    requires Playable(u)
    ensures Ran(u, evs).room.recording == u.room.recording
  {
    if evs != [] {
      RecordingStays(u, evs[..|evs| - 1]);
    }
  }
}
