/** Per-tick command buckets. */
module Inputs {
  import opened Words
  import opened Wire

  type Buckets = map<uint32, seq<Cmd>>

  function Bucket(b: Buckets, t: uint32): seq<Cmd> {
    if t in b then b[t] else []
  }

  function Buffered(b: Buckets, c: Cmd): Buckets {
    b[c.tick := Bucket(b, c.tick) + [c]]
  }

  class InputBuf {
    var buckets: Buckets

    constructor ()
      ensures buckets == map[]
    {
      buckets := map[];
    }

    method Add(c: Cmd)
      modifies this
      ensures buckets == Buffered(old(buckets), c)
    {
      var cmds := [];
      if c.tick in buckets {
        cmds := buckets[c.tick];
      }
      buckets := buckets[c.tick := cmds + [c]];
    }

    method Seal(t: uint32) returns (cmds: seq<Cmd>)
      modifies this
      ensures cmds == Bucket(old(buckets), t)
      ensures buckets == old(buckets) - {t}
    {
      cmds := [];
      if t in buckets {
        cmds := buckets[t];
      }
      buckets := buckets - {t};
    }
  }
}

/** Aggregation of the hashes that clients report, and desync detection. */
module Hashes {
  import opened Words

  datatype HashState = Pending | Partial | Match | Timeout | Desync

  datatype TickHash = TickHash(hashes: map<uint8, uint64>, expected: int, state: HashState)

  type Slots = map<uint32, TickHash>

  const WINDOW_SIZE: uint32 := 100
  const MAX_AGE: uint32 := 60

  predicate Agree(hashes: map<uint8, uint64>) {
    forall p, q :: p in hashes && q in hashes ==> hashes[p] == hashes[q]
  }

  function Verdict(hashes: map<uint8, uint64>, expected: int): HashState {
    if |hashes| < expected then Partial
    else if Agree(hashes) then Match
    else Desync
  }

  function WithSlot(w: Slots, windowSize: uint32, expected: int, tick: uint32): Slots {
    var v := w[tick := TickHash(map[], expected, Pending)];
    if tick > windowSize then map t | t in v && t >= tick - windowSize :: v[t] else v
  }

  function Reported(w: Slots, tick: uint32, player: uint8, hash: uint64): (Slots, HashState) {
    if tick !in w then (w, Timeout)
    else
      var hs := w[tick].hashes[player := hash];
      var s := Verdict(hs, w[tick].expected);
      (w[tick := w[tick].(hashes := hs, state := s)], s)
  }

  predicate Stale(th: TickHash, tick: uint32, current: uint32, maxAge: uint32) {
    (th.state == Pending || th.state == Partial) && Sub32(current, tick) > maxAge
  }

  function TimedOut(w: Slots, current: uint32, maxAge: uint32): Slots {
    map t | t in w :: if Stale(w[t], t, current, maxAge) then w[t].(state := Timeout) else w[t]
  }

  class HashAgg {
    var window: Slots
    const windowSize: uint32
    const playerCount: int

    constructor (windowSize: uint32, playerCount: int)
      ensures window == map[] && this.windowSize == windowSize && this.playerCount == playerCount
    {
      window := map[];
      this.windowSize := windowSize;
      this.playerCount := playerCount;
    }

    method CreateSlot(tick: uint32)
      modifies this
      ensures window == WithSlot(old(window), windowSize, playerCount, tick)
    {
      window := window[tick := TickHash(map[], playerCount, Pending)];
      if tick > windowSize {
        var cutoff := tick - windowSize;
        ghost var v := window;
        var todo := window.Keys;
        while todo != {}
          invariant todo <= v.Keys
          invariant forall t :: t in window <==> t in v && (t in todo || t >= cutoff)
          invariant forall t :: t in window ==> window[t] == v[t]
          decreases |todo|
        {
          var t :| t in todo;
          if t < cutoff {
            window := window - {t};
          }
          todo := todo - {t};
        }
        assert window == map t | t in v && t >= cutoff :: v[t];
      }
    }

    /** The reference hash is that of whichever player the map iteration visits first. */
    method Report(tick: uint32, player: uint8, hash: uint64) returns (state: HashState)
      modifies this
      ensures (window, state) == Reported(old(window), tick, player, hash)
    {
      if tick !in window {
        return Timeout;
      }
      var th := window[tick];
      th := th.(hashes := th.hashes[player := hash]);
      if |th.hashes| < th.expected {
        window := window[tick := th.(state := Partial)];
        return Partial;
      }
      var ref: uint64 := 0;
      var first := true;
      ghost var seen: uint8 := player;
      var todo := th.hashes.Keys;
      while todo != {}
        invariant todo <= th.hashes.Keys && (first ==> todo == th.hashes.Keys)
        invariant !first ==> seen in th.hashes && seen !in todo
        invariant forall p :: p in th.hashes && p !in todo ==> th.hashes[p] == ref
        decreases |todo|
      {
        var p :| p in todo;
        assert p in th.hashes;
        if first {
          ref, first := th.hashes[p], false;
          seen := p;
        } else if th.hashes[p] != ref {
          assert th.hashes[p] != th.hashes[seen];
          window := window[tick := th.(state := Desync)];
          return Desync;
        }
        todo := todo - {p};
      }
      assert Agree(th.hashes);
      window := window[tick := th.(state := Match)];
      return Match;
    }

    method CheckTimeouts(current: uint32, maxAge: uint32) returns (timedOut: seq<uint32>)
      modifies this
      ensures window == TimedOut(old(window), current, maxAge)
      ensures forall t :: t in timedOut <==> t in old(window) && Stale(old(window)[t], t, current, maxAge)
    {
      timedOut := [];
      ghost var w := window;
      var todo := window.Keys;
      while todo != {}
        invariant todo <= w.Keys == window.Keys
        invariant forall t :: t in w ==>
                    window[t] == if t !in todo && Stale(w[t], t, current, maxAge) then w[t].(state := Timeout) else w[t]
        invariant forall t :: t in timedOut <==> t in w && t !in todo && Stale(w[t], t, current, maxAge)
        decreases |todo|
      {
        var t :| t in todo;
        var th := window[t];
        if th.state == Pending || th.state == Partial {
          if Sub32(current, t) > maxAge {
            window := window[t := th.(state := Timeout)];
            timedOut := timedOut + [t];
          }
        }
        todo := todo - {t};
      }
      assert window == TimedOut(w, current, maxAge);
    }
  }

  /** The verdict does not depend on the order in which different players report for a tick. */
  lemma ReportsCommute(w: Slots, t: uint32, p: uint8, q: uint8, g: uint64, h: uint64)
    requires p != q
    ensures Reported(Reported(w, t, p, g).0, t, q, h) == Reported(Reported(w, t, q, h).0, t, p, g)
  {
    if t in w {
      TwoReports(w, t, p, q, g, h);
      TwoReports(w, t, q, p, h, g);
      var x, y := w[t].hashes[p := g], w[t].hashes[q := h];
      assert x[q := h] == y[p := g];
    }
  }

  lemma TwoReports(w: Slots, t: uint32, p: uint8, q: uint8, g: uint64, h: uint64)
    requires t in w
    ensures var x := w[t].hashes[p := g];
            var s := Verdict(x[q := h], w[t].expected);
            Reported(Reported(w, t, p, g).0, t, q, h) == (w[t := TickHash(x[q := h], w[t].expected, s)], s)
  {
    var x := w[t].hashes[p := g];
    var v := Reported(w, t, p, g).0;
    var th := TickHash(x[q := h], w[t].expected, Verdict(x[q := h], w[t].expected));
    assert v[t := th] == w[t := th];
  }

  /** Two players' hashes differ. */
  predicate Differ(hashes: map<uint8, uint64>) {
    exists p, q :: p in hashes && q in hashes && hashes[p] != hashes[q]
  }

  /** What a report does: it stores the player's hash, and its verdict is Partial while fewer players than expected have
      one, Desync if then two differ, and Match if none do. Outside the window it is Timeout and nothing changes. */
  lemma ReportDecides(w: Slots, t: uint32, p: uint8, h: uint64)
    ensures var r := Reported(w, t, p, h);
            if t !in w then r == (w, Timeout)
            else
              var hs := w[t].hashes[p := h];
              && r.0.Keys == w.Keys && (forall u :: u in w && u != t ==> r.0[u] == w[u])
              && r.0[t].hashes == hs && r.0[t].expected == w[t].expected && r.0[t].state == r.1
              && (r.1 == Partial <==> |hs| < w[t].expected)
              && (r.1 == Desync <==> |hs| >= w[t].expected && Differ(hs))
              && (r.1 == Match <==> |hs| >= w[t].expected && !Differ(hs))
  {
  }

  /** Marking timeouts turns exactly the slots that wait and are older than maxAge to Timeout. */
  lemma TimeoutsDecide(w: Slots, now: uint32, maxAge: uint32, t: uint32)
    requires t in w && t <= now
    ensures var r := TimedOut(w, now, maxAge);
            && t in r && r[t].hashes == w[t].hashes && r[t].expected == w[t].expected
            && r[t].state == (if now - t > maxAge && (w[t].state == Pending || w[t].state == Partial) then Timeout
                              else w[t].state)
  {
  }

  /** Every hash in the window is the reference hash of its tick. */
  predicate AllHonest(w: Slots, reference: uint32 -> uint64) {
    forall t, p :: t in w && p in w[t].hashes ==> w[t].hashes[p] == reference(t)
  }

  /** As long as every report carries the reference hash, no verdict is ever Desync, and none is stored. */
  lemma HonestReportsNeverDesync(w: Slots, reference: uint32 -> uint64, t: uint32, p: uint8)
    requires AllHonest(w, reference)
    ensures AllHonest(Reported(w, t, p, reference(t)).0, reference)
    ensures Reported(w, t, p, reference(t)).1 != Desync
  {
  }
}
