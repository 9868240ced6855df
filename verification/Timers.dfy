/** Retransmission times in every run of the transport. */
module Timers {
  import opened Words
  import opened Packets
  import opened Retx
  import opened Endpoints
  import P = Protocol

  /** Each pending packet: at most ten retransmissions, a timeout from 200 ms to 2 s, and the next one not due before
      the waits so far have passed. Each packet given up: all ten retransmissions made, and 17.0 s or more since its
      first send. */
  ghost predicate TimersOK(x: P.Node) {
    && (forall s :: s in x.ep.pending ==> GoodPending(x.ep.pending[s]) && x.ep.pending[s].rto <= 2_000_000_000)
    && (forall s :: s in x.h.expired ==> GoodExit(x.h.expired[s]))
  }

  lemma BackoffInRange(r: nat)
    ensures 200_000_000 <= Backoff(r) <= 2_000_000_000
  {
  }

  lemma TickKeepsTimers(x: P.Node, now: int)
    requires TimersOK(x)
    ensures TimersOK(P.Acted(x, P.Tick(now)).0)
  {
    var r := P.Acted(x, P.Tick(now)).0;
    var q := x.ep.pending;
    LastWait();
    forall s | s in r.ep.pending ensures GoodPending(r.ep.pending[s]) && r.ep.pending[s].rto <= 2_000_000_000 {
      if Due(q[s], now) {
        BumpedGood(q[s], now);
      }
    }
    forall s | s in r.h.expired ensures GoodExit(r.h.expired[s]) {
      assert s in ExpiredSet(q, now) ==> GoodPending(q[s]) && GivenUp(q[s], now);
    }
  }

  lemma SendKeepsTimers(x: P.Node, payload: Bytes, outcome: Outcome, now: int)
    requires TimersOK(x)
    ensures TimersOK(P.Acted(x, P.Send(payload, outcome, now)).0)
  {
    RtoRange(x.ep);
    var pkt := DataPacket(x.ep, payload);
    var added := Fresh(pkt, now, Rto(x.ep));
    assert GoodPending(added) && added.rto <= 2_000_000_000;
    hide Rto, DataPacket, Fresh, GoodPending;
  }

  /** Everything else leaves what stays pending as it was. */
  lemma OthersKeepTimers(x: P.Node, ev: P.Event)
    requires TimersOK(x) && !ev.Send? && !ev.Tick?
    ensures TimersOK(P.Acted(x, ev).0)
  {
    var r := P.Acted(x, ev).0;
    assert forall s :: s in r.ep.pending ==> s in x.ep.pending && r.ep.pending[s] == x.ep.pending[s];
    assert r.h.expired == x.h.expired;
  }

  lemma ActedKeepsTimers(x: P.Node, ev: P.Event)
    requires TimersOK(x)
    ensures TimersOK(P.Acted(x, ev).0)
  {
    match ev
    case Tick(now) => TickKeepsTimers(x, now);
    case Send(payload, outcome, now) => SendKeepsTimers(x, payload, outcome, now);
    case _ => OthersKeepTimers(x, ev);
  }

  /** In every run, at both ends, whatever the clock readings handed to the operations. */
  lemma {:induction false} RetransmissionTimes(connID: uint16, capA: nat, capB: nat, ms: seq<P.Move>)
    ensures var s := P.Reached(P.NewSys(connID, capA, capB), ms); TimersOK(s.a) && TimersOK(s.b)
  {
    if ms != [] {
      var q, m := P.Reached(P.NewSys(connID, capA, capB), ms[..|ms| - 1]), ms[|ms| - 1];
      RetransmissionTimes(connID, capA, capB, ms[..|ms| - 1]);
      ActedKeepsTimers(q.a, m.ev);
      ActedKeepsTimers(q.b, m.ev);
    }
  }

  // ----- what is resent -----

  /** The packet carries this number's payload from the log, the end's current window, and the flags of reliable data.
      */
  predicate IsResend(x: P.Node, s: uint32, p: Packet)
    requires 1 <= s <= |x.h.log| && x.h.log[s - 1].Tracked?
  {
    && p.seqNo == s && p.payload == P.Arriving(x.h.log[s - 1].payload) && p.flags == 10
    && p.ack == x.ep.win.ack && p.ackMask == x.ep.win.mask
  }

  /** A tick at this time must resend the number. */
  predicate MustResend(x: P.Node, s: uint32, now: int) {
    s in x.ep.pending && x.ep.pending[s].retries < 10 && now >= x.ep.pending[s].nextRetx
  }

  lemma LoggedPending(x: P.Node, xy: set<Packet>, s: uint32)
    requires P.SendOK(x, xy) && s in x.ep.pending
    ensures 1 <= s <= |x.h.log| && x.h.log[s - 1].Tracked?
  {
  }

  lemma DueIsResent(x: P.Node, xy: set<Packet>, now: int, s: uint32) returns (p: Packet)
    requires P.SendOK(x, xy) && MustResend(x, s, now)
    ensures 1 <= s <= |x.h.log| && x.h.log[s - 1].Tracked?
    ensures p in P.Acted(x, P.Tick(now)).1 && IsResend(x, s, p)
  {
    LoggedPending(x, xy, s);
    var q := Stamped(x.ep, x.ep.pending[s].pkt);
    assert s in RetrySet(x.ep.pending, now);
    assert q in Retransmitted(x.ep, now);
    p := P.OnWire(q);
  }

  lemma ResentIsDue(x: P.Node, xy: set<Packet>, now: int, p: Packet)
    requires P.SendOK(x, xy) && p in P.Acted(x, P.Tick(now)).1
    ensures MustResend(x, p.seqNo, now)
    ensures p == P.OnWire(Stamped(x.ep, x.ep.pending[p.seqNo].pkt))
  {
    var q :| q in Retransmitted(x.ep, now) && p == P.OnWire(q);
    var s :| s in RetrySet(x.ep.pending, now) && q == Stamped(x.ep, x.ep.pending[s].pkt);
  }

  /** A tick puts on the network exactly one packet for each number that is due and not exhausted, and no other. */
  lemma TickResends(x: P.Node, xy: set<Packet>, now: int)
    requires P.SendOK(x, xy)
    ensures forall s: uint32 :: MustResend(x, s, now) ==>
              && 1 <= s <= |x.h.log| && x.h.log[s - 1].Tracked?
              && exists p :: p in P.Acted(x, P.Tick(now)).1 && IsResend(x, s, p)
    ensures forall p :: p in P.Acted(x, P.Tick(now)).1 ==> MustResend(x, p.seqNo, now)
    ensures var out := P.Acted(x, P.Tick(now)).1;
            forall p, q :: p in out && q in out && p.seqNo == q.seqNo ==> p == q
  {
    hide P.SendOK, P.Acted, MustResend, IsResend;
    var out := P.Acted(x, P.Tick(now)).1;
    forall s: uint32 | MustResend(x, s, now)
      ensures 1 <= s <= |x.h.log| && x.h.log[s - 1].Tracked? && exists p :: p in out && IsResend(x, s, p)
    {
      var p := DueIsResent(x, xy, now, s);
    }
    forall p | p in out
      ensures MustResend(x, p.seqNo, now)
      ensures p.seqNo in x.ep.pending && p == P.OnWire(Stamped(x.ep, x.ep.pending[p.seqNo].pkt))
    {
      ResentIsDue(x, xy, now, p);
      DueIsPending(x, p.seqNo, now);
    }
  }

  lemma DueIsPending(x: P.Node, s: uint32, now: int)
    requires MustResend(x, s, now)
    ensures s in x.ep.pending
  {
  }

  /** The same tick doubles the timeout of what it resends, up to 2 s, and counts; gives up what was due and exhausted;
      and leaves the rest alone. */
  lemma TickBooks(x: P.Node, now: int)
    ensures var q, r := x.ep.pending, P.Acted(x, P.Tick(now)).0.ep.pending;
            && (forall s :: s in r <==> s in q && !(now >= q[s].nextRetx && q[s].retries >= 10))
            && (forall s :: s in r && now < q[s].nextRetx ==> r[s] == q[s])
            && (forall s :: s in r && now >= q[s].nextRetx ==>
                  && r[s].retries == q[s].retries + 1 && r[s].sentAt == q[s].sentAt
                  && r[s].rto == (if 2 * q[s].rto > 2_000_000_000 then 2_000_000_000 else 2 * q[s].rto)
                  && r[s].nextRetx == now + r[s].rto)
  {
  }

  /** A tracked packet is first due after the connection's timeout. */
  lemma SendBooks(x: P.Node, payload: Bytes, outcome: Outcome, now: int)
    requires outcome != Failed
    ensures var r, s := P.Acted(x, P.Send(payload, outcome, now)).0.ep.pending, Inc32(x.ep.sendSeq);
            && s in r && r[s].retries == 0 && r[s].sentAt == now && r[s].rto == Rto(x.ep)
            && r[s].nextRetx == now + Rto(x.ep)
            && forall t :: t in x.ep.pending && t != s ==> t in r && r[t] == x.ep.pending[t]
  {
    RtoRange(x.ep);
  }

  // ----- how often each number is resent, over whole runs -----

  /** In this move the end (b when flipped) puts a retransmission of the number on the network. */
  ghost predicate Resends(q: P.Sys, m: P.Move, flipped: bool, s: uint32) {
    var x := if flipped then q.b else q.a;
    m.flipped == flipped && m.ev.Tick? && exists p :: p in P.Acted(x, m.ev).1 && p.seqNo == s
  }

  ghost function ResendCount(s0: P.Sys, ms: seq<P.Move>, flipped: bool, s: uint32): nat {
    if ms == [] then 0
    else
      ResendCount(s0, ms[..|ms| - 1], flipped, s)
      + if Resends(P.Reached(s0, ms[..|ms| - 1]), ms[|ms| - 1], flipped, s) then 1 else 0
  }

  /** The retransmissions counted for a number are those on the network; ten of them before it is given up. */
  ghost predicate CountsFor(x: P.Node, s: uint32, count: nat) {
    && (s in x.ep.pending ==> count == x.ep.pending[s].retries)
    && (s in x.h.expired ==> count == 10)
    && (s as nat > |x.h.log| ==> count == 0)
  }

  lemma ActedCounts(x: P.Node, xy: set<Packet>, ev: P.Event, s: uint32, count: nat)
    requires P.SendOK(x, xy) && CountsFor(x, s, count) && |P.Acted(x, ev).0.h.log| < P.HALF_SPACE
    requires forall t :: t in x.ep.pending ==> x.ep.pending[t].retries <= 10
    requires forall t :: t in x.h.expired ==> 1 <= t <= |x.h.log| && t !in x.ep.pending
    ensures var again := ev.Tick? && exists p :: p in P.Acted(x, ev).1 && p.seqNo == s;
            CountsFor(P.Acted(x, ev).0, s, count + if again then 1 else 0)
  {
    match ev
    case Tick(now) => TickCounts(x, xy, now, s, count);
    case Send(payload, outcome, now) => SendCounts(x, xy, payload, outcome, now, s, count);
    case _ => OthersCount(x, ev, s, count);
  }

  lemma OthersCount(x: P.Node, ev: P.Event, s: uint32, count: nat)
    requires CountsFor(x, s, count) && !ev.Send? && !ev.Tick?
    ensures CountsFor(P.Acted(x, ev).0, s, count)
  {
    var r := P.Acted(x, ev).0;
    assert forall t :: t in r.ep.pending ==> t in x.ep.pending && r.ep.pending[t] == x.ep.pending[t];
    assert r.h.expired == x.h.expired;
    P.ActedExtends(x, ev);
  }

  lemma TickCounts(x: P.Node, xy: set<Packet>, now: int, s: uint32, count: nat)
    requires P.SendOK(x, xy) && CountsFor(x, s, count)
    requires forall t :: t in x.ep.pending ==> x.ep.pending[t].retries <= 10
    requires forall t :: t in x.h.expired ==> 1 <= t <= |x.h.log| && t !in x.ep.pending
    ensures var again := exists p :: p in P.Acted(x, P.Tick(now)).1 && p.seqNo == s;
            CountsFor(P.Acted(x, P.Tick(now)).0, s, count + if again then 1 else 0)
  {
    var r := P.Acted(x, P.Tick(now));
    TickResends(x, xy, now);
    TickBooks(x, now);
    assert (exists p :: p in r.1 && p.seqNo == s) <==> MustResend(x, s, now) by {
      if MustResend(x, s, now) {
        var p :| p in r.1 && IsResend(x, s, p);
      }
    }
    if s in x.ep.pending {
      LoggedPending(x, xy, s);
    }
    assert r.0.h.expired == x.h.expired + Exits(x.ep.pending, now);
  }

  lemma SendCounts(x: P.Node, xy: set<Packet>, payload: Bytes, outcome: Outcome, now: int, s: uint32, count: nat)
    requires P.SendOK(x, xy) && CountsFor(x, s, count) && |x.h.log| + 1 < P.HALF_SPACE
    requires forall t :: t in x.h.expired ==> 1 <= t <= |x.h.log| && t !in x.ep.pending
    ensures CountsFor(P.Acted(x, P.Send(payload, outcome, now)).0, s, count)
  {
    if outcome != Failed {
      SendBooks(x, payload, outcome, now);
    }
  }

  lemma ExpiredLogged(x: P.Node, noted: set<nat>)
    requires P.BookOK(x, noted)
    ensures forall t :: t in x.h.expired ==> 1 <= t <= |x.h.log| && t !in x.ep.pending
  {
    forall t | t in x.h.expired ensures 1 <= t <= |x.h.log| && t !in x.ep.pending {
      assert P.IsTracked(x.h.log, t);
    }
  }

  lemma MoveCounts(q: P.Sys, m: P.Move, s: uint32, ca: nat, cb: nat)
    requires P.Inv(q) && TimersOK(q.a) && TimersOK(q.b) && CountsFor(q.a, s, ca) && CountsFor(q.b, s, cb)
    requires |P.Moved(q, m).a.h.log| < P.HALF_SPACE && |P.Moved(q, m).b.h.log| < P.HALF_SPACE
    ensures CountsFor(P.Moved(q, m).a, s, ca + if Resends(q, m, false, s) then 1 else 0)
    ensures CountsFor(P.Moved(q, m).b, s, cb + if Resends(q, m, true, s) then 1 else 0)
  {
    hide P.RecvOK, P.AckOK, P.SendOK, P.Acted, CountsFor, GoodExit;
    if m.flipped {
      ExpiredLogged(q.b, q.a.h.noted);
      hide P.BookOK;
      if !(m.ev.Receive? && m.ev.p !in q.ab) {
        ActedCounts(q.b, q.ba, m.ev, s, cb);
      }
    } else {
      ExpiredLogged(q.a, q.b.h.noted);
      hide P.BookOK;
      if !(m.ev.Receive? && m.ev.p !in q.ba) {
        ActedCounts(q.a, q.ab, m.ev, s, ca);
      }
    }
  }

  /** In every run, each pending number has been resent as often as its entry says, and each number given up exactly ten
      times. */
  lemma {:induction false} ResentAsCounted(connID: uint16, capA: nat, capB: nat, ms: seq<P.Move>, s: uint32)
    requires var r := P.Reached(P.NewSys(connID, capA, capB), ms);
             |r.a.h.log| < P.HALF_SPACE && |r.b.h.log| < P.HALF_SPACE
    ensures var s0 := P.NewSys(connID, capA, capB);
            && CountsFor(P.Reached(s0, ms).a, s, ResendCount(s0, ms, false, s))
            && CountsFor(P.Reached(s0, ms).b, s, ResendCount(s0, ms, true, s))
  {
    if ms != [] {
      hide P.Inv, P.Acted, P.Moved, TimersOK, CountsFor, Resends;
      var s0, p, m := P.NewSys(connID, capA, capB), ms[..|ms| - 1], ms[|ms| - 1];
      var q := P.Reached(s0, p);
      P.LogsGrow(q, m);
      ResentAsCounted(connID, capA, capB, p, s);
      RetransmissionTimes(connID, capA, capB, p);
      P.NewSysInv(connID, capA, capB);
      P.EveryRun(s0, p);
      MoveCounts(q, m, s, ResendCount(s0, p, false, s), ResendCount(s0, p, true, s));
    }
  }
}
