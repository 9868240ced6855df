/** What the reliable transport guarantees in every run. */
module Transport {
  import opened Words
  import opened Packets
  import opened Reorder
  import opened Acks
  import opened Retx
  import opened Endpoints
  import opened Protocol

  /** Neither end has used up half of its 32-bit sequence space: no number has wrapped. */
  ghost predicate Short(s: Sys) {
    |s.a.h.log| < HALF_SPACE && |s.b.h.log| < HALF_SPACE
  }

  /** Everything the reorder buffer of y ever handed over is x's first payloads, in order, each once, with no gap;
      what entered the inbox is a subsequence of that, and all of it unless the inbox overflowed. */
  ghost predicate InOrder(x: Node, y: Node) {
    var k := |y.h.delivered|;
    && y.ep.buf.next == k + 1
    && k <= |x.h.log| && y.h.delivered == WireLog(x.h.log)[..k]
    && (forall n :: 1 <= n <= k ==> IsTracked(x.h.log, n))
    && IsSubsequence(y.h.entered, y.h.delivered)
    && (!y.h.overflowed ==> y.h.entered == y.h.delivered)
  }

  lemma LinkInOrder(x: Node, y: Node, xy: set<Packet>, yx: set<Packet>)
    requires Link(x, y, xy, yx)
    ensures InOrder(x, y)
  {
    var u := y.h.view;
    forall n | 1 <= n < u.next ensures IsTracked(x.h.log, n) {
      assert Kept(u, n);
    }
  }

  /** Safety, both ways at once, for every interleaving of sending, loss, duplication, reordering and retransmission. */
  lemma DeliveryInOrder(connID: uint16, capA: nat, capB: nat, ms: seq<Move>)
    requires Short(Reached(NewSys(connID, capA, capB), ms))
    ensures var s := Reached(NewSys(connID, capA, capB), ms);
            InOrder(s.a, s.b) && InOrder(s.b, s.a)
  {
    NewSysInv(connID, capA, capB);
    EveryRun(NewSys(connID, capA, capB), ms);
    var s := Reached(NewSys(connID, capA, capB), ms);
    LinkInOrder(s.a, s.b, s.ab, s.ba);
    LinkInOrder(s.b, s.a, s.ba, s.ab);
  }

  /** Acknowledgements in flight, however stale and on whatever packet, name only received numbers;
      so each tracked number is exactly one of pending, expired, or acknowledged after the peer received it. */
  ghost predicate AcksSound(x: Node, y: Node, yx: set<Packet>) {
    && (forall p, s :: p in yx && p.IsACK() && s in Named(Window(p.ack, p.ackMask)) ==> s == 0 || s as nat in y.h.noted)
    && (forall s :: s in x.h.acked ==> s as nat in y.h.noted)
    && (forall n: uint32 :: IsTracked(x.h.log, n) <==> n in x.ep.pending || n in x.h.acked || n in x.h.expired)
    && x.ep.pending.Keys !! x.h.acked !! x.h.expired.Keys
  }

  lemma AcknowledgedMeansReceived(connID: uint16, capA: nat, capB: nat, ms: seq<Move>)
    requires Short(Reached(NewSys(connID, capA, capB), ms))
    ensures var s := Reached(NewSys(connID, capA, capB), ms);
            && AcksSound(s.a, s.b, s.ba) && AcksSound(s.b, s.a, s.ab)
            && Exact(s.a.ep.win, s.a.h.noted) && Exact(s.b.ep.win, s.b.h.noted)
  {
    NewSysInv(connID, capA, capB);
    EveryRun(NewSys(connID, capA, capB), ms);
  }

  // ----- which numbers a receiver keeps -----

  /** The number is delivered or buffered at this end. */
  predicate Holds(e: Endpoint, n: uint32) {
    n < e.buf.next || n in e.buf.held
  }

  lemma HoldsIsKept(log: seq<Slot>, y: Node, n: uint32)
    requires BufferOK(log, y) && |log| < HALF_SPACE && n >= 1
    ensures y.ep.buf.next == y.h.view.next
    ensures Holds(y.ep, n) <==> Kept(y.h.view, n)
  {
    var b, u := y.ep.buf, y.h.view;
    if n in u.held {
      assert SameAt(b, u, n - u.next);
    }
    if n in b.held {
      var d := Sub32(n, b.next);
      DistanceInverse(b.next, n);
      assert SameAt(b, u, d);
    }
  }

  /** The packet lies at most 512 places beyond the next expected one. */
  predicate Near(e: Endpoint, p: Packet) {
    CarriesData(p) ==> p.seqNo <= e.buf.next + 512
  }

  /** An arrival adds its own number to what the receiver holds if it is near, and nothing if it is far. */
  lemma ArrivalHolds(log: seq<Slot>, y: Node, p: Packet, now: int, n: uint32)
    requires BufferOK(log, y) && |log| < HALF_SPACE && ArrivesFrom(log, p) && n >= 1
    ensures Holds(AfterReceipt(y, p, now).ep, n) <==> Holds(y.ep, n) || (n == p.seqNo && Near(y.ep, p))
  {
    hide AfterReceipt, Inserted, UInserted, Kept, Holds;
    var z := AfterReceipt(y, p, now);
    ReceiptKeepsBufferOK(log, y, p, now);
    ReceiptInserts(y, p, now);
    var u := OneArrival(y.ep.buf, y.h.view, MAX_BUFFERED, WireLog(log), p.seqNo);
    assert z.h.view == u;
    assert Kept(u, n) <==> Kept(y.h.view, n) || (n == p.seqNo && p.seqNo <= y.h.view.next + MAX_BUFFERED);
    HoldsIsKept(log, y, n);
    HoldsIsKept(log, z, n);
  }

  lemma FarIsNotHeld(log: seq<Slot>, y: Node, n: uint32)
    requires BufferOK(log, y) && |log| < HALF_SPACE && n > y.ep.buf.next + MAX_BUFFERED
    ensures !Holds(y.ep, n)
  {
    HoldsIsKept(log, y, n);
  }

  // ----- exactly what is delivered -----

  /** In this move the end (b when flipped) takes a data packet with this number from the network, and it is near. */
  ghost predicate TakesNear(q: Sys, m: Move, flipped: bool, n: uint32) {
    var x, net := if flipped then q.b else q.a, if flipped then q.ab else q.ba;
    && m.flipped == flipped && m.ev.Receive? && m.ev.p in net
    && CarriesData(m.ev.p) && m.ev.p.seqNo == n && Near(x.ep, m.ev.p)
  }

  ghost predicate EverNear(s: Sys, ms: seq<Move>, flipped: bool, n: uint32) {
    ms != [] &&
      (EverNear(s, ms[..|ms| - 1], flipped, n) || TakesNear(Reached(s, ms[..|ms| - 1]), ms[|ms| - 1], flipped, n))
  }

  lemma ReceiptHolds(x: Node, y: Node, xy: set<Packet>, ev: Protocol.Event, n: uint32)
    requires SendOK(x, xy) && BufferOK(x.h.log, y) && n >= 1 && (ev.Receive? ==> ev.p in xy)
    ensures Holds(Acted(y, ev).0.ep, n) <==>
            Holds(y.ep, n) || (ev.Receive? && CarriesData(ev.p) && ev.p.seqNo == n && Near(y.ep, ev.p))
  {
    if ev.Receive? && CarriesData(ev.p) {
      ArrivalHolds(x.h.log, y, ev.p, ev.now, n);
    }
  }

  lemma MoveHolds(q: Sys, m: Move, n: uint32)
    requires Inv(q) && n >= 1
    ensures Holds(Moved(q, m).a.ep, n) <==> Holds(q.a.ep, n) || TakesNear(q, m, false, n)
    ensures Holds(Moved(q, m).b.ep, n) <==> Holds(q.b.ep, n) || TakesNear(q, m, true, n)
  {
    if m.flipped {
      if !(m.ev.Receive? && m.ev.p !in q.ab) {
        ReceiptHolds(q.a, q.b, q.ab, m.ev, n);
      }
    } else {
      if !(m.ev.Receive? && m.ev.p !in q.ba) {
        ReceiptHolds(q.b, q.a, q.ba, m.ev, n);
      }
    }
  }

  /** What an end holds is what it has taken near, no more and no less. */
  lemma {:induction false} HoldsExactlyNear(connID: uint16, capA: nat, capB: nat, ms: seq<Move>, n: uint32)
    requires Short(Reached(NewSys(connID, capA, capB), ms)) && n >= 1
    ensures var s0 := NewSys(connID, capA, capB);
            && (Holds(Reached(s0, ms).a.ep, n) <==> EverNear(s0, ms, false, n))
            && (Holds(Reached(s0, ms).b.ep, n) <==> EverNear(s0, ms, true, n))
  {
    if ms != [] {
      var s0, p := NewSys(connID, capA, capB), ms[..|ms| - 1];
      LogsGrow(Reached(s0, p), ms[|ms| - 1]);
      NewSysInv(connID, capA, capB);
      EveryRun(s0, p);
      HoldsExactlyNear(connID, capA, capB, p, n);
      MoveHolds(Reached(s0, p), ms[|ms| - 1], n);
    }
  }

  predicate HoldsUpTo(e: Endpoint, n: nat) {
    forall k: uint32 :: 1 <= k <= n ==> Holds(e, k)
  }

  ghost predicate NearUpTo(s: Sys, ms: seq<Move>, flipped: bool, n: nat) {
    forall k: uint32 :: 1 <= k <= n ==> EverNear(s, ms, flipped, k)
  }

  /** At least n payloads are delivered if and only if all numbers up to n are held. */
  lemma DeliveredMeansHeld(x: Node, y: Node, xy: set<Packet>, yx: set<Packet>, n: nat)
    requires Link(x, y, xy, yx) && n < HALF_SPACE
    ensures |y.h.delivered| >= n <==> HoldsUpTo(y.ep, n)
  {
    LinkInOrder(x, y, xy, yx);
    var next: uint32 := y.ep.buf.next;
    HoldsIsKept(x.h.log, y, next);
    assert !Holds(y.ep, next);
  }

  lemma HeldMeansNear(connID: uint16, capA: nat, capB: nat, ms: seq<Move>, n: nat)
    requires Short(Reached(NewSys(connID, capA, capB), ms))
    ensures var s0 := NewSys(connID, capA, capB);
            && (HoldsUpTo(Reached(s0, ms).a.ep, n) <==> NearUpTo(s0, ms, false, n))
            && (HoldsUpTo(Reached(s0, ms).b.ep, n) <==> NearUpTo(s0, ms, true, n))
  {
    var s0 := NewSys(connID, capA, capB);
    hide Reached, EverNear, Holds, Short;
    var s := Reached(s0, ms);
    forall k: uint32 | 1 <= k <= n
      ensures Holds(s.a.ep, k) <==> EverNear(s0, ms, false, k)
      ensures Holds(s.b.ep, k) <==> EverNear(s0, ms, true, k)
    {
      HoldsExactlyNear(connID, capA, capB, ms, k);
    }
  }

  /** Exactly what is delivered, over whole runs: at least n payloads if and only if each number up to n has arrived at
      least once while it was near. */
  lemma DeliveredExactlyWhenNear(connID: uint16, capA: nat, capB: nat, ms: seq<Move>, n: nat)
    requires Short(Reached(NewSys(connID, capA, capB), ms)) && n < HALF_SPACE
    ensures var s0 := NewSys(connID, capA, capB);
            && (|Reached(s0, ms).a.h.delivered| >= n <==> NearUpTo(s0, ms, false, n))
            && (|Reached(s0, ms).b.h.delivered| >= n <==> NearUpTo(s0, ms, true, n))
  {
    var s0 := NewSys(connID, capA, capB);
    NewSysInv(connID, capA, capB);
    EveryRun(s0, ms);
    HeldMeansNear(connID, capA, capB, ms, n);
    var s := Reached(s0, ms);
    hide Reached, Link, HoldsUpTo, NearUpTo;
    DeliveredMeansHeld(s.a, s.b, s.ab, s.ba, n);
    DeliveredMeansHeld(s.b, s.a, s.ba, s.ab, n);
  }

  /** Only numbers that carry data, and have arrived, were ever taken near. */
  lemma NearWasSent(connID: uint16, capA: nat, capB: nat, ms: seq<Move>, n: uint32)
    requires Short(Reached(NewSys(connID, capA, capB), ms)) && n >= 1
    ensures var s0 := NewSys(connID, capA, capB);
            var s := Reached(s0, ms);
            && (EverNear(s0, ms, true, n) ==> IsSent(s.a.h.log, n) && n as nat in s.b.h.noted)
            && (EverNear(s0, ms, false, n) ==> IsSent(s.b.h.log, n) && n as nat in s.a.h.noted)
  {
    var s0 := NewSys(connID, capA, capB);
    NewSysInv(connID, capA, capB);
    EveryRun(s0, ms);
    HoldsExactlyNear(connID, capA, capB, ms, n);
    var s := Reached(s0, ms);
    HoldsIsKept(s.a.h.log, s.b, n);
    HoldsIsKept(s.b.h.log, s.a, n);
  }

  /** So a number that was spent without data (on an unreliable packet, a failed send or an empty payload) stops
      delivery in its direction for ever, and one that has not arrived stops it until it does. */
  lemma GapsStopDelivery(connID: uint16, capA: nat, capB: nat, ms: seq<Move>, n: nat)
    requires Short(Reached(NewSys(connID, capA, capB), ms))
    ensures var s := Reached(NewSys(connID, capA, capB), ms);
            && (1 <= n <= |s.a.h.log| && (!IsSent(s.a.h.log, n) || n !in s.b.h.noted) ==> |s.b.h.delivered| < n)
            && (1 <= n <= |s.b.h.log| && (!IsSent(s.b.h.log, n) || n !in s.a.h.noted) ==> |s.a.h.delivered| < n)
  {
    var s0 := NewSys(connID, capA, capB);
    var s := Reached(s0, ms);
    if 1 <= n < HALF_SPACE {
      var k: uint32 := n;
      DeliveredExactlyWhenNear(connID, capA, capB, ms, n);
      NearWasSent(connID, capA, capB, ms, k);
      hide Reached, EverNear, IsSent;
      assert |s.b.h.delivered| >= n ==> EverNear(s0, ms, true, k);
      assert |s.a.h.delivered| >= n ==> EverNear(s0, ms, false, k);
    }
  }

  /** Every packet that arrives in the run is near its receiver's next expected number at that moment. */
  ghost predicate ArrivalsNear(s: Sys, ms: seq<Move>) {
    ms != [] ==>
      var q, m := Reached(s, ms[..|ms| - 1]), ms[|ms| - 1];
      && ArrivalsNear(s, ms[..|ms| - 1])
      && (m.ev.Receive? ==>
            if m.flipped then m.ev.p in q.ab ==> Near(q.b.ep, m.ev.p) else m.ev.p in q.ba ==> Near(q.a.ep, m.ev.p))
  }

  /** Every data packet that arrives in the run is delivered or buffered by its receiver right after. */
  ghost predicate ArrivalsHeld(s: Sys, ms: seq<Move>) {
    ms != [] ==>
      var q, r, m := Reached(s, ms[..|ms| - 1]), Reached(s, ms), ms[|ms| - 1];
      && ArrivalsHeld(s, ms[..|ms| - 1])
      && (m.ev.Receive? && CarriesData(m.ev.p) ==>
            if m.flipped then m.ev.p in q.ab ==> Holds(r.b.ep, m.ev.p.seqNo)
            else m.ev.p in q.ba ==> Holds(r.a.ep, m.ev.p.seqNo))
  }

  lemma HeldIffNear(x: Node, y: Node, xy: set<Packet>, p: Packet, now: int)
    requires SendOK(x, xy) && BufferOK(x.h.log, y) && p in xy && CarriesData(p)
    ensures Holds(AfterReceipt(y, p, now).ep, p.seqNo) <==> Near(y.ep, p)
  {
    ArrivalHolds(x.h.log, y, p, now, p.seqNo);
    if !Near(y.ep, p) {
      FarIsNotHeld(x.h.log, y, p.seqNo);
    }
  }

  lemma MoveHeldIffNear(q: Sys, m: Move)
    requires Inv(q) && m.ev.Receive? && CarriesData(m.ev.p)
    ensures m.flipped && m.ev.p in q.ab ==> (Holds(Moved(q, m).b.ep, m.ev.p.seqNo) <==> Near(q.b.ep, m.ev.p))
    ensures !m.flipped && m.ev.p in q.ba ==> (Holds(Moved(q, m).a.ep, m.ev.p.seqNo) <==> Near(q.a.ep, m.ev.p))
  {
    if m.flipped && m.ev.p in q.ab {
      HeldIffNear(q.a, q.b, q.ab, m.ev.p, m.ev.now);
    } else if !m.flipped && m.ev.p in q.ba {
      HeldIffNear(q.b, q.a, q.ba, m.ev.p, m.ev.now);
    }
  }

  /** No receiver ever drops an arrival if and only if every arrival is near. */
  lemma {:induction false} DropsExactlyWhenFar(s: Sys, ms: seq<Move>)
    requires Inv(s) && Short(Reached(s, ms))
    ensures ArrivalsHeld(s, ms) <==> ArrivalsNear(s, ms)
  {
    if ms != [] {
      var p, m := ms[..|ms| - 1], ms[|ms| - 1];
      var q := Reached(s, p);
      LogsGrow(q, m);
      EveryRun(s, p);
      DropsExactlyWhenFar(s, p);
      assert Reached(s, ms) == Moved(q, m);
      if m.ev.Receive? && CarriesData(m.ev.p) {
        MoveHeldIffNear(q, m);
      }
      hide Inv, Moved, Holds, CarriesData;
      assert m.ev.Receive? && !CarriesData(m.ev.p) ==> Near(q.a.ep, m.ev.p) && Near(q.b.ep, m.ev.p);
    }
  }

  // ----- which numbers a sender loses -----

  /** Where a tracked number can be when it is not lost. */
  ghost predicate Accounted(x: Node, y: Node, n: uint32) {
    || n in x.ep.pending
    || n in x.h.expired
    || Holds(y.ep, n)
  }

  /** An acknowledgement loses a pending number if and only if it names one that the receiver does not hold. */
  lemma AckLoses(x: Node, y: Node, q: Packet, now: int, n: uint32)
    requires n in x.ep.pending && n !in x.h.expired
    ensures !Accounted(AfterReceipt(x, q, now), y, n) <==>
            q.IsACK() && n in Named(Window(q.ack, q.ackMask)) && !Holds(y.ep, n)
  {
  }

  /** What the sender still has to reckon with after the receiver got p, acknowledged it, and the acknowledgement
      arrived. */
  ghost function RoundTrip(s: Sys, p: Packet, now: int, later: int): Sys {
    var s1 := Moved(s, Move(true, Receive(p, now)));
    var s2 := Moved(s1, Move(true, SendAck));
    Moved(s2, Move(false, Receive(PureAck(s1.b.ep), later)))
  }

  /** A bit of an exact window is set for a noted number within 32 places. */
  lemma ExactNames(w: Window, noted: set<nat>, n: uint32)
    requires Exact(w, noted) && n as nat in noted && w.ack < HALF_SPACE && n >= 1
    ensures n in Named(w) <==> w.ack <= n + 32
  {
    if n < w.ack <= n + 32 {
      assert Bit(w.mask, w.ack - 1 - n);
      assert BitSeq(w.ack, w.ack - 1 - n) == n;
    }
    if n in Named(w) && n != w.ack {
      var i :| 0 <= i < 32 && Bit(w.mask, i) && n == BitSeq(w.ack, i);
      assert i < w.ack;
    }
  }

  lemma RoundTripEnds(s: Sys, p: Packet, now: int, later: int)
    requires p in s.ab
    ensures var t, y := RoundTrip(s, p, now, later), AfterReceipt(s.b, p, now);
            t.b == y && t.a == AfterReceipt(s.a, PureAck(y.ep), later)
  {
    var s1 := Moved(s, Move(true, Receive(p, now)));
    assert s1.b == AfterReceipt(s.b, p, now) && s1.a == s.a;
    var s2 := Moved(s1, Move(true, SendAck));
    assert PureAck(s1.b.ep) in s2.ba && s2.a == s.a && s2.b == s1.b;
  }

  /** Exactly when a packet is silently lost, from any state of any run: p, still pending at its sender, reaches the
      receiver, the receiver acknowledges, and the acknowledgement gets back. The packet is lost if and only if it lay
      more than 512 ahead and the acknowledgement still covers it. */
  lemma LostExactlyWhenFar(s: Sys, p: Packet, now: int, later: int)
    requires Inv(s) && p in s.ab && CarriesData(p) && p.seqNo in s.a.ep.pending
    ensures var t := RoundTrip(s, p, now, later);
            !Accounted(t.a, t.b, p.seqNo) <==>
            p.seqNo > s.b.ep.buf.next + 512 && t.b.ep.win.ack <= p.seqNo + 32
  {
    var y := AfterReceipt(s.b, p, now);
    RoundTripEnds(s, p, now, later);
    HeldIffNear(s.a, s.b, s.ab, p, now);
    ReceiptKeepsWindowOK(s.a.h.log, s.b, p, now);
    ExactNames(y.ep.win, y.h.noted, p.seqNo);
    FlagBits();
    AckLoses(s.a, y, PureAck(y.ep), later, p.seqNo);
  }

  // ----- no silent loss in a run -----

  lemma LostByReceipt(log: seq<Slot>, y: Node, ev: Protocol.Event)
    requires BufferOK(log, y) && |log| < HALF_SPACE
    ensures y.h.lost == {} && (ev.Receive? ==> Near(y.ep, ev.p)) ==> Acted(y, ev).0.h.lost == {}
  {
    assert y.ep.buf.next == y.h.view.next;
  }

  lemma {:induction false} NothingLost(s: Sys, ms: seq<Move>)
    requires Inv(s) && s.a.h.lost == {} == s.b.h.lost && Short(Reached(s, ms)) && ArrivalsNear(s, ms)
    ensures Reached(s, ms).a.h.lost == {} == Reached(s, ms).b.h.lost
  {
    if ms != [] {
      var p := ms[..|ms| - 1];
      var q, m := Reached(s, p), ms[|ms| - 1];
      LogsGrow(q, m);
      EveryRun(s, p);
      NothingLost(s, p);
      if m.flipped {
        LostByReceipt(q.a.h.log, q.b, m.ev);
      } else {
        LostByReceipt(q.b.h.log, q.a, m.ev);
      }
    }
  }

  /** No silent loss: if every arrival is near, each reliably sent number is pending, expired, buffered or delivered at
      all times. */
  lemma NoSilentLoss(connID: uint16, capA: nat, capB: nat, ms: seq<Move>, n: uint32)
    requires Short(Reached(NewSys(connID, capA, capB), ms)) && ArrivalsNear(NewSys(connID, capA, capB), ms)
    ensures var s := Reached(NewSys(connID, capA, capB), ms);
            && (IsTracked(s.a.h.log, n) ==> Accounted(s.a, s.b, n))
            && (IsTracked(s.b.h.log, n) ==> Accounted(s.b, s.a, n))
  {
    var s := Reached(NewSys(connID, capA, capB), ms);
    NewSysInv(connID, capA, capB);
    EveryRun(NewSys(connID, capA, capB), ms);
    NothingLost(NewSys(connID, capA, capB), ms);
    if IsTracked(s.a.h.log, n) {
      LinkAccounts(s.a, s.b, s.ab, s.ba, n);
    }
    if IsTracked(s.b.h.log, n) {
      LinkAccounts(s.b, s.a, s.ba, s.ab, n);
    }
  }

  lemma LinkAccounts(x: Node, y: Node, xy: set<Packet>, yx: set<Packet>, n: uint32)
    requires Link(x, y, xy, yx) && y.h.lost == {} && IsTracked(x.h.log, n)
    ensures Accounted(x, y, n)
  {
    if n in x.h.acked {
      assert Kept(y.h.view, n);
      HoldsIsKept(x.h.log, y, n);
    }
  }

  /** In this move the end takes from the network an acknowledgement of a number that is pending there. */
  ghost predicate TakesAck(q: Sys, m: Move, flipped: bool, n: uint32) {
    var x, net := if flipped then q.b else q.a, if flipped then q.ab else q.ba;
    && m.flipped == flipped && m.ev.Receive? && m.ev.p in net && m.ev.p.IsACK()
    && n in x.ep.pending && n in Named(Window(m.ev.p.ack, m.ev.p.ackMask))
  }

  ghost predicate EverAcked(s: Sys, ms: seq<Move>, flipped: bool, n: uint32) {
    ms != [] &&
      (EverAcked(s, ms[..|ms| - 1], flipped, n) || TakesAck(Reached(s, ms[..|ms| - 1]), ms[|ms| - 1], flipped, n))
  }

  lemma {:induction false} AckedMeans(s: Sys, ms: seq<Move>, n: uint32)
    ensures n in Reached(s, ms).a.h.acked <==> n in s.a.h.acked || EverAcked(s, ms, false, n)
    ensures n in Reached(s, ms).b.h.acked <==> n in s.b.h.acked || EverAcked(s, ms, true, n)
  {
    if ms != [] {
      var p := ms[..|ms| - 1];
      AckedMeans(s, p, n);
      MoveAcks(Reached(s, p), ms[|ms| - 1], n);
    }
  }

  lemma MoveAcks(q: Sys, m: Move, n: uint32)
    ensures n in Moved(q, m).a.h.acked <==> n in q.a.h.acked || TakesAck(q, m, false, n)
    ensures n in Moved(q, m).b.h.acked <==> n in q.b.h.acked || TakesAck(q, m, true, n)
  {
  }

  /** Exactly when a number is silently lost, over whole runs: its sender took an acknowledgement of it while it was
      pending, and its receiver never took it while it was near. */
  lemma LostExactlyWhenNeverNear(connID: uint16, capA: nat, capB: nat, ms: seq<Move>, n: uint32)
    requires Short(Reached(NewSys(connID, capA, capB), ms))
    ensures var s0 := NewSys(connID, capA, capB);
            var s := Reached(s0, ms);
            && (IsTracked(s.a.h.log, n) ==>
                  (!Accounted(s.a, s.b, n) <==> EverAcked(s0, ms, false, n) && !EverNear(s0, ms, true, n)))
            && (IsTracked(s.b.h.log, n) ==>
                  (!Accounted(s.b, s.a, n) <==> EverAcked(s0, ms, true, n) && !EverNear(s0, ms, false, n)))
  {
    var s0 := NewSys(connID, capA, capB);
    NewSysInv(connID, capA, capB);
    EveryRun(s0, ms);
    AckedMeans(s0, ms, n);
    var s := Reached(s0, ms);
    if n >= 1 {
      HoldsExactlyNear(connID, capA, capB, ms, n);
    }
    hide SendOK, RecvOK, AckOK, EverAcked, EverNear, Reached, Holds;
    assert BookOK(s.a, s.b.h.noted) && BookOK(s.b, s.a.h.noted);
  }

  // ----- a sender that never causes it -----

  /** All but the last 512 of the numbers before n are acknowledged. */
  ghost predicate InFlightLimited(x: Node, n: nat) {
    forall k: uint32 :: 1 <= k && k + 512 < n ==> k in x.h.acked
  }

  /** Each end sends only while the number it spends is at most 512 past its lowest unacknowledged one. */
  ghost predicate Throttled(s: Sys, ms: seq<Move>) {
    ms != [] ==>
      var q, m := Reached(s, ms[..|ms| - 1]), ms[|ms| - 1];
      && Throttled(s, ms[..|ms| - 1])
      && (m.ev.Send? ==>
            if m.flipped then InFlightLimited(q.b, |q.b.h.log| + 1) else InFlightLimited(q.a, |q.a.h.log| + 1))
  }

  ghost predicate Spaced(x: Node) {
    forall n: nat :: IsTracked(x.h.log, n) ==> InFlightLimited(x, n)
  }

  lemma ActedKeepsSpaced(x: Node, ev: Protocol.Event)
    requires Spaced(x) && (ev.Send? ==> InFlightLimited(x, |x.h.log| + 1))
    ensures Spaced(Acted(x, ev).0)
  {
    var r := Acted(x, ev).0;
    ActedExtends(x, ev);
    assert x.h.acked <= r.h.acked;
    forall n: nat | IsTracked(r.h.log, n) ensures InFlightLimited(r, n) {
      assert n <= |x.h.log| ==> r.h.log[n - 1] == x.h.log[n - 1];
      assert InFlightLimited(x, n);
    }
  }

  /** The next number a receiver expects is not acknowledged. */
  lemma NextUnacked(x: Node, y: Node, xy: set<Packet>, yx: set<Packet>)
    requires Link(x, y, xy, yx) && y.h.lost == {}
    ensures forall k :: k in x.h.acked ==> k as nat != y.h.view.next
  {
    forall k | k in x.h.acked ensures k as nat != y.h.view.next {
      assert k as nat in y.h.noted && k >= 1;
      assert Kept(y.h.view, k);
    }
  }

  lemma SpacedIsNear(x: Node, y: Node, xy: set<Packet>, yx: set<Packet>, p: Packet)
    requires Link(x, y, xy, yx) && Spaced(x) && y.h.lost == {} && p in xy
    ensures Near(y.ep, p)
  {
    NextUnacked(x, y, xy, yx);
    var k: uint32 := y.ep.buf.next;
    assert CarriesData(p) ==> InFlightLimited(x, p.seqNo);
    assert k as nat == y.h.view.next && k >= 1;
  }

  lemma {:induction false} ThrottledIsNear(s: Sys, ms: seq<Move>)
    requires Inv(s) && s.a.h.lost == {} == s.b.h.lost && Spaced(s.a) && Spaced(s.b)
    requires Short(Reached(s, ms)) && Throttled(s, ms)
    ensures ArrivalsNear(s, ms) && Spaced(Reached(s, ms).a) && Spaced(Reached(s, ms).b)
  {
    if ms != [] {
      var p := ms[..|ms| - 1];
      var q, m := Reached(s, p), ms[|ms| - 1];
      LogsGrow(q, m);
      EveryRun(s, p);
      ThrottledIsNear(s, p);
      NothingLost(s, p);
      if m.flipped {
        ActedKeepsSpaced(q.b, m.ev);
      } else {
        ActedKeepsSpaced(q.a, m.ev);
      }
      if m.ev.Receive? {
        if m.flipped && m.ev.p in q.ab {
          SpacedIsNear(q.a, q.b, q.ab, q.ba, m.ev.p);
        } else if !m.flipped && m.ev.p in q.ba {
          SpacedIsNear(q.b, q.a, q.ba, q.ab, m.ev.p);
        }
      }
    }
  }

  /** Two ends that never send more than 512 past their lowest unacknowledged number never lose a packet silently. */
  lemma ThrottledNeverLoses(connID: uint16, capA: nat, capB: nat, ms: seq<Move>, n: uint32)
    requires Short(Reached(NewSys(connID, capA, capB), ms)) && Throttled(NewSys(connID, capA, capB), ms)
    ensures var s := Reached(NewSys(connID, capA, capB), ms);
            && (IsTracked(s.a.h.log, n) ==> Accounted(s.a, s.b, n))
            && (IsTracked(s.b.h.log, n) ==> Accounted(s.b, s.a, n))
  {
    NewSysInv(connID, capA, capB);
    ThrottledIsNear(NewSys(connID, capA, capB), ms);
    NoSilentLoss(connID, capA, capB, ms, n);
  }

  // ----- an input on which a packet is lost without trace -----

  const P: Bytes := [0]

  function Blast(k: nat): (ms: seq<Move>)
    ensures |ms| == k
  {
    if k == 0 then [] else Blast(k - 1) + [Move(false, Send(P, Dropped, 0))]
  }

  /** After k sends that the network loses on their first transmission. */
  ghost predicate Blasted(s: Sys, k: nat) {
    && s.a.ep.sendSeq == k == |s.a.h.log| && (forall n :: 0 <= n < k ==> s.a.h.log[n].Tracked?)
    && (forall n :: n in s.a.ep.pending ==> 1 <= n <= k)
    && s.a.h.expired == map[] && s.ab == {} == s.ba && s.b == NewNode(1, 256)
    && s.a.ep.win == Window(0, 0) && s.a.ep.connID == 1
  }

  lemma BlastOne(s: Sys, k: nat)
    requires Blasted(s, k) && k <= 512
    ensures Blasted(Moved(s, Move(false, Send(P, Dropped, 0))), k + 1)
  {
  }

  lemma {:induction false} AfterBlast(k: nat)
    requires k <= 513
    ensures Blasted(Reached(NewSys(1, 256, 256), Blast(k)), k)
  {
    if k > 0 {
      AfterBlast(k - 1);
      assert Blast(k)[..k - 1] == Blast(k - 1);
      BlastOne(Reached(NewSys(1, 256, 256), Blast(k - 1)), k - 1);
    }
  }

  /** Number 514 arrives first: it is acknowledged, dropped by the reorder buffer, and forgotten by its sender. */
  lemma SilentLoss() returns (ms: seq<Move>)
    ensures var s := Reached(NewSys(1, 256, 256), ms);
            IsTracked(s.a.h.log, 514) && !Accounted(s.a, s.b, 514)
  {
    var s0 := NewSys(1, 256, 256);
    AfterBlast(513);
    var s1 := Reached(s0, Blast(513));
    var p, q := FarPacketAcknowledged(s1);
    ms := ReachNext(s0, Blast(513), Move(false, Send(P, Sent, 0)));
    ms := ReachNext(s0, ms, Move(true, Receive(p, 0)));
    ms := ReachNext(s0, ms, Move(true, SendAck));
    ms := ReachNext(s0, ms, Move(false, Receive(q, 0)));
  }

  lemma FarPacketAcknowledged(s1: Sys) returns (p: Packet, q: Packet)
    requires Blasted(s1, 513)
    ensures var s2 := Moved(s1, Move(false, Send(P, Sent, 0)));
            var s3 := Moved(s2, Move(true, Receive(p, 0)));
            var s4 := Moved(s3, Move(true, SendAck));
            var s5 := Moved(s4, Move(false, Receive(q, 0)));
            IsTracked(s5.a.h.log, 514) && !Accounted(s5.a, s5.b, 514)
  {
    var s2 := Moved(s1, Move(false, Send(P, Sent, 0)));
    p := OnWire(DataPacket(s1.a.ep, P));
    DataFlags();
    FlagBits();
    assert p in s2.ab && p.seqNo == 514 && p.payload == P && CarriesData(p);
    var s3 := Moved(s2, Move(true, Receive(p, 0)));
    FarArrival(p);
    assert s3.b.ep.win == Window(514, 0) && s3.b.ep.buf == Buffer(1, map[]);
    q := PureAck(s3.b.ep);
    var s4 := Moved(s3, Move(true, SendAck));
    assert q in s4.ba && s4.a == s2.a && s4.b == s3.b;
    var s5 := Moved(s4, Move(false, Receive(q, 0)));
    assert 514 in Named(Window(q.ack, q.ackMask));
    assert s5.a.ep.pending == s2.a.ep.pending - Named(Window(q.ack, q.ackMask));
    assert s5.a.h.log == s2.a.h.log && s5.a.h.expired == map[] && s5.b == s3.b;
  }

  lemma ReachNext(s: Sys, ms: seq<Move>, m: Move) returns (r: seq<Move>)
    ensures r == ms + [m] && Reached(s, r) == Moved(Reached(s, ms), m)
  {
    r := ms + [m];
    assert r[..|r| - 1] == ms;
  }

  lemma FarArrival(p: Packet)
    requires p.seqNo == 514 && CarriesData(p)
    ensures Noted(Window(0, 0), p.seqNo) == Window(514, 0)
    ensures Inserted(Buffer(1, map[]), MAX_BUFFERED, p.seqNo, p.payload) == (Buffer(1, map[]), [])
  {
  }
}
