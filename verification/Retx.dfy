/** Retransmission of unacknowledged packets. Times and durations are in nanoseconds. */
module Retx {
  import opened Words
  import opened Packets
  import opened Acks

  const INITIAL_RTO := 200_000_000
  const MAX_RTO := 2_000_000_000
  const MAX_RETRIES := 10

  datatype Pending = Pending(pkt: Packet, sentAt: int, nextRetx: int, rto: int, retries: nat)

  type Queue = map<uint32, Pending>

  function Fresh(pkt: Packet, now: int, rto: int): Pending {
    var r := if rto < INITIAL_RTO then INITIAL_RTO else rto;
    Pending(pkt, now, now + r, r, 0)
  }

  function Added(q: Queue, pkt: Packet, now: int, rto: int): Queue {
    q[pkt.seqNo := Fresh(pkt, now, rto)]
  }

  predicate Due(p: Pending, now: int) {
    now >= p.nextRetx
  }

  predicate Retried(p: Pending, now: int) {
    Due(p, now) && p.retries < MAX_RETRIES
  }

  predicate GivenUp(p: Pending, now: int) {
    Due(p, now) && p.retries >= MAX_RETRIES
  }

  function Bumped(p: Pending, now: int): Pending {
    var r := if 2 * p.rto > MAX_RTO then MAX_RTO else 2 * p.rto;
    p.(retries := p.retries + 1, rto := r, nextRetx := now + r)
  }

  function RetrySet(q: Queue, now: int): set<uint32> {
    set s | s in q && Retried(q[s], now)
  }

  function ExpiredSet(q: Queue, now: int): set<uint32> {
    set s | s in q && GivenUp(q[s], now)
  }

  function Collected(q: Queue, now: int): Queue {
    map s | s in q && !GivenUp(q[s], now) :: if Due(q[s], now) then Bumped(q[s], now) else q[s]
  }

  /** The sequence lists each member of the set once, in some order. */
  ghost predicate Lists(xs: seq<uint32>, all: set<uint32>) {
    && (forall s :: s in xs <==> s in all)
    && (forall i, j :: 0 <= i < j < |xs| ==> xs[i] != xs[j])
  }

  class RetxQueue {
    var pending: Queue

    constructor ()
      ensures pending == map[]
    {
      pending := map[];
    }

    method Add(pkt: Packet, now: int, rto: int)
      modifies this
      ensures pending == Added(old(pending), pkt, now, rto)
    {
      var r := rto;
      if r < INITIAL_RTO {
        r := INITIAL_RTO;
      }
      pending := pending[pkt.seqNo := Pending(pkt, now, now + r, r, 0)];
    }

    /** A sample is reported only for a packet that was never retransmitted. */
    method Ack(s: uint32, now: int) returns (rttSample: int, ok: bool)
      modifies this
      ensures pending == old(pending) - {s}
      ensures ok <==> s in old(pending)
      ensures rttSample == if s in old(pending) && old(pending)[s].retries == 0 then now - old(pending)[s].sentAt else 0
    {
      if s !in pending {
        assert pending == pending - {s};
        return 0, false;
      }
      var pp := pending[s];
      pending := pending - {s};
      if pp.retries == 0 {
        return now - pp.sentAt, true;
      }
      return 0, true;
    }

    method AckBitmask(ackSeq: uint32, bitmask: uint32, now: int)
      modifies this
      ensures pending == old(pending) - Named(Window(ackSeq, bitmask))
    {
      var _, _ := Ack(ackSeq, now);
      ghost var done: set<uint32> := {ackSeq};
      for i := 0 to 32
        invariant done == {ackSeq} + set j | 0 <= j < i && Bit(bitmask, j) :: BitSeq(ackSeq, j)
        invariant pending == old(pending) - done
      {
        if Bit(bitmask, i) {
          var s := BitSeq(ackSeq, i);
          var _, _ := Ack(s, now);
          done := done + {s};
        }
      }
      assert done == Named(Window(ackSeq, bitmask));
    }

    /** The body of the collection loop, for one pending packet. */
    method Visit(s: uint32, now: int) returns (retry: bool, giveUp: bool)
      requires s in pending
      modifies this
      ensures pending == old(pending)[s := Visited(old(pending)[s], now)]
      ensures retry == Retried(old(pending)[s], now) && giveUp == GivenUp(old(pending)[s], now)
    {
      var pp := pending[s];
      if now < pp.nextRetx {
        assert pending[s := pp] == pending;
        return false, false;
      }
      pp := pp.(retries := pp.retries + 1);
      giveUp := pp.retries > MAX_RETRIES;
      if !giveUp {
        pp := pp.(rto := if pp.rto * 2 > MAX_RTO then MAX_RTO else pp.rto * 2);
        pp := pp.(nextRetx := now + pp.rto);
      }
      pending := pending[s := pp];
      retry := !giveUp;
    }

    /** The order in which the source visits its map, and so of both results, is unspecified. */
    method CollectRetransmissions(now: int) returns (retx: seq<uint32>, expired: seq<uint32>)
      modifies this
      ensures pending == Collected(old(pending), now)
      ensures Lists(retx, RetrySet(old(pending), now)) && Lists(expired, ExpiredSet(old(pending), now))
    {
      ghost var q := pending;
      retx, expired := VisitAll(now);
      Drop(expired);
      CollectedByVisits(q, pending, now);
    }

    method VisitAll(now: int) returns (retx: seq<uint32>, expired: seq<uint32>)
      modifies this
      ensures pending.Keys == old(pending).Keys
      ensures forall s :: s in pending ==> pending[s] == Visited(old(pending)[s], now)
      ensures Lists(retx, RetrySet(old(pending), now)) && Lists(expired, ExpiredSet(old(pending), now))
    {
      retx, expired := [], [];
      ghost var q := pending;
      ghost var due, late := RetrySet(q, now), ExpiredSet(q, now);
      var todo := pending.Keys;
      while todo != {}
        invariant todo <= q.Keys == pending.Keys
        invariant forall s :: s in q ==> pending[s] == if s in todo then q[s] else Visited(q[s], now)
        invariant Lists(retx, due - todo) && Lists(expired, late - todo)
        decreases |todo|
      {
        var s :| s in todo;
        assert s !in retx && s !in expired;
        var retry, giveUp := Visit(s, now);
        assert (s in due <==> retry) && (s in late <==> giveUp);
        if giveUp {
          expired := expired + [s];
        } else if retry {
          retx := retx + [s];
        }
        todo := todo - {s};
      }
    }

    method Drop(expired: seq<uint32>)
      modifies this
      ensures forall s :: s in pending <==> s in old(pending) && s !in expired
      ensures forall s :: s in pending ==> pending[s] == old(pending)[s]
    {
      for i := 0 to |expired|
        invariant forall s :: s in pending <==> s in old(pending) && s !in expired[..i]
        invariant forall s :: s in pending ==> pending[s] == old(pending)[s]
      {
        pending := pending - {expired[i]};
      }
    }
  }

  lemma CollectedByVisits(q: Queue, r: Queue, now: int)
    requires r.Keys == q.Keys - ExpiredSet(q, now)
    requires forall s :: s in r ==> r[s] == Visited(q[s], now)
    ensures r == Collected(q, now)
  {
    assert Collected(q, now).Keys == q.Keys - ExpiredSet(q, now);
  }

  /** A visited packet, before the expired ones are deleted. */
  function Visited(p: Pending, now: int): Pending {
    if !Due(p, now) then p
    else if p.retries >= MAX_RETRIES then p.(retries := p.retries + 1)
    else Bumped(p, now)
  }

  // ----- the life of a packet -----

  /** A lower bound for the timeout after r retransmissions, and for the time from first send to its end. */
  function Backoff(r: nat): nat {
    if r == 0 then INITIAL_RTO
    else if 2 * Backoff(r - 1) > MAX_RTO then MAX_RTO else 2 * Backoff(r - 1)
  }

  function Waited(r: nat): nat {
    if r == 0 then Backoff(0) else Waited(r - 1) + Backoff(r)
  }

  lemma LastWait()
    ensures Waited(10) == 17_000_000_000
  {
    assert Backoff(3) == 1_600_000_000 && Waited(3) == 3_000_000_000;
    assert Backoff(6) == Backoff(5) == Backoff(4) == MAX_RTO;
    assert Waited(6) == 9_000_000_000;
    assert Backoff(10) == Backoff(9) == Backoff(8) == Backoff(7) == MAX_RTO;
  }

  datatype Exit = Exit(sentAt: int, at: int, retries: nat)

  /** What is given up at this moment. */
  function Exits(q: Queue, now: int): map<uint32, Exit> {
    map s | s in ExpiredSet(q, now) :: Exit(q[s].sentAt, now, q[s].retries)
  }

  /** A queue together with what has happened to every packet ever added. */
  datatype Life = Life(q: Queue, added: set<uint32>, acked: set<uint32>, expired: map<uint32, Exit>)

  datatype Event =
    | Add(pkt: Packet, now: int, rto: int)
    | Ack(w: Window)
    | Collect(now: int)

  ghost function Next(l: Life, ev: Event): Life {
    match ev
    case Add(pkt, now, rto) => l.(q := Added(l.q, pkt, now, rto), added := l.added + {pkt.seqNo})
    case Ack(w) => l.(q := l.q - Named(w), acked := l.acked + (l.q.Keys * Named(w)))
    case Collect(now) =>
      l.(q := Collected(l.q, now),
         expired := l.expired + Exits(l.q, now))
  }

  ghost function Lived(evs: seq<Event>): Life {
    if evs == [] then Life(map[], {}, {}, map[])
    else Next(Lived(evs[..|evs| - 1]), evs[|evs| - 1])
  }

  /** Every sequence number is added once. */
  ghost predicate AddsOnce(evs: seq<Event>) {
    evs != [] ==>
      var p, ev := evs[..|evs| - 1], evs[|evs| - 1];
      AddsOnce(p) && (ev.Add? ==> ev.pkt.seqNo !in Lived(p).added)
  }

  predicate GoodPending(p: Pending) {
    && p.retries <= 10
    && Backoff(p.retries) <= p.rto
    && (p.retries > 0 ==> p.rto <= 2_000_000_000)
    && p.nextRetx >= p.sentAt + Waited(p.retries)
  }

  /** Exactly one of pending, acknowledged, expired; timeouts in range; nothing given up before its ten retransmissions
      and 17 s. */
  ghost predicate GoodLife(l: Life) {
    && l.q.Keys + l.acked + l.expired.Keys == l.added
    && l.q.Keys !! l.acked !! l.expired.Keys
    && (forall s :: s in l.q ==> GoodPending(l.q[s]))
    && (forall s :: s in l.expired ==> GoodExit(l.expired[s]))
  }

  /** Given up only after all ten retransmissions, and not before 17.0 s. */
  predicate GoodExit(x: Exit) {
    x.retries == 10 && x.at - x.sentAt >= 17_000_000_000
  }

  lemma BumpedGood(p: Pending, now: int)
    requires GoodPending(p) && Retried(p, now)
    ensures GoodPending(Bumped(p, now))
  {
  }

  lemma CollectKeepsGood(l: Life, now: int)
    requires GoodLife(l)
    ensures GoodLife(Next(l, Collect(now)))
  {
    var r := Next(l, Collect(now));
    LastWait();
    assert r.q.Keys == l.q.Keys - ExpiredSet(l.q, now);
    assert r.expired.Keys == l.expired.Keys + ExpiredSet(l.q, now);
    forall s | s in r.q ensures GoodPending(r.q[s]) {
      if Due(l.q[s], now) {
        BumpedGood(l.q[s], now);
      }
    }
  }

  /** The lifecycle of every packet in every run. */
  lemma {:induction false} EveryLifeIsGood(evs: seq<Event>)
    requires AddsOnce(evs)
    ensures GoodLife(Lived(evs))
  {
    if evs != [] {
      var p, ev := evs[..|evs| - 1], evs[|evs| - 1];
      EveryLifeIsGood(p);
      var l := Lived(p);
      match ev
      case Add(pkt, now, rto) =>
        assert Added(l.q, pkt, now, rto).Keys == l.q.Keys + {pkt.seqNo};
      case Ack(w) =>
        assert (l.q - Named(w)).Keys == l.q.Keys - Named(w);
      case Collect(now) =>
        CollectKeepsGood(l, now);
    }
  }
}
