/** One end of a reliable connection as a value, and what each of its operations does. */
module Endpoints {
  import opened Words
  import opened Packets
  import opened Reorder
  import opened Acks
  import opened Retx

  const MAX_BUFFERED: uint32 := 512

  datatype Endpoint = Endpoint(
    connID: uint16,
    sendSeq: uint32, pending: Queue,
    win: Window, buf: Buffer,
    srtt: int, rttVar: int,
    inbox: seq<Bytes>, capacity: nat)

  function NewEndpoint(connID: uint16, capacity: nat): Endpoint {
    Endpoint(connID, 0, map[], Window(0, 0), Buffer(1, map[]), 100_000_000, 0, [], capacity)
  }

  /** How a call of the source's send function ends; with chaos injection a packet may be tracked without being sent. */
  datatype Outcome = Sent | Failed | Dropped

  function Rto(e: Endpoint): int {
    var r := e.srtt + 4 * e.rttVar;
    if r < INITIAL_RTO then INITIAL_RTO else if r > MAX_RTO then MAX_RTO else r
  }

  function NextPacket(e: Endpoint, flags: uint8, payload: Bytes): Packet {
    Packet(flags, e.connID, Inc32(e.sendSeq), e.win.ack, e.win.mask, payload)
  }

  function DataPacket(e: Endpoint, payload: Bytes): Packet {
    NextPacket(e, Or(FLAG_RELIABLE, FLAG_ACK), payload)
  }

  /** Send: a failed call uses up its sequence number and is not tracked. */
  function AfterSend(e: Endpoint, payload: Bytes, outcome: Outcome, now: int): Endpoint {
    var f := e.(sendSeq := Inc32(e.sendSeq));
    if outcome == Failed then f else f.(pending := Added(e.pending, DataPacket(e, payload), now, Rto(e)))
  }

  /** SendUnreliable also uses up a number of the same sequence space. */
  function AfterSendUnreliable(e: Endpoint): Endpoint {
    e.(sendSeq := Inc32(e.sendSeq))
  }

  function PureAck(e: Endpoint): Packet {
    Packet(FLAG_ACK, e.connID, 0, e.win.ack, e.win.mask, [])
  }

  function Ping(e: Endpoint): Packet {
    Packet(Or(FLAG_PING, FLAG_ACK), e.connID, 0, e.win.ack, e.win.mask, [])
  }

  /** Jacobson's estimator; machine division truncates, here on non-negative values only. */
  function Smoothed(e: Endpoint, sample: int): Endpoint {
    if sample <= 0 then e
    else if e.srtt == 0 then e.(srtt := sample, rttVar := sample / 2)
    else
      var diff := if e.srtt < sample then sample - e.srtt else e.srtt - sample;
      e.(rttVar := (3 * e.rttVar + diff) / 4, srtt := (7 * e.srtt + sample) / 8)
  }

  /** Processing of the (ack, bitmask) pair that every packet with the ACK flag carries. */
  function AfterAck(e: Endpoint, w: Window, now: int): Endpoint {
    var f := if w.ack in e.pending && e.pending[w.ack].retries == 0
             then Smoothed(e, now - e.pending[w.ack].sentAt) else e;
    f.(pending := e.pending - Named(w))
  }

  /** A channel send that drops what does not fit. */
  function Enqueued(inbox: seq<Bytes>, capacity: nat, ps: seq<Bytes>): seq<Bytes> {
    if |inbox| + |ps| <= capacity then inbox + ps
    else if |inbox| <= capacity then inbox + ps[..capacity - |inbox|]
    else inbox
  }

  predicate CarriesData(p: Packet) {
    p.IsReliable() && |p.payload| > 0
  }

  predicate CarriesHint(p: Packet) {
    !p.IsReliable() && |p.payload| > 0 && !p.IsPING()
  }

  /** What the reorder buffer hands over for an arriving packet. */
  function Delivered(e: Endpoint, p: Packet): seq<Bytes> {
    if CarriesData(p) then Inserted(e.buf, MAX_BUFFERED, p.seqNo, p.payload).1 else []
  }

  function AfterReceive(e: Endpoint, p: Packet, now: int): Endpoint {
    var f := if p.IsACK() then AfterAck(e, Window(p.ack, p.ackMask), now) else e;
    if CarriesData(p) then
      f.(win := Noted(e.win, p.seqNo),
         buf := Inserted(e.buf, MAX_BUFFERED, p.seqNo, p.payload).0,
         inbox := Enqueued(e.inbox, e.capacity, Delivered(e, p)))
    else if CarriesHint(p) then f.(inbox := Enqueued(e.inbox, e.capacity, [p.payload]))
    else f
  }

  /** A retransmitted packet carries the current acknowledgement; the pending copy is the same object. */
  function Stamped(e: Endpoint, p: Packet): Packet {
    p.(ack := e.win.ack, ackMask := e.win.mask)
  }

  function AfterTick(e: Endpoint, now: int): Endpoint {
    var q := Collected(e.pending, now);
    e.(pending := map s | s in q ::
         if s in RetrySet(e.pending, now) then q[s].(pkt := Stamped(e, q[s].pkt)) else q[s])
  }

  function Retransmitted(e: Endpoint, now: int): set<Packet> {
    set s | s in RetrySet(e.pending, now) :: Stamped(e, e.pending[s].pkt)
  }

  // ----- round-trip estimation -----

  /** The timeout handed to the queue is the estimate plus four deviations, raised to 200 ms and lowered to 2 s. */
  lemma RtoRange(e: Endpoint)
    ensures 200_000_000 <= Rto(e) <= 2_000_000_000
    ensures 200_000_000 <= e.srtt + 4 * e.rttVar <= 2_000_000_000 ==> Rto(e) == e.srtt + 4 * e.rttVar
    ensures e.srtt + 4 * e.rttVar < 200_000_000 ==> Rto(e) == 200_000_000
    ensures e.srtt + 4 * e.rttVar > 2_000_000_000 ==> Rto(e) == 2_000_000_000
  {
  }

  /** The estimate changes only on a positive sample from a packet that was never retransmitted. */
  lemma SamplesAreUnambiguous(e: Endpoint, p: Packet, now: int)
    requires AfterReceive(e, p, now).srtt != e.srtt || AfterReceive(e, p, now).rttVar != e.rttVar
    ensures p.IsACK() && p.ack in e.pending && e.pending[p.ack].retries == 0 && now > e.pending[p.ack].sentAt
  {
  }

  /** A new estimate lies between the old one and the sample, rounded down, and the variance never turns negative. */
  lemma SmoothedBetween(e: Endpoint, sample: int)
    requires e.srtt > 0 && e.rttVar >= 0 && sample > 0
    ensures var f := Smoothed(e, sample);
            && (if e.srtt < sample then e.srtt <= f.srtt <= sample else sample <= f.srtt <= e.srtt)
            && f.rttVar >= 0
  {
  }

  /** What an acknowledgement does to the estimate. When it names, as its highest number, a packet that was never
      retransmitted, the first sample becomes the estimate and half of it the deviation; a later one moves the estimate
      an eighth of the way to the sample, and the deviation a quarter of the way to their difference, rounded down. */
  lemma SampleWeights(e: Endpoint, p: Packet, now: int)
    requires Bit(p.flags, 1) && p.ack in e.pending && e.pending[p.ack].retries == 0 && e.srtt >= 0 && e.rttVar >= 0
    ensures var f, sample := AfterReceive(e, p, now), now - e.pending[p.ack].sentAt;
            && (sample <= 0 ==> f.srtt == e.srtt && f.rttVar == e.rttVar)
            && (sample > 0 && e.srtt == 0 ==> f.srtt == sample && 2 * f.rttVar <= sample <= 2 * f.rttVar + 1)
            && (sample > 0 && e.srtt > 0 ==>
                  && 8 * f.srtt <= 7 * e.srtt + sample <= 8 * f.srtt + 7
                  && 4 * f.rttVar <= 3 * e.rttVar + Distance(e.srtt, sample) <= 4 * f.rttVar + 3)
  {
  }

  function Distance(x: int, y: int): int {
    if x < y then y - x else x - y
  }

  // ----- what an arrival puts into the inbox -----

  /** An unreliable payload that is no ping enters an inbox that has room, and leaves window and reorder buffer alone.
      */
  lemma HintEnters(e: Endpoint, p: Packet, now: int)
    requires !Bit(p.flags, 3) && !Bit(p.flags, 4) && p.payload != []
    ensures var f := AfterReceive(e, p, now);
            && (|e.inbox| < e.capacity ==> f.inbox == e.inbox + [p.payload])
            && (|e.inbox| >= e.capacity ==> f.inbox == e.inbox)
            && f.win == e.win && f.buf == e.buf && f.sendSeq == e.sendSeq
  {
    assert [p.payload][..0] == [];
  }

  /** An arriving reliable payload is noted in the window and put into the reorder buffer, and what that hands over
      enters the inbox as far as there is room. */
  lemma PayloadEnters(e: Endpoint, p: Packet, now: int)
    requires Bit(p.flags, 3) && p.payload != []
    ensures var f, r := AfterReceive(e, p, now), Inserted(e.buf, 512, p.seqNo, p.payload);
            && f.win == Noted(e.win, p.seqNo) && f.buf == r.0 && f.sendSeq == e.sendSeq
            && e.inbox <= f.inbox <= e.inbox + r.1
            && (|e.inbox| + |r.1| <= e.capacity ==> f.inbox == e.inbox + r.1)
            && (|e.inbox| <= e.capacity < |e.inbox| + |r.1| ==> |f.inbox| == e.capacity)
            && (e.capacity < |e.inbox| ==> f.inbox == e.inbox)
  {
  }

  /** Pings and packets without payload leave inbox, window and reorder buffer as they are. */
  lemma NothingEnters(e: Endpoint, p: Packet, now: int)
    requires p.payload == [] || (Bit(p.flags, 4) && !Bit(p.flags, 3))
    ensures var f := AfterReceive(e, p, now);
            f.inbox == e.inbox && f.win == e.win && f.buf == e.buf && f.sendSeq == e.sendSeq
  {
  }
}

/** The connection object: each method is its endpoint operation. */
module Connection {
  import opened Words
  import opened Packets
  import opened Reorder
  import opened Acks
  import opened Retx
  import opened Endpoints

  class Conn {
    const connID: uint16
    var sendSeq: uint32
    const retx: RetxQueue
    var recvAck: uint32
    var recvBitmask: uint32
    const reorder: ReorderBuffer
    var srtt: int
    var rttVar: int
    var inbox: seq<Bytes>
    const inboxSize: nat

    ghost predicate Valid() {
      reorder.maxBuffered == MAX_BUFFERED
    }

    function Value(): Endpoint
      reads this, retx, reorder
    {
      Endpoint(connID, sendSeq, retx.pending, Window(recvAck, recvBitmask), reorder.Value(), srtt, rttVar,
               inbox, inboxSize)
    }

    constructor (connID: uint16, inboxSize: int)
      ensures Valid() && fresh(retx) && fresh(reorder)
      ensures Value() == NewEndpoint(connID, if inboxSize <= 0 then 256 else inboxSize)
    {
      this.connID := connID;
      this.inboxSize := if inboxSize <= 0 then 256 else inboxSize;
      sendSeq, recvAck, recvBitmask := 0, 0, 0;
      srtt, rttVar, inbox := 100_000_000, 0, [];
      retx := new RetxQueue();
      reorder := new ReorderBuffer(1, MAX_BUFFERED);
    }

    method RTO() returns (r: int)
      ensures r == Rto(Value())
    {
      r := srtt + 4 * rttVar;
      if r < INITIAL_RTO {
        r := INITIAL_RTO;
      }
      if r > MAX_RTO {
        r := MAX_RTO;
      }
    }

    /** `out` is what reaches the socket: nothing, the packet, or with chaos duplication the packet twice. */
    method Send(payload: Bytes, outcome: Outcome, duplicate: bool, now: int) returns (out: seq<Packet>, failed: bool)
      requires Valid()
      modifies this, retx
      ensures Valid() && Value() == AfterSend(old(Value()), payload, outcome, now)
      ensures failed <==> outcome == Failed
      ensures forall p :: p in out <==> outcome == Sent && p == DataPacket(old(Value()), payload)
    {
      ghost var e := Value();
      sendSeq := Inc32(sendSeq);
      var pkt := Packet(Or(FLAG_RELIABLE, FLAG_ACK), connID, sendSeq, recvAck, recvBitmask, payload);
      var rto := RTO();
      if outcome == Dropped {
        retx.Add(pkt, now, rto);
        return [], false;
      }
      if outcome == Failed {
        return [], true;
      }
      out := [pkt];
      if duplicate {
        out := out + [pkt];
      }
      retx.Add(pkt, now, rto);
      return out, false;
    }

    method SendUnreliable(payload: Bytes) returns (out: Packet)
      modifies this
      ensures Value() == AfterSendUnreliable(old(Value()))
      ensures out == NextPacket(old(Value()), FLAG_ACK, payload)
    {
      sendSeq := Inc32(sendSeq);
      out := Packet(FLAG_ACK, connID, sendSeq, recvAck, recvBitmask, payload);
    }

    method SendACK() returns (out: Packet)
      ensures out == PureAck(Value())
    {
      out := Packet(FLAG_ACK, connID, 0, recvAck, recvBitmask, []);
    }

    method SendPing() returns (out: Packet)
      ensures out == Ping(Value())
    {
      out := Packet(Or(FLAG_PING, FLAG_ACK), connID, 0, recvAck, recvBitmask, []);
    }

    method UpdateRecvAck(s: uint32)
      modifies this`recvAck, this`recvBitmask
      ensures Window(recvAck, recvBitmask) == Noted(old(Window(recvAck, recvBitmask)), s)
    {
      if SeqLT(recvAck, s) {
        var diff := Sub32(s, recvAck);
        if diff <= 32 {
          OrFits(Shl32(recvBitmask, diff), diff - 1);
          recvBitmask := Or(Shl32(recvBitmask, diff), Pow2(diff - 1));
        } else {
          recvBitmask := 0;
        }
        recvAck := s;
      } else if s < recvAck {
        var diff := recvAck - s;
        if diff <= 32 {
          OrFits(recvBitmask, diff - 1);
          recvBitmask := Or(recvBitmask, Pow2(diff - 1));
        }
      }
    }

    method UpdateRTT(sample: int)
      modifies this`srtt, this`rttVar
      ensures Value() == Smoothed(old(Value()), sample)
    {
      if sample <= 0 {
        return;
      }
      if srtt == 0 {
        srtt, rttVar := sample, sample / 2;
      } else {
        var diff := srtt - sample;
        if diff < 0 {
          diff := -diff;
        }
        rttVar := (3 * rttVar + diff) / 4;
        srtt := (7 * srtt + sample) / 8;
      }
    }

    /** Payloads that do not fit the inbox are dropped one by one. */
    method Enqueue(ps: seq<Bytes>)
      modifies this`inbox
      ensures inbox == Enqueued(old(inbox), inboxSize, ps)
    {
      for i := 0 to |ps|
        invariant inbox == Enqueued(old(inbox), inboxSize, ps[..i])
      {
        EnqueueNext(old(inbox), inboxSize, ps, i);
        if |inbox| < inboxSize {
          inbox := inbox + [ps[i]];
        }
      }
      assert ps[..|ps|] == ps;
    }

    static lemma EnqueueNext(inbox: seq<Bytes>, capacity: nat, ps: seq<Bytes>, i: nat)
      requires i < |ps|
      ensures var q := Enqueued(inbox, capacity, ps[..i]);
              Enqueued(inbox, capacity, ps[..i + 1]) == if |q| < capacity then q + [ps[i]] else q
    {
      var q := Enqueued(inbox, capacity, ps[..i]);
      assert ps[..i + 1] == ps[..i] + [ps[i]];
      if |inbox| + i < capacity {
        assert inbox + ps[..i + 1] == q + [ps[i]];
      } else if |inbox| <= capacity {
        assert ps[..i][..capacity - |inbox|] == ps[..i + 1][..capacity - |inbox|];
      }
    }

    method HandleReceive(p: Packet, now: int) returns (delivered: seq<Bytes>)
      requires Valid()
      modifies this, retx, reorder
      ensures Valid() && Value() == AfterReceive(old(Value()), p, now)
      ensures delivered == Delivered(old(Value()), p)
    {
      delivered := [];
      if p.IsACK() {
        ProcessAck(p.ack, p.ackMask, now);
      }
      if p.IsReliable() && |p.payload| > 0 {
        UpdateRecvAck(p.seqNo);
        delivered := reorder.Insert(p.seqNo, p.payload);
        Enqueue(delivered);
      }
      if !p.IsReliable() && |p.payload| > 0 && !p.IsPING() {
        Enqueue([p.payload]);
      }
    }

    method ProcessAck(ack: uint32, ackMask: uint32, now: int)
      modifies this`srtt, this`rttVar, retx
      ensures Value() == AfterAck(old(Value()), Window(ack, ackMask), now)
    {
      ghost var q := retx.pending;
      var rtt, ok := retx.Ack(ack, now);
      if ok {
        UpdateRTT(rtt);
      }
      retx.AckBitmask(ack, ackMask, now);
      assert retx.pending == q - Named(Window(ack, ackMask));
    }

    /** The packet sent for each due number, in some order. */
    static ghost predicate Resent(out: seq<Packet>, e: Endpoint, due: seq<uint32>) {
      && (forall s :: s in due ==> s in e.pending)
      && |out| == |due| && forall k :: 0 <= k < |out| ==> out[k] == Stamped(e, e.pending[due[k]].pkt)
    }

    /** Each due packet goes out exactly once. */
    method Tick(now: int) returns (out: seq<Packet>, expired: seq<uint32>)
      requires Valid()
      modifies this, retx
      ensures Valid() && Value() == AfterTick(old(Value()), now)
      ensures forall p :: p in out <==> p in Retransmitted(old(Value()), now)
      ensures exists due :: Lists(due, RetrySet(old(Value()).pending, now)) && Resent(out, old(Value()), due)
      ensures Lists(expired, ExpiredSet(old(Value()).pending, now))
    {
      ghost var e := Value();
      var due;
      due, expired := retx.CollectRetransmissions(now);
      assert forall s :: s in due ==> s in RetrySet(e.pending, now);
      out := Resend(due);
      forall p ensures p in out <==> p in Retransmitted(e, now) {
        if p in Retransmitted(e, now) {
          var s :| s in RetrySet(e.pending, now) && p == Stamped(e, e.pending[s].pkt);
          assert s in due;
          var k :| 0 <= k < |due| && due[k] == s;
          assert out[k] == p;
        }
      }
      assert Resent(out, e, due);
      assert retx.pending == AfterTick(e, now).pending;
    }

    /** The loop of Tick: put the current acknowledgement into each due packet and send it. */
    method Resend(due: seq<uint32>) returns (out: seq<Packet>)
      requires forall s :: s in due ==> s in retx.pending
      requires forall i, j :: 0 <= i < j < |due| ==> due[i] != due[j]
      modifies retx
      ensures retx.pending.Keys == old(retx.pending).Keys
      ensures forall s :: s in retx.pending ==>
                var p := old(retx.pending)[s];
                retx.pending[s] == if s in due then p.(pkt := Stamped(Value(), p.pkt)) else p
      ensures |out| == |due| && forall k :: 0 <= k < |due| ==> out[k] == Stamped(Value(), old(retx.pending)[due[k]].pkt)
    {
      ghost var q := retx.pending;
      out := [];
      for i := 0 to |due|
        invariant retx.pending.Keys == q.Keys
        invariant forall s :: s in q ==>
                    retx.pending[s] == if s in due[..i] then q[s].(pkt := Stamped(Value(), q[s].pkt)) else q[s]
        invariant |out| == i && forall k :: 0 <= k < i ==> out[k] == Stamped(Value(), q[due[k]].pkt)
      {
        var s := due[i];
        var pp := retx.pending[s];
        var pkt := pp.pkt.(ack := recvAck, ackMask := recvBitmask);
        retx.pending := retx.pending[s := pp.(pkt := pkt)];
        out := out + [pkt];
      }
      assert due[..|due|] == due;
    }
  }
}
