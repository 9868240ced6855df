/** Two endpoints over a network that loses, duplicates and reorders, as a step system. */
module Protocol {
  import opened Words
  import opened Packets
  import opened Reorder
  import opened Acks
  import opened Retx
  import opened Endpoints

  /** What became of one number of a sender's sequence space: a tracked reliable payload, or one spent on
      an unreliable packet or on a failed send. */
  datatype Slot = Tracked(payload: Bytes) | Skipped

  /** What happened at one end, kept beside its state: the fields are never read by the endpoint operations. */
  datatype History = History(
    log: seq<Slot>,           // this end's numbers 1, 2, ... in order
    noted: set<nat>,          // peer numbers acknowledged by this end, with 0
    view: Unbounded,          // the reorder buffer over unbounded numbers
    delivered: seq<Bytes>,    // everything the reorder buffer ever handed over
    entered: seq<Bytes>,      // the part of it that found room in the inbox
    overflowed: bool,         // some of it did not
    hints: nat,               // unreliable payloads received
    consumed: seq<Bytes>,     // taken out of the inbox so far
    lost: set<nat>,           // peer numbers dropped for lying too far ahead
    acked: set<uint32>,       // own numbers removed by an acknowledgement
    expired: map<uint32, Exit>)   // own numbers given up, and when

  datatype Node = Node(ep: Endpoint, h: History)

  /** The network in each direction is the set of all packets ever sent: any of them may arrive at any time, again and
      again, or never. */
  datatype Sys = Sys(a: Node, b: Node, ab: set<Packet>, ba: set<Packet>)

  datatype Event =
    | Send(payload: Bytes, outcome: Outcome, now: int)
    | SendUnreliable(payload: Bytes, reached: bool)
    | SendAck
    | SendPing
    | Tick(now: int)
    | Receive(p: Packet, now: int)
    | Dispatch

  /** Which end acts: b when flipped. */
  datatype Move = Move(flipped: bool, ev: Event)

  function NewNode(connID: uint16, capacity: nat): Node {
    Node(NewEndpoint(connID, capacity),
         History([], {0}, Unbounded(1, map[]), [], [], false, 0, [], {}, {}, map[]))
  }

  /** What the peer decodes from the datagram of a payload: its length travels in 16 bits. */
  function Arriving(payload: Bytes): Bytes {
    payload[..U16(|payload|)]
  }

  function OnWire(p: Packet): Packet {
    p.(payload := Arriving(p.payload))
  }

  /** A packet arrives as OnWire says, by the packet codec. */
  lemma OnWireIsDecoded(p: Packet)
    ensures Packets.DecodeOf(Packets.EncodeOf(p)).Ok? && Packets.DecodeOf(Packets.EncodeOf(p)).value == OnWire(p)
  {
    PacketRoundTrip(p, []);
    assert Packets.EncodeOf(p) + [] == Packets.EncodeOf(p);
  }

  ghost function AfterReceipt(x: Node, p: Packet, now: int): Node {
    var got := Delivered(x.ep, p);
    var e := AfterReceive(x.ep, p, now);
    var h := if p.IsACK()
             then x.h.(acked := x.h.acked + x.ep.pending.Keys * Named(Window(p.ack, p.ackMask))) else x.h;
    Node(e,
      if CarriesData(p) then
        h.(noted := h.noted + {p.seqNo as nat},
           view := UInserted(h.view, MAX_BUFFERED, p.seqNo, p.payload).0,
           delivered := h.delivered + got,
           entered := h.entered + Accepted(x.ep, got),
           overflowed := h.overflowed || |Accepted(x.ep, got)| < |got|,
           lost := if p.seqNo > h.view.next + MAX_BUFFERED then h.lost + {p.seqNo as nat} else h.lost)
      else if CarriesHint(p) then h.(hints := h.hints + 1)
      else h)
  }

  /** The payloads of a delivery that find room in the inbox. */
  function Accepted(e: Endpoint, got: seq<Bytes>): seq<Bytes> {
    if |e.inbox| + |got| <= e.capacity then got
    else if |e.inbox| <= e.capacity then got[..e.capacity - |e.inbox|]
    else []
  }

  ghost function Acted(x: Node, ev: Event): (r: (Node, set<Packet>)) {
    match ev
    case Send(payload, outcome, now) =>
      (Node(AfterSend(x.ep, payload, outcome, now),
            x.h.(log := x.h.log + [if outcome == Failed then Skipped else Tracked(payload)])),
       if outcome == Sent then {OnWire(DataPacket(x.ep, payload))} else {})
    case SendUnreliable(payload, reached) =>
      (Node(AfterSendUnreliable(x.ep), x.h.(log := x.h.log + [Skipped])),
       if reached then {OnWire(NextPacket(x.ep, FLAG_ACK, payload))} else {})
    case SendAck => (x, {PureAck(x.ep)})
    case SendPing => (x, {Ping(x.ep)})
    case Tick(now) =>
      (Node(AfterTick(x.ep, now), x.h.(expired := x.h.expired + Exits(x.ep.pending, now))),
       set p | p in Retransmitted(x.ep, now) :: OnWire(p))
    case Receive(p, now) => (AfterReceipt(x, p, now), {})
    case Dispatch =>
      (if x.ep.inbox == [] then x
       else Node(x.ep.(inbox := x.ep.inbox[1..]), x.h.(consumed := x.h.consumed + [x.ep.inbox[0]])),
       {})
  }

  /** What an end puts on the network, apart from retransmissions: the next number and the payload when it sends, number
      0 otherwise, and always the acknowledgement flag with the current window. Flag 2 acknowledges, 8 is reliable, 16
      is a ping. */
  lemma Emits(x: Node, ev: Event)
    requires x.ep.sendSeq < TWO_TO_THE_32 - 1
    ensures var n, id, w, out := x.ep.sendSeq + 1, x.ep.connID, x.ep.win, Acted(x, ev).1;
            match ev
            case Send(d, outcome, _) =>
              out == if outcome == Sent then {Packet(10, id, n, w.ack, w.mask, Arriving(d))} else {}
            case SendUnreliable(d, reached) =>
              out == if reached then {Packet(2, id, n, w.ack, w.mask, Arriving(d))} else {}
            case SendAck => out == {Packet(2, id, 0, w.ack, w.mask, [])}
            case SendPing => out == {Packet(18, id, 0, w.ack, w.mask, [])}
            case Tick(_) => forall p :: p in out ==> p.ack == w.ack && p.ackMask == w.mask
            case Receive(_, _) => out == {}
            case Dispatch => out == {}
  {
    FlagBits();
  }

  /** A move that receives a packet the network does not hold changes nothing. */
  ghost function MovedA(s: Sys, ev: Event): Sys {
    if ev.Receive? && ev.p !in s.ba then s
    else
      var r := Acted(s.a, ev);
      s.(a := r.0, ab := s.ab + r.1)
  }

  function Flip(s: Sys): Sys {
    Sys(s.b, s.a, s.ba, s.ab)
  }

  ghost function Moved(s: Sys, m: Move): Sys {
    if m.flipped then Flip(MovedA(Flip(s), m.ev)) else MovedA(s, m.ev)
  }

  ghost function Reached(s: Sys, ms: seq<Move>): Sys {
    if ms == [] then s else Moved(Reached(s, ms[..|ms| - 1]), ms[|ms| - 1])
  }

  function NewSys(connID: uint16, capA: nat, capB: nat): Sys {
    Sys(NewNode(connID, capA), NewNode(connID, capB), {}, {})
  }

  // ----- the invariant, for sender x and receiver y -----

  const HALF_SPACE := 0x8000_0000

  /** The payloads a receiver should get, number by number. */
  function WireLog(log: seq<Slot>): (w: seq<Bytes>)
    ensures |w| == |log|
  {
    seq(|log|, k requires 0 <= k < |log| => if log[k].Tracked? then Arriving(log[k].payload) else [])
  }

  predicate IsTracked(log: seq<Slot>, n: nat) {
    1 <= n <= |log| && log[n - 1].Tracked?
  }

  /** A number that a packet with data can carry. */
  predicate IsSent(log: seq<Slot>, n: nat) {
    IsTracked(log, n) && Arriving(log[n - 1].payload) != []
  }

  ghost predicate SendOK(x: Node, xy: set<Packet>) {
    && x.ep.sendSeq == |x.h.log| < HALF_SPACE
    && (forall s :: s in x.ep.pending ==>
          && IsTracked(x.h.log, s)
          && x.ep.pending[s].pkt.seqNo == s
          && x.ep.pending[s].pkt.flags == 10
          && x.ep.pending[s].pkt.payload == x.h.log[s - 1].payload)
    && (forall p :: p in xy && CarriesData(p) ==>
          IsTracked(x.h.log, p.seqNo) && p.payload == WireLog(x.h.log)[p.seqNo - 1])
  }

  ghost predicate WindowOK(log: seq<Slot>, y: Node) {
    && Exact(y.ep.win, y.h.noted)
    && forall k :: k in y.h.noted ==> k == 0 || IsSent(log, k)
  }

  ghost predicate BufferOK(log: seq<Slot>, y: Node) {
    && SameAhead(y.ep.buf, y.h.view, MAX_BUFFERED)
    && Faithful(y.h.view, WireLog(log))
    && y.h.delivered == WireLog(log)[..y.h.view.next - 1]
    && (forall k: nat :: k >= 1 ==> (k in y.h.noted <==> Kept(y.h.view, k) || k in y.h.lost))
  }

  ghost predicate InboxOK(y: Node) {
    && IsSubsequence(y.h.entered, y.h.delivered)
    && (!y.h.overflowed ==> y.h.entered == y.h.delivered)
    && (y.h.hints == 0 ==> y.h.consumed + y.ep.inbox == y.h.entered)
  }

  ghost predicate RecvOK(log: seq<Slot>, y: Node) {
    WindowOK(log, y) && BufferOK(log, y) && InboxOK(y)
  }

  ghost predicate AckOK(noted: set<nat>, yx: set<Packet>) {
    forall p, s :: p in yx && p.IsACK() && s in Named(Window(p.ack, p.ackMask)) ==> s as nat in noted
  }

  ghost predicate BookOK(x: Node, noted: set<nat>) {
    && (forall n: uint32 :: IsTracked(x.h.log, n) <==> n in x.ep.pending || n in x.h.acked || n in x.h.expired)
    && x.ep.pending.Keys !! x.h.acked !! x.h.expired.Keys
    && (forall n :: n in x.h.acked ==> n as nat in noted)
  }

  ghost predicate Link(x: Node, y: Node, xy: set<Packet>, yx: set<Packet>) {
    SendOK(x, xy) && RecvOK(x.h.log, y) && AckOK(y.h.noted, yx) && BookOK(x, y.h.noted)
  }

  ghost predicate Inv(s: Sys) {
    Link(s.a, s.b, s.ab, s.ba) && Link(s.b, s.a, s.ba, s.ab)
  }

  // ----- subsequences -----

  ghost predicate IsSubsequence(a: seq<Bytes>, b: seq<Bytes>)
    decreases |b|
  {
    a == [] || (b != [] &&
      (IsSubsequence(a, b[..|b| - 1]) || (a[|a| - 1] == b[|b| - 1] && IsSubsequence(a[..|a| - 1], b[..|b| - 1]))))
  }

  lemma {:induction false} SubsequenceGrows(a: seq<Bytes>, b: seq<Bytes>, c: seq<Bytes>, k: nat)
    requires IsSubsequence(a, b) && k <= |c|
    ensures IsSubsequence(a + c[..k], b + c)
    decreases |c|
  {
    if c == [] {
      assert a + c[..k] == a && b + c == b;
    } else {
      var m := |c| - 1;
      assert (b + c)[..|b| + m] == b + c[..m];
      if k == |c| {
        SubsequenceGrows(a, b, c[..m], m);
        assert (a + c)[..|a| + m] == a + c[..m] && c[..m][..m] == c[..m] && c[..k] == c;
      } else {
        SubsequenceGrows(a, b, c[..m], k);
        assert c[..m][..k] == c[..k];
      }
    }
  }

  // ----- each move keeps each part -----

  ghost predicate Extends(log: seq<Slot>, more: seq<Slot>) {
    |log| <= |more| && more[..|log|] == log
  }

  lemma ActedExtends(x: Node, ev: Event)
    ensures Extends(x.h.log, Acted(x, ev).0.h.log)
    ensures x.h.noted <= Acted(x, ev).0.h.noted
  {
  }

  lemma DataFlags()
    ensures Or(FLAG_RELIABLE, FLAG_ACK) == 10 && Or(FLAG_PING, FLAG_ACK) == 18
    ensures Bit(10, 3) && !Bit(18, 3) && !Bit(FLAG_ACK, 3)
  {
    FlagBits();
  }

  lemma ExtendsTracked(log: seq<Slot>, more: seq<Slot>, n: nat)
    requires Extends(log, more) && 1 <= n <= |log|
    ensures more[n - 1] == log[n - 1] && WireLog(more)[n - 1] == WireLog(log)[n - 1]
  {
    assert more[..|log|][n - 1] == more[n - 1];
  }

  lemma SendKeepsSendOK(x: Node, xy: set<Packet>, ev: Event)
    requires SendOK(x, xy) && (ev.Send? || ev.SendUnreliable?) && |x.h.log| + 1 < HALF_SPACE
    ensures SendOK(Acted(x, ev).0, xy + Acted(x, ev).1)
  {
    var r := Acted(x, ev);
    DataFlags();
    ActedExtends(x, ev);
    forall s | s in r.0.ep.pending
      ensures && IsTracked(r.0.h.log, s) && r.0.ep.pending[s].pkt.seqNo == s && r.0.ep.pending[s].pkt.flags == 10
              && r.0.ep.pending[s].pkt.payload == r.0.h.log[s - 1].payload
    {
      if s in x.ep.pending {
        ExtendsTracked(x.h.log, r.0.h.log, s);
      }
    }
    forall p | p in xy + r.1 && CarriesData(p)
      ensures IsTracked(r.0.h.log, p.seqNo) && p.payload == WireLog(r.0.h.log)[p.seqNo - 1]
    {
      if p in xy {
        ExtendsTracked(x.h.log, r.0.h.log, p.seqNo);
      }
    }
  }

  lemma TickKeepsSendOK(x: Node, xy: set<Packet>, now: int)
    requires SendOK(x, xy)
    ensures SendOK(Acted(x, Tick(now)).0, xy + Acted(x, Tick(now)).1)
  {
    var r := Acted(x, Tick(now));
    forall s | s in r.0.ep.pending
      ensures s in x.ep.pending && r.0.ep.pending[s].pkt.seqNo == x.ep.pending[s].pkt.seqNo
              && r.0.ep.pending[s].pkt.flags == x.ep.pending[s].pkt.flags
              && r.0.ep.pending[s].pkt.payload == x.ep.pending[s].pkt.payload
    {
    }
    forall p | p in r.1 ensures IsTracked(x.h.log, p.seqNo) && p.payload == WireLog(x.h.log)[p.seqNo - 1] {
      ResentFromLog(x, xy, now, p);
    }
  }

  lemma ResentFromLog(x: Node, xy: set<Packet>, now: int, p: Packet)
    requires SendOK(x, xy) && p in Acted(x, Tick(now)).1
    ensures IsTracked(x.h.log, p.seqNo) && p.payload == WireLog(x.h.log)[p.seqNo - 1]
  {
    var q :| q in Retransmitted(x.ep, now) && p == OnWire(q);
    var s :| s in RetrySet(x.ep.pending, now) && q == Stamped(x.ep, x.ep.pending[s].pkt);
  }

  /** Acknowledging, pinging, receiving and dispatching send no data and add nothing to the queue. */
  lemma QuietKeepsSendOK(x: Node, xy: set<Packet>, ev: Event)
    requires SendOK(x, xy) && (ev.SendAck? || ev.SendPing? || ev.Receive? || ev.Dispatch?)
    ensures SendOK(Acted(x, ev).0, xy + Acted(x, ev).1)
  {
    var r := Acted(x, ev);
    QuietSendsNoData(x, ev);
    assert r.0.ep.pending.Keys <= x.ep.pending.Keys;
    assert forall s :: s in r.0.ep.pending ==> r.0.ep.pending[s] == x.ep.pending[s];
    assert r.0.h.log == x.h.log && r.0.ep.sendSeq == x.ep.sendSeq;
  }

  lemma QuietSendsNoData(x: Node, ev: Event)
    requires ev.SendAck? || ev.SendPing? || ev.Receive? || ev.Dispatch?
    ensures forall p :: p in Acted(x, ev).1 ==> !CarriesData(p)
  {
    DataFlags();
  }

  lemma ActedKeepsSendOK(x: Node, xy: set<Packet>, ev: Event)
    requires SendOK(x, xy) && |Acted(x, ev).0.h.log| < HALF_SPACE
    ensures SendOK(Acted(x, ev).0, xy + Acted(x, ev).1)
  {
    if ev.Send? || ev.SendUnreliable? {
      SendKeepsSendOK(x, xy, ev);
    } else if ev.Tick? {
      TickKeepsSendOK(x, xy, ev.now);
    } else {
      QuietKeepsSendOK(x, xy, ev);
    }
  }

  /** A longer sender log leaves the receiver's part true. */
  lemma LogGrowthKeepsRecvOK(log: seq<Slot>, more: seq<Slot>, y: Node)
    requires RecvOK(log, y) && Extends(log, more)
    ensures RecvOK(more, y)
  {
    var u := y.h.view;
    forall k | 0 <= k < |log| ensures more[k] == log[k] && WireLog(more)[k] == WireLog(log)[k] {
      ExtendsTracked(log, more, k + 1);
    }
    assert WireLog(more)[..u.next - 1] == WireLog(log)[..u.next - 1];
  }

  ghost predicate ArrivesFrom(log: seq<Slot>, p: Packet) {
    CarriesData(p) && IsTracked(log, p.seqNo) && p.payload == WireLog(log)[p.seqNo - 1]
  }

  lemma ReceiptKeepsWindowOK(log: seq<Slot>, y: Node, p: Packet, now: int)
    requires WindowOK(log, y) && |log| < HALF_SPACE && ArrivesFrom(log, p)
    ensures WindowOK(log, AfterReceipt(y, p, now))
  {
    assert y.ep.win.ack as nat in y.h.noted;
    NotedExact(y.ep.win, y.h.noted, p.seqNo);
  }

  /** The part of a data packet's receipt that concerns the reorder buffer. */
  lemma ReceiptInserts(y: Node, p: Packet, now: int)
    requires CarriesData(p)
    ensures var z, r := AfterReceipt(y, p, now), Inserted(y.ep.buf, MAX_BUFFERED, p.seqNo, p.payload);
            && z.ep.buf == r.0 && z.h.delivered == y.h.delivered + r.1
            && z.h.view == UInserted(y.h.view, MAX_BUFFERED, p.seqNo, p.payload).0
            && z.h.noted == y.h.noted + {p.seqNo as nat}
            && z.h.lost == if p.seqNo > y.h.view.next + MAX_BUFFERED then y.h.lost + {p.seqNo as nat} else y.h.lost
  {
    hide Inserted, UInserted, Noted, AfterAck, Enqueued;
  }

  lemma ReceiptKeepsBufferOK(log: seq<Slot>, y: Node, p: Packet, now: int)
    requires BufferOK(log, y) && |log| < HALF_SPACE && ArrivesFrom(log, p)
    ensures BufferOK(log, AfterReceipt(y, p, now))
  {
    hide AfterReceipt, Inserted, UInserted;
    ReceiptInserts(y, p, now);
    var u := OneArrival(y.ep.buf, y.h.view, MAX_BUFFERED, WireLog(log), p.seqNo);
    assert AfterReceipt(y, p, now).h.view == u;
  }

  lemma ReceiptKeepsInboxOK(y: Node, p: Packet, now: int)
    requires InboxOK(y) && CarriesData(p)
    ensures InboxOK(AfterReceipt(y, p, now))
  {
    InboxGrows(y, Delivered(y.ep, p));
  }

  lemma ReceiptKeepsRecvOK(log: seq<Slot>, y: Node, p: Packet, now: int)
    requires RecvOK(log, y) && |log| < HALF_SPACE && ArrivesFrom(log, p)
    ensures RecvOK(log, AfterReceipt(y, p, now))
  {
    ReceiptKeepsWindowOK(log, y, p, now);
    ReceiptKeepsBufferOK(log, y, p, now);
    ReceiptKeepsInboxOK(y, p, now);
  }

  lemma InboxGrows(y: Node, got: seq<Bytes>)
    requires IsSubsequence(y.h.entered, y.h.delivered)
    ensures IsSubsequence(y.h.entered + Accepted(y.ep, got), y.h.delivered + got)
    ensures |Accepted(y.ep, got)| == |got| ==> Accepted(y.ep, got) == got
    ensures Enqueued(y.ep.inbox, y.ep.capacity, got) == y.ep.inbox + Accepted(y.ep, got)
    ensures y.h.consumed + (y.ep.inbox + Accepted(y.ep, got)) == (y.h.consumed + y.ep.inbox) + Accepted(y.ep, got)
  {
    var k := |Accepted(y.ep, got)|;
    assert Accepted(y.ep, got) == got[..k];
    SubsequenceGrows(y.h.entered, y.h.delivered, got, k);
  }

  /** What anything but the receipt of data leaves alone. */
  lemma OthersLeaveReceiver(y: Node, ev: Event)
    requires !(ev.Receive? && CarriesData(ev.p))
    ensures var z := Acted(y, ev).0;
            && z.ep.win == y.ep.win && z.ep.buf == y.ep.buf
            && z.h.noted == y.h.noted && z.h.view == y.h.view && z.h.delivered == y.h.delivered && z.h.lost == y.h.lost
            && z.h.entered == y.h.entered && z.h.overflowed == y.h.overflowed && z.h.hints >= y.h.hints
            && (z.h.hints == 0 ==> z.h.consumed + z.ep.inbox == y.h.consumed + y.ep.inbox)
  {
    if ev.Dispatch? && y.ep.inbox != [] {
      assert y.h.consumed + [y.ep.inbox[0]] + y.ep.inbox[1..] == y.h.consumed + y.ep.inbox;
    }
  }

  lemma ActedKeepsRecvOK(log: seq<Slot>, y: Node, ev: Event)
    requires RecvOK(log, y) && |log| < HALF_SPACE
    requires ev.Receive? && CarriesData(ev.p) ==> ArrivesFrom(log, ev.p)
    ensures RecvOK(log, Acted(y, ev).0)
  {
    if ev.Receive? && CarriesData(ev.p) {
      ReceiptKeepsRecvOK(log, y, ev.p, ev.now);
    } else {
      OthersLeaveReceiver(y, ev);
      hide Acted, IsSubsequence, Exact, SameAhead, Faithful, WireLog;
    }
  }

  /** Every packet an end sends names only numbers it has noted, now and later. */
  lemma ActedKeepsAckOK(y: Node, yx: set<Packet>, ev: Event)
    requires AckOK(y.h.noted, yx) && Exact(y.ep.win, y.h.noted)
    ensures AckOK(Acted(y, ev).0.h.noted, yx + Acted(y, ev).1)
  {
    NamedReceived(y.ep.win, y.h.noted);
    ActedExtends(y, ev);
    forall p | p in Acted(y, ev).1 ensures Window(p.ack, p.ackMask) == y.ep.win {
    }
  }

  lemma SendKeepsBookOK(x: Node, xy: set<Packet>, noted: set<nat>, ev: Event)
    requires BookOK(x, noted) && SendOK(x, xy) && |x.h.log| + 1 < HALF_SPACE && (ev.Send? || ev.SendUnreliable?)
    ensures BookOK(Acted(x, ev).0, noted)
  {
    var r := Acted(x, ev).0;
    var m: uint32 := |r.h.log|;
    var added := ev.Send? && ev.outcome != Failed;
    assert forall n: uint32 :: IsTracked(r.h.log, n) <==> IsTracked(x.h.log, n) || (n == m && added);
    assert !IsTracked(x.h.log, m);
    assert added ==> r.ep.pending.Keys == x.ep.pending.Keys + {m};
  }

  lemma ReceiptKeepsBookOK(x: Node, noted: set<nat>, p: Packet, now: int)
    requires BookOK(x, noted)
    requires p.IsACK() ==> forall s :: s in Named(Window(p.ack, p.ackMask)) ==> s as nat in noted
    ensures BookOK(AfterReceipt(x, p, now), noted)
  {
    var r := AfterReceipt(x, p, now);
    if p.IsACK() {
      var named := Named(Window(p.ack, p.ackMask));
      assert r.ep.pending.Keys == x.ep.pending.Keys - named;
      assert r.h.acked == x.h.acked + x.ep.pending.Keys * named;
    } else {
      assert r.ep.pending == x.ep.pending;
    }
  }

  lemma ActedKeepsBookOK(x: Node, xy: set<Packet>, noted: set<nat>, ev: Event)
    requires BookOK(x, noted) && SendOK(x, xy) && |Acted(x, ev).0.h.log| < HALF_SPACE
    requires ev.Receive? && ev.p.IsACK() ==>
               forall s :: s in Named(Window(ev.p.ack, ev.p.ackMask)) ==> s as nat in noted
    ensures BookOK(Acted(x, ev).0, noted)
  {
    var r := Acted(x, ev).0;
    if ev.Send? || ev.SendUnreliable? {
      SendKeepsBookOK(x, xy, noted, ev);
    } else if ev.Receive? {
      ReceiptKeepsBookOK(x, noted, ev.p, ev.now);
    } else if ev.Tick? {
      assert r.ep.pending.Keys == x.ep.pending.Keys - ExpiredSet(x.ep.pending, ev.now);
      assert r.h.expired.Keys == x.h.expired.Keys + ExpiredSet(x.ep.pending, ev.now);
    }
  }

  /** One move of end x keeps both directions. */
  lemma MoveKeepsLinks(x: Node, y: Node, xy: set<Packet>, yx: set<Packet>, ev: Event)
    requires Link(x, y, xy, yx) && Link(y, x, yx, xy)
    requires |Acted(x, ev).0.h.log| < HALF_SPACE
    requires ev.Receive? ==> ev.p in yx
    ensures var r := Acted(x, ev); Link(r.0, y, xy + r.1, yx) && Link(y, r.0, yx, xy + r.1)
  {
    ActedExtends(x, ev);
    ActedKeepsSendOK(x, xy, ev);
    LogGrowthKeepsRecvOK(x.h.log, Acted(x, ev).0.h.log, y);
    ActedKeepsBookOK(x, xy, y.h.noted, ev);
    ActedKeepsRecvOK(y.h.log, x, ev);
    ActedKeepsAckOK(x, xy, ev);
  }

  lemma LogsGrow(s: Sys, m: Move)
    ensures |s.a.h.log| <= |Moved(s, m).a.h.log| && |s.b.h.log| <= |Moved(s, m).b.h.log|
  {
    ActedExtends(s.a, m.ev);
    ActedExtends(s.b, m.ev);
  }

  lemma NewSysInv(connID: uint16, capA: nat, capB: nat)
    ensures Inv(NewSys(connID, capA, capB))
  {
    forall i: nat ensures !Bit(0, i) {
      BitOfZero(i);
    }
  }

  /** The invariant holds in every run, before either end has used up half of the sequence space. */
  lemma {:induction false} EveryRun(s: Sys, ms: seq<Move>)
    requires Inv(s)
    requires |Reached(s, ms).a.h.log| < HALF_SPACE && |Reached(s, ms).b.h.log| < HALF_SPACE
    ensures Inv(Reached(s, ms))
  {
    if ms != [] {
      var p, m := Reached(s, ms[..|ms| - 1]), ms[|ms| - 1];
      LogsGrow(p, m);
      EveryRun(s, ms[..|ms| - 1]);
      if m.flipped {
        if !(m.ev.Receive? && m.ev.p !in p.ab) {
          MoveKeepsLinks(p.b, p.a, p.ba, p.ab, m.ev);
        }
      } else {
        if !(m.ev.Receive? && m.ev.p !in p.ba) {
          MoveKeepsLinks(p.a, p.b, p.ab, p.ba, m.ev);
        }
      }
    }
  }
}
