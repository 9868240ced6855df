/** The reorder buffer: in-order, at-most-once delivery over modular sequence numbers. */
module Reorder {
  import opened Words

  /** The comparison of section 3.2 of RFC 1982, as `int32(a - b) < 0`. */
  predicate SeqLT(a: uint32, b: uint32) {
    I32(Sub32(a, b)) < 0
  }

  datatype Buffer = Buffer(next: uint32, held: map<uint32, Bytes>)

  /** Deliver consecutive held payloads, starting at `next`. */
  function Flush(b: Buffer): (r: (Buffer, seq<Bytes>))
    decreases |b.held|
  {
    if b.next !in b.held then (b, [])
    else
      var p := b.held[b.next];
      var r := Flush(Buffer(Inc32(b.next), b.held - {b.next}));
      (r.0, [p] + r.1)
  }

  function Inserted(b: Buffer, maxHeld: nat, s: uint32, payload: Bytes): (Buffer, seq<Bytes>) {
    if SeqLT(s, b.next) then (b, [])
    else if Sub32(s, b.next) > maxHeld then (b, [])
    else if s == b.next then
      var r := Flush(Buffer(Inc32(b.next), b.held));
      (r.0, [payload] + r.1)
    else if s in b.held then (b, [])
    else (b.(held := b.held[s := payload]), [])
  }

  class ReorderBuffer {
    var nextExpected: uint32
    var buffer: map<uint32, Bytes>
    const maxBuffered: nat

    function Value(): Buffer
      reads this
    {
      Buffer(nextExpected, buffer)
    }

    constructor (startSeq: uint32, maxBuffered: nat)
      ensures Value() == Buffer(startSeq, map[]) && this.maxBuffered == maxBuffered
    {
      nextExpected, buffer := startSeq, map[];
      this.maxBuffered := maxBuffered;
    }

    method Insert(s: uint32, payload: Bytes) returns (delivered: seq<Bytes>)
      modifies this
      ensures (Value(), delivered) == Inserted(old(Value()), maxBuffered, s, payload)
    {
      if SeqLT(s, nextExpected) {
        return [];
      }
      if Sub32(s, nextExpected) > maxBuffered {
        return [];
      }
      if s == nextExpected {
        delivered := [payload];
        nextExpected := Inc32(nextExpected);
        ghost var whole := Flush(Value());
        ghost var flushed: seq<Bytes> := [];
        while nextExpected in buffer
          invariant delivered == [payload] + flushed
          invariant whole.0 == Flush(Value()).0
          invariant whole.1 == flushed + Flush(Value()).1
          decreases |buffer|
        {
          hide Flush;
          FlushStep(Value());
          var p := buffer[nextExpected];
          delivered := delivered + [p];
          flushed := flushed + [p];
          buffer := buffer - {nextExpected};
          nextExpected := Inc32(nextExpected);
        }
        FlushEnds(Value());
        hide Flush;
        assert flushed + [] == flushed;
        return;
      }
      if s !in buffer {
        buffer := buffer[s := payload];
      }
      return [];
    }
  }

  lemma FlushEnds(b: Buffer)
    requires b.next !in b.held
    ensures Flush(b) == (b, [])
  {
  }

  lemma FlushStep(b: Buffer)
    requires b.next in b.held
    ensures |b.held - {b.next}| < |b.held|
    ensures var r := Flush(Buffer(Inc32(b.next), b.held - {b.next}));
            Flush(b) == (r.0, [b.held[b.next]] + r.1)
  {
    assert (b.held - {b.next}).Keys == b.held.Keys - {b.next};
  }

  // ----- the same buffer over unbounded sequence numbers -----

  datatype Unbounded = Unbounded(next: nat, held: map<nat, Bytes>)

  ghost function UFlush(u: Unbounded): (r: (Unbounded, seq<Bytes>))
    decreases |u.held|
  {
    if u.next !in u.held then (u, [])
    else
      var r := UFlush(Unbounded(u.next + 1, u.held - {u.next}));
      (r.0, [u.held[u.next]] + r.1)
  }

  ghost function UInserted(u: Unbounded, maxHeld: nat, n: nat, payload: Bytes): (Unbounded, seq<Bytes>) {
    if n < u.next || n > u.next + maxHeld then (u, [])
    else if n == u.next then
      var r := UFlush(Unbounded(u.next + 1, u.held));
      (r.0, [payload] + r.1)
    else if n in u.held then (u, [])
    else (u.(held := u.held[n := payload]), [])
  }

  /** Both buffers agree on the packet d places after the next expected one. */
  ghost predicate SameAt(b: Buffer, u: Unbounded, d: uint32) {
    var s, k := Add32(b.next, d), u.next + d;
    (s in b.held <==> k in u.held) && (s in b.held ==> b.held[s] == u.held[k])
  }

  /** Both buffers hold the same payloads, none farther than maxHeld from the next expected number. */
  ghost predicate Same(b: Buffer, u: Unbounded, maxHeld: uint32) {
    && b.next == U32(u.next)
    && (forall s :: s in b.held ==> Sub32(s, b.next) <= maxHeld)
    && (forall k :: k in u.held ==> u.next <= k <= u.next + maxHeld)
    && (forall d: uint32 {:trigger SameAt(b, u, d)} :: d <= maxHeld ==> SameAt(b, u, d))
  }

  /** Modular distance is true distance inside a half-space window. */
  lemma WindowDistance(next: nat, n: nat)
    requires next - 0x8000_0000 <= n < next + 0x8000_0000
    ensures Sub32(U32(n), U32(next)) == if n >= next then n - next else n - next + TWO_TO_THE_32
    ensures SeqLT(U32(n), U32(next)) <==> n < next
  {
    var q, p := n / TWO_TO_THE_32, next / TWO_TO_THE_32;
    assert n == q * TWO_TO_THE_32 + U32(n) && next == p * TWO_TO_THE_32 + U32(next);
    assert -1 <= q - p <= 1;
  }

  lemma NextWord(next: nat)
    ensures Inc32(U32(next)) == U32(next + 1)
  {
  }

  lemma DistanceInverse(a: uint32, s: uint32)
    ensures Add32(a, Sub32(s, a)) == s
    ensures Sub32(Add32(a, s), a) == s
  {
  }

  /** The buffers as between two arrivals: the next expected packet is not held. */
  ghost predicate SameAhead(b: Buffer, u: Unbounded, maxHeld: uint32) {
    Same(b, u, maxHeld) && u.next !in u.held
  }

  lemma SameNext(b: Buffer, u: Unbounded, maxHeld: uint32)
    requires Same(b, u, maxHeld)
    ensures b.next in b.held <==> u.next in u.held
    ensures b.next in b.held ==> b.held[b.next] == u.held[u.next]
  {
    assert SameAt(b, u, 0);
  }

  lemma AdvanceSame(b: Buffer, u: Unbounded, maxHeld: uint32)
    requires Same(b, u, maxHeld) && maxHeld < 0x8000_0000
    ensures Same(Buffer(Inc32(b.next), b.held - {b.next}), Unbounded(u.next + 1, u.held - {u.next}), maxHeld)
  {
    var c, v := Buffer(Inc32(b.next), b.held - {b.next}), Unbounded(u.next + 1, u.held - {u.next});
    NextWord(u.next);
    forall s | s in c.held ensures Sub32(s, c.next) <= maxHeld {
      assert s in b.held && s != b.next;
    }
    forall d: uint32 | d <= maxHeld ensures SameAt(c, v, d) {
      assert SameAt(b, u, d + 1) by {
        if d < maxHeld {
          assert SameAt(b, u, d + 1);
        } else {
          DistanceInverse(b.next, d + 1);
        }
      }
    }
  }

  lemma {:induction false} FlushSame(b: Buffer, u: Unbounded, maxHeld: uint32)
    requires Same(b, u, maxHeld) && maxHeld < 0x8000_0000
    ensures Flush(b).1 == UFlush(u).1
    ensures SameAhead(Flush(b).0, UFlush(u).0, maxHeld)
    decreases |b.held|
  {
    SameNext(b, u, maxHeld);
    if b.next in b.held {
      AdvanceSame(b, u, maxHeld);
      FlushStep(b);
      FlushSame(Buffer(Inc32(b.next), b.held - {b.next}), Unbounded(u.next + 1, u.held - {u.next}), maxHeld);
    }
  }

  /** Refinement: for an arrival within 2^31 of the next expected number, both buffers deliver the same payloads and
      stay the same. */
  lemma InsertSame(b: Buffer, u: Unbounded, maxHeld: uint32, n: nat, payload: Bytes)
    requires SameAhead(b, u, maxHeld) && maxHeld < 0x8000_0000
    requires u.next - 0x8000_0000 <= n < u.next + 0x8000_0000
    ensures var r, t := Inserted(b, maxHeld, U32(n), payload), UInserted(u, maxHeld, n, payload);
            r.1 == t.1 && SameAhead(r.0, t.0, maxHeld)
  {
    WindowDistance(u.next, n);
    if n == u.next {
      AcceptNextSame(b, u, maxHeld);
    } else if u.next < n <= u.next + maxHeld {
      InsertAheadSame(b, u, maxHeld, n - u.next, U32(n), payload);
    }
  }

  lemma AcceptNextSame(b: Buffer, u: Unbounded, maxHeld: uint32)
    requires SameAhead(b, u, maxHeld) && maxHeld < 0x8000_0000
    ensures var r, t := Flush(Buffer(Inc32(b.next), b.held)), UFlush(Unbounded(u.next + 1, u.held));
            r.1 == t.1 && SameAhead(r.0, t.0, maxHeld)
  {
    SameNext(b, u, maxHeld);
    AdvanceSame(b, u, maxHeld);
    assert b.held - {b.next} == b.held && u.held - {u.next} == u.held;
    FlushSame(Buffer(Inc32(b.next), b.held), Unbounded(u.next + 1, u.held), maxHeld);
  }

  lemma InsertAheadSame(b: Buffer, u: Unbounded, maxHeld: uint32, e: uint32, s: uint32, payload: Bytes)
    requires SameAhead(b, u, maxHeld) && 1 <= e <= maxHeld && Sub32(s, b.next) == e
    ensures var n := u.next + e;
            && (s in b.held <==> n in u.held)
            && SameAhead(b.(held := b.held[s := payload]), u.(held := u.held[n := payload]), maxHeld)
  {
    DistanceInverse(b.next, s);
    assert SameAt(b, u, e);
    var c, v := b.(held := b.held[s := payload]), u.(held := u.held[u.next + e := payload]);
    forall d: uint32 | d <= maxHeld ensures SameAt(c, v, d) {
      assert SameAt(b, u, d);
      DistanceInverse(b.next, d);
    }
  }

  /** Held keys are at modular distance 1..maxHeld from the next expected number. */
  lemma HeldDistance(b: Buffer, u: Unbounded, maxHeld: uint32, s: uint32)
    requires SameAhead(b, u, maxHeld) && s in b.held
    ensures 1 <= Sub32(s, b.next) <= maxHeld
  {
    SameNext(b, u, maxHeld);
  }

  // ----- in-order delivery -----

  /** The unbounded buffer in front of a numbered log: everything it holds is the log's payload at that number. */
  ghost predicate Faithful(u: Unbounded, log: seq<Bytes>) {
    && 1 <= u.next <= |log| + 1
    && forall k :: k in u.held ==> u.next <= k <= |log| && u.held[k] == log[k - 1]
  }

  lemma {:induction false} FlushKeeps(u: Unbounded)
    requires forall k :: k in u.held ==> u.next <= k
    ensures var r := UFlush(u).0;
            && u.next <= r.next && r.next !in r.held
            && (forall k :: k in r.held ==> r.next <= k && k in u.held && u.held[k] == r.held[k])
            && (forall k :: k in u.held <==> u.next <= k < r.next || k in r.held)
    decreases |u.held|
  {
    if u.next in u.held {
      var v := Unbounded(u.next + 1, u.held - {u.next});
      assert v.held.Keys == u.held.Keys - {u.next};
      FlushKeeps(v);
      assert UFlush(u).0 == UFlush(v).0;
      hide UFlush;
      var r := UFlush(v).0;
      assert forall k :: k in v.held <==> k in u.held && k != u.next;
    }
  }

  lemma {:induction false} FlushDelivers(u: Unbounded, log: seq<Bytes>)
    requires Faithful(u, log)
    ensures var r := UFlush(u);
            u.next <= r.0.next <= |log| + 1 && r.1 == log[u.next - 1..r.0.next - 1]
    decreases |u.held|
  {
    if u.next in u.held {
      var v := Unbounded(u.next + 1, u.held - {u.next});
      assert v.held.Keys == u.held.Keys - {u.next};
      FlushDelivers(v, log);
      SliceHead(log, u.next - 1, UFlush(v).0.next - 1);
    }
  }

  lemma SliceHead(log: seq<Bytes>, i: nat, j: nat)
    requires i < j <= |log|
    ensures log[i..j] == [log[i]] + log[i + 1..j]
  {
  }

  /** Numbers the buffer has delivered or still holds. */
  ghost predicate Kept(u: Unbounded, k: nat) {
    1 <= k < u.next || k in u.held
  }

  /** One arrival from the log: what is delivered continues the log, and everything kept stays kept. */
  lemma InsertDelivers(u: Unbounded, maxHeld: nat, log: seq<Bytes>, n: nat)
    requires Faithful(u, log) && u.next !in u.held && 1 <= n <= |log|
    ensures var r := UInserted(u, maxHeld, n, log[n - 1]);
            && u.next <= r.0.next && Faithful(r.0, log) && r.0.next !in r.0.held
            && r.1 == log[u.next - 1..r.0.next - 1]
            && (forall k :: Kept(r.0, k) <==> Kept(u, k) || (k == n && n <= u.next + maxHeld))
  {
    if n == u.next {
      var v := Unbounded(u.next + 1, u.held);
      FlushKeeps(v);
      FlushDelivers(v, log);
      SliceHead(log, u.next - 1, UFlush(v).0.next - 1);
    }
  }

  /** A run of the 32-bit buffer on arrivals numbered without bound, and everything it delivers. */
  ghost function Receive(b: Buffer, maxHeld: nat, log: seq<Bytes>, arrivals: seq<nat>): (Buffer, seq<Bytes>)
    requires forall i :: 0 <= i < |arrivals| ==> 1 <= arrivals[i] <= |log|
  {
    if arrivals == [] then (b, [])
    else
      var p := Receive(b, maxHeld, log, arrivals[..|arrivals| - 1]);
      var n := arrivals[|arrivals| - 1];
      var r := Inserted(p.0, maxHeld, U32(n), log[n - 1]);
      (r.0, p.1 + r.1)
  }

  /** Each arrival stays within 2^31 of the next undelivered position of the log. */
  ghost predicate InWindow(b: Buffer, maxHeld: nat, log: seq<Bytes>, arrivals: seq<nat>)
    requires forall i :: 0 <= i < |arrivals| ==> 1 <= arrivals[i] <= |log|
  {
    arrivals != [] ==>
      var p, n := arrivals[..|arrivals| - 1], arrivals[|arrivals| - 1];
      var next := |Receive(b, maxHeld, log, p).1| + 1;
      InWindow(b, maxHeld, log, p) && next - 0x8000_0000 <= n < next + 0x8000_0000
  }

  /** In-order, at-most-once delivery across wrap-around: whatever arrives, in whatever order and how often, the
      payloads delivered are a prefix of the log. */
  lemma {:induction false} DeliversPrefix(maxHeld: uint32, log: seq<Bytes>, arrivals: seq<nat>) returns (u: Unbounded)
    requires maxHeld < 0x8000_0000
    requires forall i :: 0 <= i < |arrivals| ==> 1 <= arrivals[i] <= |log|
    requires InWindow(Buffer(1, map[]), maxHeld, log, arrivals)
    ensures var r := Receive(Buffer(1, map[]), maxHeld, log, arrivals);
            && SameAhead(r.0, u, maxHeld) && Faithful(u, log)
            && r.1 == log[..u.next - 1]
  {
    var b0 := Buffer(1, map[]);
    if arrivals == [] {
      u := Unbounded(1, map[]);
    } else {
      var m := |arrivals| - 1;
      var v := DeliversPrefix(maxHeld, log, arrivals[..m]);
      var p := Receive(b0, maxHeld, log, arrivals[..m]);
      var n := arrivals[m];
      hide Inserted, Faithful, SameAhead, UInserted;
      assert |p.1| + 1 == v.next;
      u := OneArrival(p.0, v, maxHeld, log, n);
    }
  }

  lemma OneArrival(b: Buffer, v: Unbounded, maxHeld: uint32, log: seq<Bytes>, n: nat) returns (u: Unbounded)
    requires SameAhead(b, v, maxHeld) && maxHeld < 0x8000_0000 && Faithful(v, log) && 1 <= n <= |log|
    requires v.next - 0x8000_0000 <= n < v.next + 0x8000_0000
    ensures var r := Inserted(b, maxHeld, U32(n), log[n - 1]);
            && u == UInserted(v, maxHeld, n, log[n - 1]).0
            && SameAhead(r.0, u, maxHeld) && Faithful(u, log) && v.next <= u.next
            && log[..v.next - 1] + r.1 == log[..u.next - 1]
            && (forall k :: Kept(u, k) <==> Kept(v, k) || (k == n && n <= v.next + maxHeld))
  {
    InsertSame(b, v, maxHeld, n, log[n - 1]);
    InsertDelivers(v, maxHeld, log, n);
    u := UInserted(v, maxHeld, n, log[n - 1]).0;
    SliceJoin(log, v.next - 1, u.next - 1);
  }

  lemma SliceJoin(log: seq<Bytes>, i: nat, j: nat)
    requires i <= j <= |log|
    ensures log[..i] + log[i..j] == log[..j]
  {
  }
}
