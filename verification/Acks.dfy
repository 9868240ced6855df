/** Selective acknowledgement: the highest sequence number received and a bit for each of the 32 below it. */
module Acks {
  import opened Words
  import opened Reorder

  datatype Window = Window(ack: uint32, mask: uint32)

  function Shifted(mask: uint32, diff: nat): uint32
    requires 1 <= diff <= 32
  {
    OrFits(Shl32(mask, diff), diff - 1);
    Or(Shl32(mask, diff), Pow2(diff - 1))
  }

  function WithBit(mask: uint32, i: nat): uint32
    requires i < 32
  {
    OrFits(mask, i);
    Or(mask, Pow2(i))
  }

  /** The source compares modularly for a new highest number, but with a plain `<` for an older one. */
  function Noted(w: Window, s: uint32): Window {
    if SeqLT(w.ack, s) then
      var diff := Sub32(s, w.ack);
      Window(s, if diff <= 32 then Shifted(w.mask, diff) else 0)
    else if s < w.ack then
      var diff := w.ack - s;
      if diff <= 32 then w.(mask := WithBit(w.mask, diff - 1)) else w
    else w
  }

  /** The sequence number that bit i of a bitmask stands for. */
  function BitSeq(ack: uint32, i: nat): uint32
    requires i < 32
  {
    Sub32(Sub32(ack, 1), i)
  }

  /** Every sequence number that an (ack, bitmask) pair acknowledges. */
  function Named(w: Window): set<uint32> {
    {w.ack} + set i | 0 <= i < 32 && Bit(w.mask, i) :: BitSeq(w.ack, i)
  }

  lemma OrFits(m: uint32, i: nat)
    requires i < 32
    ensures Or(m, Pow2(i)) < TWO_TO_THE_32
  {
    Pow2Of32();
    Pow2Mono(i, 31);
    OrBound(m, Pow2(i), 32);
  }

  lemma {:induction false} Pow2Mono(m: nat, n: nat)
    requires m <= n
    ensures Pow2(m) <= Pow2(n)
    decreases n
  {
    if m < n {
      Pow2Mono(m, n - 1);
    }
  }

  lemma BitOfShifted(mask: uint32, diff: nat, i: nat)
    requires 1 <= diff <= 32 && i < 32
    ensures Bit(Shifted(mask, diff), i) <==> i == diff - 1 || (i >= diff && Bit(mask, i - diff))
  {
    Pow2Of32();
    hide Pow2, Bit, Or;
    BitOfOr(Shl32(mask, diff), Pow2(diff - 1), i);
    BitOfPow2(diff - 1, i);
    BitOfMod(mask * Pow2(diff), 32, i);
    BitOfShift(mask, diff, i);
  }

  lemma BitOfWithBit(mask: uint32, j: nat, i: nat)
    requires j < 32 && i < 32
    ensures Bit(WithBit(mask, j), i) <==> i == j || Bit(mask, i)
  {
    BitOfOr(mask, Pow2(j), i);
    BitOfPow2(j, i);
  }

  /** Before wrap: ack is the highest number received, and bit i says exactly whether ack-1-i was received. */
  ghost predicate Exact(w: Window, received: set<nat>) {
    ExactU(w, w.ack, received)
  }

  lemma NotedExact(w: Window, received: set<nat>, s: uint32)
    requires Exact(w, received) && w.ack - 0x8000_0000 < s < w.ack + 0x8000_0000
    ensures Exact(Noted(w, s), received + {s as nat})
  {
    NotedRemembers(w, w.ack, received, s);
  }

  ghost function NotedAll(arrivals: seq<uint32>): Window {
    if arrivals == [] then Window(0, 0)
    else Noted(NotedAll(arrivals[..|arrivals| - 1]), arrivals[|arrivals| - 1])
  }

  ghost function Numbers(arrivals: seq<uint32>): set<nat> {
    if arrivals == [] then {0}
    else Numbers(arrivals[..|arrivals| - 1]) + {arrivals[|arrivals| - 1] as nat}
  }

  /** For every arrival order below 2^31 the bitmask is exact; number 0 counts as received. */
  lemma {:induction false} AcksExact(arrivals: seq<uint32>)
    requires forall k :: 0 <= k < |arrivals| ==> arrivals[k] < 0x8000_0000
    ensures Exact(NotedAll(arrivals), Numbers(arrivals))
    ensures NotedAll(arrivals).ack < 0x8000_0000
    ensures forall k: nat :: k in Numbers(arrivals) <==> k == 0 || exists j :: 0 <= j < |arrivals| && arrivals[j] == k
  {
    if arrivals == [] {
      forall i: nat ensures !Bit(0, i) {
        BitOfZero(i);
      }
    } else {
      var m := |arrivals| - 1;
      AcksExact(arrivals[..m]);
      NotedExact(NotedAll(arrivals[..m]), Numbers(arrivals[..m]), arrivals[m]);
      forall k: nat
        ensures k in Numbers(arrivals) <==> k == 0 || exists j :: 0 <= j < |arrivals| && arrivals[j] == k
      {
        assert arrivals[m] == arrivals[m];
        assert forall j :: 0 <= j < m ==> arrivals[..m][j] == arrivals[j];
      }
    }
  }

  /** The pair names only received numbers, zero included. */
  lemma NamedReceived(w: Window, received: set<nat>)
    requires Exact(w, received)
    ensures forall s :: s in Named(w) ==> s in received
  {
    forall s | s in Named(w) ensures s in received {
      if s != w.ack {
        var i :| 0 <= i < 32 && Bit(w.mask, i) && s == BitSeq(w.ack, i);
      }
    }
  }

  // ----- across wrap-around -----

  /** With unbounded numbers: ack stands for the highest number received, and bit i says exactly whether the number
      i + 1 below it was received. */
  ghost predicate ExactU(w: Window, high: nat, received: set<nat>) {
    && w.ack == U32(high) && high in received
    && (forall r :: r in received ==> r <= high)
    && (forall i: nat :: i < 32 ==> (Bit(w.mask, i) <==> i < high && high - 1 - i in received))
  }

  /** Without the other direction: a set bit only ever stands for a received number. */
  ghost predicate Sound(w: Window, high: nat, received: set<nat>) {
    && w.ack == U32(high) && high in received
    && (forall r :: r in received ==> r <= high)
    && (forall i: nat :: i < 32 && Bit(w.mask, i) ==> i < high && high - 1 - i in received)
  }

  /** The plain comparison takes an older number from before the wrap for a newer one, and drops it. */
  predicate Forgets(high: nat, n: nat) {
    n < high <= n + 32 && U32(n) > U32(high)
  }

  predicate InReach(high: nat, n: nat) {
    high - 0x8000_0000 < n < high + 0x8000_0000
  }

  function Max(a: nat, b: nat): nat {
    if a < b then b else a
  }

  /** An update is exact for what it does not forget. */
  lemma NotedRemembers(w: Window, high: nat, received: set<nat>, n: nat)
    requires ExactU(w, high, received) && InReach(high, n)
    ensures ExactU(Noted(w, U32(n)), Max(n, high), if Forgets(high, n) then received else received + {n})
  {
    var s := U32(n);
    var v := Noted(w, s);
    WindowDistance(n, high);
    WindowDistance(high, n);
    if n > high {
      var diff := n - high;
      forall i: nat | i < 32 ensures Bit(v.mask, i) <==> i < n && n - 1 - i in received + {n} {
        if diff <= 32 {
          BitOfShifted(w.mask, diff, i);
        } else {
          BitOfZero(i);
        }
      }
    } else if n < high && s < w.ack && w.ack - s <= 32 {
      forall i: nat | i < 32 ensures Bit(v.mask, i) <==> i < high && high - 1 - i in received + {n} {
        BitOfWithBit(w.mask, w.ack - s - 1, i);
      }
    }
  }

  /** An update keeps the bitmask exact if and only if it does not forget a number that is new. */
  lemma NotedExactIff(w: Window, high: nat, received: set<nat>, n: nat)
    requires ExactU(w, high, received) && InReach(high, n)
    ensures ExactU(Noted(w, U32(n)), Max(n, high), received + {n}) <==> !(Forgets(high, n) && n !in received)
  {
    NotedRemembers(w, high, received, n);
    if Forgets(high, n) {
      if n in received {
        assert received + {n} == received;
      } else {
        var i := high - 1 - n;
        assert Bit(Noted(w, U32(n)).mask, i) <==> i < high && high - 1 - i in received;
      }
    }
  }

  /** Even a window that has forgotten something never comes to name a number that was not received. */
  lemma NotedSound(w: Window, high: nat, received: set<nat>, n: nat)
    requires Sound(w, high, received) && InReach(high, n)
    ensures Sound(Noted(w, U32(n)), Max(n, high), received + {n})
  {
    var exact := set r | r in received && (r == high || (high <= r + 32 && r < high && Bit(w.mask, high - 1 - r)));
    forall i: nat | i < 32 ensures Bit(w.mask, i) <==> i < high && high - 1 - i in exact {
      assert i < high ==> high - 1 - (high - 1 - i) == i;
    }
    NotedRemembers(w, high, exact, n);
    hide Noted, InReach, Forgets;
  }

  ghost function Highest(arrivals: seq<nat>): nat {
    if arrivals == [] then 0 else Max(arrivals[|arrivals| - 1], Highest(arrivals[..|arrivals| - 1]))
  }

  /** The window after a run of arrivals over unbounded numbers. */
  ghost function WindowAfter(arrivals: seq<nat>): Window {
    if arrivals == [] then Window(0, 0)
    else Noted(WindowAfter(arrivals[..|arrivals| - 1]), U32(arrivals[|arrivals| - 1]))
  }

  /** Each arrival lies within 2^31 of the highest number so far. */
  ghost predicate AllInReach(arrivals: seq<nat>) {
    forall j :: 0 <= j < |arrivals| ==> InReach(Highest(arrivals[..j]), arrivals[j])
  }

  ghost predicate Received(arrivals: seq<nat>, n: nat) {
    n == 0 || exists j :: 0 <= j < |arrivals| && arrivals[j] == n
  }

  /** The number was not forgotten on its j-th arrival. */
  ghost predicate KeptAt(arrivals: seq<nat>, j: nat, n: nat)
    requires j < |arrivals|
  {
    arrivals[j] == n && !Forgets(Highest(arrivals[..j]), n)
  }

  /** The number arrived at least once when the window did not forget it. */
  ghost predicate Remembered(arrivals: seq<nat>, n: nat) {
    n == 0 || exists j :: 0 <= j < |arrivals| && KeptAt(arrivals, j, n)
  }

  ghost function ReceivedSet(arrivals: seq<nat>): set<nat> {
    if arrivals == [] then {0} else ReceivedSet(arrivals[..|arrivals| - 1]) + {arrivals[|arrivals| - 1]}
  }

  ghost function RememberedSet(arrivals: seq<nat>): set<nat> {
    if arrivals == [] then {0}
    else
      var p, n := arrivals[..|arrivals| - 1], arrivals[|arrivals| - 1];
      if Forgets(Highest(p), n) then RememberedSet(p) else RememberedSet(p) + {n}
  }

  lemma {:induction false} ReceivedMeans(arrivals: seq<nat>, n: nat)
    ensures n in ReceivedSet(arrivals) <==> Received(arrivals, n)
  {
    if arrivals != [] {
      var m := |arrivals| - 1;
      ReceivedMeans(arrivals[..m], n);
      assert forall j :: 0 <= j < m ==> arrivals[..m][j] == arrivals[j];
      assert arrivals[m] == arrivals[m];
    }
  }

  lemma {:induction false} RememberedMeans(arrivals: seq<nat>, n: nat)
    ensures n in RememberedSet(arrivals) <==> Remembered(arrivals, n)
  {
    if arrivals != [] {
      var m := |arrivals| - 1;
      var p := arrivals[..m];
      RememberedMeans(p, n);
      forall j | 0 <= j < m ensures KeptAt(p, j, n) <==> KeptAt(arrivals, j, n) {
        assert p[..j] == arrivals[..j];
      }
      assert KeptAt(arrivals, m, n) <==> arrivals[m] == n && !Forgets(Highest(p), n);
    }
  }

  /** In every run, across wrap-around: the bitmask is exact for the remembered numbers. */
  lemma {:induction false} RunRemembers(arrivals: seq<nat>)
    requires AllInReach(arrivals)
    ensures ExactU(WindowAfter(arrivals), Highest(arrivals), RememberedSet(arrivals))
  {
    if arrivals == [] {
      forall i: nat ensures !Bit(0, i) {
        BitOfZero(i);
      }
    } else {
      var m := |arrivals| - 1;
      var p := arrivals[..m];
      assert forall j :: 0 <= j < m ==> p[..j] == arrivals[..j];
      RunRemembers(p);
      NotedRemembers(WindowAfter(p), Highest(p), RememberedSet(p), arrivals[m]);
    }
  }

  lemma {:induction false} HighestIsMax(arrivals: seq<nat>)
    ensures forall n :: n in ReceivedSet(arrivals) ==> n <= Highest(arrivals)
    ensures Highest(arrivals) in ReceivedSet(arrivals) && RememberedSet(arrivals) <= ReceivedSet(arrivals)
  {
    if arrivals != [] {
      HighestIsMax(arrivals[..|arrivals| - 1]);
    }
  }

  lemma ExactForBoth(w: Window, high: nat, remembered: set<nat>, received: set<nat>)
    requires ExactU(w, high, remembered) && remembered <= received && forall r :: r in received ==> r <= high
    ensures Sound(w, high, received)
    ensures ExactU(w, high, received) <==> forall n :: n in received && n < high <= n + 32 ==> n in remembered
  {
    if ExactU(w, high, received) {
      forall n | n in received && n < high <= n + 32 ensures n in remembered {
        assert Bit(w.mask, high - 1 - n);
      }
    }
  }

  /** In every run a set bit stands for a received number; and the bitmask is exact if and only if each received number
      within its 32 places arrived at least once without being forgotten. */
  lemma AcksAcrossWrap(arrivals: seq<nat>)
    requires AllInReach(arrivals)
    ensures var w, high, received := WindowAfter(arrivals), Highest(arrivals), ReceivedSet(arrivals);
            && Sound(w, high, received)
            && (ExactU(w, high, received) <==>
                forall n: nat :: Received(arrivals, n) && n < high <= n + 32 ==> Remembered(arrivals, n))
            && (forall n: nat :: n in received <==> Received(arrivals, n))
  {
    RunRemembers(arrivals);
    HighestIsMax(arrivals);
    forall n: nat
      ensures n in ReceivedSet(arrivals) <==> Received(arrivals, n)
      ensures n in RememberedSet(arrivals) <==> Remembered(arrivals, n)
    {
      ReceivedMeans(arrivals, n);
      RememberedMeans(arrivals, n);
    }
    hide ExactU, Sound, Received, Remembered;
    ExactForBoth(WindowAfter(arrivals), Highest(arrivals), RememberedSet(arrivals), ReceivedSet(arrivals));
  }

  /** Jumps to 2^32, each in reach of the one before, and then the number just below. */
  const LATE: seq<nat> := [0x7fff_ffff, 0xffff_fffe, 0x1_0000_0000, 0xffff_ffff]

  lemma LateHighs()
    ensures Highest(LATE[..0]) == 0 && Highest(LATE[..1]) == LATE[0] && Highest(LATE[..2]) == LATE[1]
    ensures Highest(LATE[..3]) == LATE[2] == Highest(LATE)
  {
    assert LATE[..0] == [] && LATE[..1][..0] == [] && LATE[..2][..1] == LATE[..1];
    assert LATE[..3][..2] == LATE[..2] && LATE[..4][..3] == LATE[..3] && LATE[..4] == LATE;
  }

  /** An input on which exactness is lost: number 2^32 - 1 arriving after number 2^32 leaves no trace. */
  lemma ForgottenAfterWrap()
    ensures AllInReach(LATE) && Highest(LATE) == 0x1_0000_0000 && Received(LATE, 0xffff_ffff)
    ensures WindowAfter(LATE) == WindowAfter(LATE[..3])
    ensures !ExactU(WindowAfter(LATE), Highest(LATE), ReceivedSet(LATE))
  {
    LateHighs();
    assert LATE[3] == 0xffff_ffff;
    hide Highest;
    AcksAcrossWrap(LATE);
    assert !Remembered(LATE, 0xffff_ffff);
  }
}
