/** Machine words: fixed-width integers, their wrap-around, and bitwise operators on them. */
module Words {

  const TWO_TO_THE_32 := 0x1_0000_0000
  const TWO_TO_THE_64 := 0x1_0000_0000_0000_0000

  type uint8 = x: int | 0 <= x < 0x100
  type uint16 = x: int | 0 <= x < 0x1_0000
  type uint32 = x: int | 0 <= x < TWO_TO_THE_32
  type uint64 = x: int | 0 <= x < TWO_TO_THE_64
  type int32 = x: int | -0x8000_0000 <= x < 0x8000_0000
  type int64 = x: int | -0x8000_0000_0000_0000 <= x < 0x8000_0000_0000_0000

  type Bytes = seq<uint8>

  /** The conversion `uint16(x)`. */
  function U16(x: int): uint16 {
    if 0 <= x < 0x1_0000 then x else x % 0x1_0000
  }

  /** The conversion `uint32(x)`. */
  function U32(x: int): uint32 {
    if 0 <= x < TWO_TO_THE_32 then x else x % TWO_TO_THE_32
  }

  /** The conversion `uint64(x)`. */
  function U64(x: int): uint64 {
    if 0 <= x < TWO_TO_THE_64 then x else x % TWO_TO_THE_64
  }

  /** `a + 1` and `a - b` on uint32, with wrap-around. */
  function Inc32(a: uint32): uint32 {
    if a == TWO_TO_THE_32 - 1 then 0 else a + 1
  }

  function Sub32(a: uint32, b: uint32): uint32 {
    if a >= b then a - b else a - b + TWO_TO_THE_32
  }

  function Add32(a: uint32, b: uint32): uint32 {
    if a + b < TWO_TO_THE_32 then a + b else a + b - TWO_TO_THE_32
  }

  /** The conversion `int32(x)`: two's complement wrap-around. */
  function I32(x: int): int32 {
    if -0x8000_0000 <= x < 0x8000_0000 then x
    else
      var m := x % TWO_TO_THE_32;
      if m < 0x8000_0000 then m else m - TWO_TO_THE_32
  }

  /** The conversion `int64(x)`. */
  function I64(x: int): int64 {
    if -0x8000_0000_0000_0000 <= x < 0x8000_0000_0000_0000 then x
    else
      var m := x % TWO_TO_THE_64;
      if m < 0x8000_0000_0000_0000 then m else m - TWO_TO_THE_64
  }

  function Pow2(n: nat): (p: nat)
    ensures p >= 1
  {
    if n == 0 then 1 else 2 * Pow2(n - 1)
  }

  /** Bit `i` of `m`, that is `m & (1 << i) != 0`. */
  predicate Bit(m: nat, i: nat) {
    if i == 0 then m % 2 == 1 else Bit(m / 2, i - 1)
  }

  function Or(x: nat, y: nat): nat {
    if x == 0 then y
    else if y == 0 then x
    else 2 * Or(x / 2, y / 2) + (if x % 2 == 1 || y % 2 == 1 then 1 else 0)
  }

  function Xor(x: nat, y: nat): nat {
    if x == 0 then y
    else if y == 0 then x
    else 2 * Xor(x / 2, y / 2) + (if x % 2 == y % 2 then 0 else 1)
  }

  /** `m << d` on 32-bit words; like the Go operator it is zero once d reaches 32. */
  function Shl32(m: uint32, d: nat): uint32 {
    (m * Pow2(d)) % TWO_TO_THE_32
  }

  lemma {:induction false} BitOfOr(x: nat, y: nat, i: nat)
    ensures Bit(Or(x, y), i) <==> Bit(x, i) || Bit(y, i)
    decreases x
  {
    if x == 0 {
      BitOfZero(i);
    } else if y == 0 {
      BitOfZero(i);
    } else if i > 0 {
      BitOfOr(x / 2, y / 2, i - 1);
    }
  }

  lemma {:induction false} BitOfZero(i: nat)
    ensures !Bit(0, i)
  {
    if i > 0 {
      BitOfZero(i - 1);
    }
  }

  lemma {:induction false} BitOfPow2(n: nat, i: nat)
    ensures Bit(Pow2(n), i) <==> i == n
  {
    if n == 0 {
      if i > 0 {
        BitOfZero(i - 1);
      }
    } else if i > 0 {
      BitOfPow2(n - 1, i - 1);
    }
  }

  lemma {:induction false} BitOfShift(m: nat, d: nat, i: nat)
    ensures Bit(m * Pow2(d), i) <==> i >= d && Bit(m, i - d)
  {
    if d > 0 {
      assert m * Pow2(d) == 2 * (m * Pow2(d - 1));
      if i > 0 {
        BitOfShift(m, d - 1, i - 1);
      }
    }
  }

  /** Reducing modulo 2^n keeps exactly the bits below n. */
  lemma {:induction false} BitOfMod(m: nat, n: nat, i: nat)
    ensures Bit(m % Pow2(n), i) <==> i < n && Bit(m, i)
  {
    if n == 0 {
      BitOfZero(i);
    } else {
      ModHalf(m, Pow2(n - 1));
      if i > 0 {
        BitOfMod(m / 2, n - 1, i - 1);
      }
    }
  }

  lemma ModHalf(m: nat, p: nat)
    requires p > 0
    ensures (m % (2 * p)) / 2 == (m / 2) % p && (m % (2 * p)) % 2 == m % 2
  {
    var q, r := m / (2 * p), m % (2 * p);
    assert m == 2 * (q * p) + r;
    assert m / 2 == q * p + r / 2;
    ModUnique(m / 2, p, q, r / 2);
  }

  /** Division with remainder is unique. */
  lemma ModUnique(x: int, p: int, q: int, r: int)
    requires p > 0 && 0 <= r < p && x == q * p + r
    ensures x / p == q && x % p == r
  {
    var d := x / p - q;
    assert d * p == r - x % p;
    assert d >= 1 ==> d * p >= p;
    assert d <= -1 ==> d * p <= -p;
  }

  lemma MulMono(a: int, b: int, c: int, d: int)
    requires 0 <= a <= b && 0 <= c <= d
    ensures 0 <= a * c <= b * d
  {
    assert a * c <= b * c <= b * d;
  }

  lemma SquareMono(a: int, b: int)
    requires 0 <= a && 0 <= b
    ensures a < b <==> a * a < b * b
  {
    if a < b {
      assert a * a <= a * b < b * b;
    } else {
      MulMono(b, a, b, a);
    }
  }

  lemma Pow2Of32()
    ensures Pow2(32) == TWO_TO_THE_32
  {
    assert Pow2(8) == 256;
    assert Pow2(16) == 65536;
    assert Pow2(24) == 16777216;
  }

  lemma {:induction false} OrBound(x: nat, y: nat, n: nat)
    requires x < Pow2(n) && y < Pow2(n)
    ensures Or(x, y) < Pow2(n)
  {
    if x != 0 && y != 0 {
      OrBound(x / 2, y / 2, n - 1);
    }
  }

  lemma {:induction false} XorBound(x: nat, y: nat, n: nat)
    requires x < Pow2(n) && y < Pow2(n)
    ensures Xor(x, y) < Pow2(n)
  {
    if x != 0 && y != 0 {
      XorBound(x / 2, y / 2, n - 1);
    }
  }

  /** Xor with a fixed word undoes itself, on either side. */
  lemma {:induction false} XorCancels(x: nat, y: nat)
    ensures Xor(Xor(x, y), y) == x
    ensures Xor(x, Xor(x, y)) == y
    decreases x + y
  {
    if x == 0 {
      XorSelf(y);
    } else if y == 0 {
      XorSelf(x);
    } else {
      var z := Xor(x, y);
      assert z / 2 == Xor(x / 2, y / 2);
      XorCancels(x / 2, y / 2);
    }
  }

  lemma {:induction false} XorSelf(x: nat)
    ensures Xor(x, x) == 0
  {
    if x != 0 {
      XorSelf(x / 2);
    }
  }

  /** Reinterpreting a signed word as unsigned and back is the identity, in both orders. */
  lemma SignRoundTrip(x: int32, u: uint32)
    ensures I32(U32(x)) == x
    ensures U32(I32(u)) == u
  {
  }

  // ----- little-endian layout -----

  function LE16(v: uint16): (b: Bytes)
    ensures |b| == 2
  {
    [v % 256, v / 256]
  }

  function LE32(v: uint32): (b: Bytes)
    ensures |b| == 4
  {
    LE16(v % 0x1_0000) + LE16(v / 0x1_0000)
  }

  function LE64(v: uint64): (b: Bytes)
    ensures |b| == 8
  {
    LE32(v % TWO_TO_THE_32) + LE32(v / TWO_TO_THE_32)
  }

  function Get16(b: Bytes, off: nat): uint16
    requires off + 2 <= |b|
  {
    b[off] as int + 0x100 * b[off + 1] as int
  }

  function Get32(b: Bytes, off: nat): uint32
    requires off + 4 <= |b|
  {
    Get16(b, off) as int + 0x1_0000 * Get16(b, off + 2) as int
  }

  function Get64(b: Bytes, off: nat): uint64
    requires off + 8 <= |b|
  {
    Get32(b, off) as int + TWO_TO_THE_32 * Get32(b, off + 4) as int
  }

  /** The bytes of `d` at `off` are exactly `b`. */
  predicate HasAt(d: Bytes, off: nat, b: Bytes) {
    off + |b| <= |d| && d[off..off + |b|] == b
  }

  lemma HasAppend(d: Bytes, off: nat, a: Bytes, b: Bytes)
    ensures HasAt(d, off, a + b) <==> HasAt(d, off, a) && HasAt(d, off + |a|, b)
  {
    var n := |a| + |b|;
    if off + n <= |d| {
      var s := d[off..off + n];
      assert s[..|a|] == d[off..off + |a|] && s[|a|..] == d[off + |a|..off + n];
      assert s == s[..|a|] + s[|a|..];
      assert (a + b)[..|a|] == a && (a + b)[|a|..] == b;
    }
  }

  lemma HasPrefix(a: Bytes, rest: Bytes)
    ensures HasAt(a + rest, 0, a)
  {
  }

  /** Reading the bytes that writing `v` leaves at `off` gives `v`, and only `v`. */
  lemma Read8(d: Bytes, off: nat, v: uint8)
    requires off < |d|
    ensures HasAt(d, off, [v]) <==> d[off] == v
  {
  }

  lemma Read16(d: Bytes, off: nat, v: uint16)
    requires off + 2 <= |d|
    ensures HasAt(d, off, LE16(v)) <==> Get16(d, off) == v
  {
    assert d[off..off + 2] == [d[off], d[off + 1]];
  }

  lemma Read32(d: Bytes, off: nat, v: uint32)
    requires off + 4 <= |d|
    ensures HasAt(d, off, LE32(v)) <==> Get32(d, off) == v
  {
    var lo, hi := v % 0x1_0000, v / 0x1_0000;
    HasAppend(d, off, LE16(lo), LE16(hi));
    Read16(d, off, lo);
    Read16(d, off + 2, hi);
  }

  lemma Read64(d: Bytes, off: nat, v: uint64)
    requires off + 8 <= |d|
    ensures HasAt(d, off, LE64(v)) <==> Get64(d, off) == v
  {
    var lo, hi := v % TWO_TO_THE_32, v / TWO_TO_THE_32;
    HasAppend(d, off, LE32(lo), LE32(hi));
    Read32(d, off, lo);
    Read32(d, off + 4, hi);
  }

  /** Signed fields are stored as their two's complement words. */
  lemma ReadI32(d: Bytes, off: nat, v: int32)
    requires off + 4 <= |d|
    ensures HasAt(d, off, LE32(U32(v))) <==> I32(Get32(d, off)) == v
  {
    Read32(d, off, U32(v));
    SignRoundTrip(v, Get32(d, off));
  }

  lemma ReadI64(d: Bytes, off: nat, v: int64)
    requires off + 8 <= |d|
    ensures HasAt(d, off, LE64(U64(v))) <==> I64(Get64(d, off)) == v
  {
    Read64(d, off, U64(v));
    SignRoundTrip64(v, Get64(d, off));
  }

  lemma SignRoundTrip64(x: int64, u: uint64)
    ensures I64(U64(x)) == x
    ensures U64(I64(u)) == u
  {
  }

  lemma Assoc(a: Bytes, b: Bytes, c: Bytes)
    ensures (a + b) + c == a + (b + c)
  {
  }

  // ----- writing into a buffer at a moving offset -----

  method PutByte(buf: array<uint8>, off: nat, v: uint8)
    requires off < buf.Length
    modifies buf
    ensures buf[..off + 1] == old(buf[..off]) + [v]
    ensures forall k :: off + 1 <= k < buf.Length ==> buf[k] == old(buf[k])
  {
    buf[off] := v;
  }

  method PutUint16(buf: array<uint8>, off: nat, v: uint16)
    requires off + 2 <= buf.Length
    modifies buf
    ensures buf[..off + 2] == old(buf[..off]) + LE16(v)
    ensures forall k :: off + 2 <= k < buf.Length ==> buf[k] == old(buf[k])
  {
    buf[off] := v % 256;
    buf[off + 1] := v / 256;
  }

  method PutUint32(buf: array<uint8>, off: nat, v: uint32)
    requires off + 4 <= buf.Length
    modifies buf
    ensures buf[..off + 4] == old(buf[..off]) + LE32(v)
    ensures forall k :: off + 4 <= k < buf.Length ==> buf[k] == old(buf[k])
  {
    PutUint16(buf, off, v % 0x1_0000);
    PutUint16(buf, off + 2, v / 0x1_0000);
  }

  method PutUint64(buf: array<uint8>, off: nat, v: uint64)
    requires off + 8 <= buf.Length
    modifies buf
    ensures buf[..off + 8] == old(buf[..off]) + LE64(v)
    ensures forall k :: off + 8 <= k < buf.Length ==> buf[k] == old(buf[k])
  {
    PutUint32(buf, off, v % TWO_TO_THE_32);
    PutUint32(buf, off + 4, v / TWO_TO_THE_32);
  }

  /** `copy(buf[off:], data)` with room for all of `data`. */
  method PutBytes(buf: array<uint8>, off: nat, data: Bytes)
    requires off + |data| <= buf.Length
    modifies buf
    ensures buf[..off + |data|] == old(buf[..off]) + data
    ensures forall k :: off + |data| <= k < buf.Length ==> buf[k] == old(buf[k])
  {
    for i := 0 to |data|
      invariant buf[..off + i] == old(buf[..off]) + data[..i]
      invariant forall k :: off + |data| <= k < buf.Length ==> buf[k] == old(buf[k])
    {
      buf[off + i] := data[i];
    }
  }
}
