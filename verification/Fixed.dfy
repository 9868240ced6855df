/** Q16.16 fixed-point numbers: a Fix32 is the signed 32-bit raw value. */
module Fixed {
  import opened Words

  type Fix32 = int32

  const SHIFT := 16
  const ONE: Fix32 := 0x1_0000
  const HALF: Fix32 := 0x8000
  const EPS: Fix32 := 1

  /** Largest raw value whose square, rescaled, still fits: just above 181.0. */
  const MAX_SAFE: Fix32 := 11863283

  function FromInt(v: int32): Fix32 {
    I32(v * ONE)
  }

  function Add(a: Fix32, b: Fix32): Fix32 {
    I32(a + b)
  }

  function Sub(a: Fix32, b: Fix32): Fix32 {
    I32(a - b)
  }

  /** The arithmetic shift right by 16 rounds toward negative infinity. */
  function FloorShift(x: int): int {
    x / ONE
  }

  /** Division of machine integers truncates toward zero. */
  function TruncDiv(a: int, b: int): int
    requires b != 0
  {
    if a >= 0 then a / b else -((-a) / b)
  }

  function Mul(a: Fix32, b: Fix32): Fix32 {
    I32(FloorShift(a * b))
  }

  /** The source panics when b is zero. */
  function Div(a: Fix32, b: Fix32): Fix32
    requires b != 0
  {
    I32(TruncDiv(a * ONE, b))
  }

  function Clamp(a: Fix32, lo: Fix32, hi: Fix32): Fix32 {
    if a < lo then lo else if a > hi then hi else a
  }

  /** The integer square root: the largest r with r * r <= n. */
  ghost function IntSqrt(n: nat): (r: nat)
    ensures r * r <= n < (r + 1) * (r + 1)
  {
    if n == 0 then 0
    else
      var r := IntSqrt(n - 1);
      if (r + 1) * (r + 1) <= n then r + 1 else r
  }

  lemma IntSqrtUnique(n: nat, r: nat)
    requires r * r <= n < (r + 1) * (r + 1)
    ensures r == IntSqrt(n)
  {
    var s := IntSqrt(n);
    SquareMono(r, s + 1);
    SquareMono(s, r + 1);
  }

  /** What Sqrt computes: zero up to zero, else the exact floor of the square root at full precision. */
  ghost function SqrtOf(a: Fix32): (r: Fix32)
    ensures a > 0 ==> 256 <= r && r * r <= a * ONE < (r + 1) * (r + 1)
    ensures a <= 0 <==> r == 0
  {
    if a <= 0 then 0
    else
      var r := IntSqrt(a * ONE);
      SqrtRange(a * ONE, r);
      r
  }

  lemma SqrtRange(n: nat, r: nat)
    requires ONE <= n < 0x8000_0000 * ONE
    requires r * r <= n < (r + 1) * (r + 1)
    ensures 256 <= r <= MAX_SAFE
  {
    SquareMono(255, r);
    SquareMono(256, r + 1);
    SquareMono(r, MAX_SAFE + 1);
  }

  /** The source's search over the bits of the result, from bit 30 down. */
  method Sqrt(a: Fix32) returns (r: Fix32)
    ensures r == SqrtOf(a)
  {
    if a <= 0 {
      return 0;
    }
    var n: int64 := a * ONE;
    var result: int64 := 0;
    var bit: int64 := 0x4000_0000;
    ghost var k := 31;
    BitsOf31();
    while bit > 0
      invariant 0 <= k <= 31
      invariant bit == if k == 0 then 0 else Pow2(k - 1)
      invariant 0 <= result && result + Pow2(k) <= 0x8000_0000
      invariant result % Pow2(k) == 0
      invariant result * result <= n < (result + Pow2(k)) * (result + Pow2(k))
      decreases k
    {
      // result has no bit below 2 * bit, so the source's `result | bit` is the sum.
      SumIsOr(result, k);
      var trial: int64 := result + bit;
      TrialFits(trial);
      if trial * trial <= n {
        result := trial;
      }
      bit := bit / 2;
      k := k - 1;
    }
    IntSqrtUnique(n, result);
    return result;
  }

  lemma BitsOf31()
    ensures Pow2(30) == 0x4000_0000 && Pow2(31) == 0x8000_0000
  {
    Pow2Of32();
  }

  lemma TrialFits(trial: int)
    requires 0 <= trial <= 0x8000_0000
    ensures 0 <= trial * trial <= 0x4000_0000_0000_0000
  {
    MulMono(trial, 0x8000_0000, trial, 0x8000_0000);
  }

  lemma SumIsOr(x: nat, k: nat)
    requires k > 0 && x % Pow2(k) == 0
    ensures Or(x, Pow2(k - 1)) == x + Pow2(k - 1)
    ensures x % Pow2(k - 1) == 0 && (x + Pow2(k - 1)) % Pow2(k - 1) == 0
  {
    OrDisjoint(x, k - 1);
    HalveMultiple(x, Pow2(k - 1));
  }

  lemma HalveMultiple(x: int, p: int)
    requires p > 0 && x % (2 * p) == 0
    ensures x % p == 0 && (x + p) % p == 0
  {
    var q := x / (2 * p);
    assert x == (2 * p) * q;
    assert x == (2 * q) * p;
    ModUnique(x, p, 2 * q, 0);
    assert x + p == (2 * q + 1) * p;
    ModUnique(x + p, p, 2 * q + 1, 0);
  }

  lemma {:induction false} OrDisjoint(x: nat, n: nat)
    requires x % Pow2(n + 1) == 0
    ensures Or(x, Pow2(n)) == x + Pow2(n)
  {
    if x != 0 {
      ModHalf(x, Pow2(n));
      if n == 0 {
        assert x % 2 == 0;
      } else {
        assert (x / 2) % Pow2(n) == 0;
        OrDisjoint(x / 2, n - 1);
      }
    }
  }
}

/** Two-dimensional vectors over Q16.16. */
module Vectors {
  import opened Words
  import opened Fixed

  datatype Vec2 = Vec2(x: Fix32, y: Fix32)

  function VAdd(a: Vec2, b: Vec2): Vec2 {
    Vec2(Add(a.x, b.x), Add(a.y, b.y))
  }

  function VSub(a: Vec2, b: Vec2): Vec2 {
    Vec2(Sub(a.x, b.x), Sub(a.y, b.y))
  }

  function Scale(a: Vec2, s: Fix32): Vec2 {
    Vec2(Mul(a.x, s), Mul(a.y, s))
  }

  function Dot(a: Vec2, b: Vec2): Fix32 {
    Add(Mul(a.x, b.x), Mul(a.y, b.y))
  }

  function LenSq(a: Vec2): Fix32 {
    Dot(a, a)
  }

  function DistSq(a: Vec2, b: Vec2): Fix32 {
    LenSq(VSub(a, b))
  }

  /** The test on which MoveToward jumps to the target instead of scaling. */
  predicate Snaps(from: Vec2, target: Vec2, maxDist: Fix32) {
    DistSq(target, from) <= Mul(maxDist, maxDist)
  }

  /** The source divides by a zero distance, and so panics, exactly here. */
  ghost predicate Panics(from: Vec2, target: Vec2, maxDist: Fix32) {
    !Snaps(from, target, maxDist) && SqrtOf(DistSq(target, from)) == 0
  }

  ghost function Ratio(from: Vec2, target: Vec2, maxDist: Fix32): Fix32
    requires !Snaps(from, target, maxDist) && !Panics(from, target, maxDist)
  {
    Div(maxDist, SqrtOf(DistSq(target, from)))
  }

  ghost function MoveTowardOf(from: Vec2, target: Vec2, maxDist: Fix32): Vec2
    requires !Panics(from, target, maxDist)
  {
    if Snaps(from, target, maxDist) then target
    else VAdd(from, Scale(VSub(target, from), Ratio(from, target, maxDist)))
  }

  method MoveToward(from: Vec2, target: Vec2, maxDist: Fix32) returns (r: Vec2)
    requires !Panics(from, target, maxDist)
    ensures r == MoveTowardOf(from, target, maxDist)
  {
    var diff := VSub(target, from);
    var dSq := LenSq(diff);
    if dSq <= Mul(maxDist, maxDist) {
      return target;
    }
    var d := Sqrt(dSq);
    return VAdd(from, Scale(diff, Div(maxDist, d)));
  }

  /** A speed never makes MoveToward panic if and only if its rescaled square did not wrap below zero. */
  lemma PanicFreeSpeeds(s: Fix32)
    ensures (forall from, target :: !Panics(from, target, s)) <==> Mul(s, s) >= 0
  {
    if Mul(s, s) < 0 {
      WrappedSpeedPanics(s);
    } else {
      forall from, target ensures !Panics(from, target, s) {
        NoPanic(from, target, s);
      }
    }
  }

  /** A speed such as 182.0, whose square wraps, panics on a unit already at its target. */
  lemma WrappedSpeedPanics(s: Fix32)
    requires Mul(s, s) < 0
    ensures Panics(Vec2(0, 0), Vec2(0, 0), s)
  {
    ZeroDistance();
  }

  lemma ZeroDistance()
    ensures DistSq(Vec2(0, 0), Vec2(0, 0)) == 0 && SqrtOf(0) == 0
  {
    assert VSub(Vec2(0, 0), Vec2(0, 0)) == Vec2(0, 0);
    assert Mul(0, 0) == 0;
  }

  lemma NoPanic(from: Vec2, target: Vec2, s: Fix32)
    requires Mul(s, s) >= 0
    ensures !Panics(from, target, s)
  {
    var dSq := DistSq(target, from);
    assert SqrtOf(dSq) == 0 ==> dSq <= Mul(s, s);
  }

  /** Speeds in [0, 181): the whole domain in which the square of the speed is exact. */
  predicate SafeSpeed(s: Fix32) {
    0 <= s <= MAX_SAFE
  }

  lemma SafeSquare(s: Fix32)
    requires SafeSpeed(s)
    ensures 0 <= Mul(s, s) == FloorShift(s * s)
  {
    MulMono(s, MAX_SAFE, s, MAX_SAFE);
  }

  /** A safe speed never panics, whatever wrap-around the positions cause. */
  lemma SafeSpeedNeverPanics(from: Vec2, target: Vec2, s: Fix32)
    requires SafeSpeed(s)
    ensures !Panics(from, target, s)
  {
    SafeSquare(s);
  }

  /** The scaling factor of a non-snapping move is in [0, 1], even when the squared distance wrapped. */
  lemma RatioAtMostOne(from: Vec2, target: Vec2, s: Fix32)
    requires SafeSpeed(s) && !Snaps(from, target, s)
    ensures !Panics(from, target, s)
    ensures var d := SqrtOf(DistSq(target, from));
            s <= d && Ratio(from, target, s) == s * ONE / d && 0 <= Ratio(from, target, s) <= ONE
  {
    SafeSquare(s);
    var dSq := DistSq(target, from);
    FloorLess(s * s, dSq);
    SpeedBelowDistance(s, dSq, SqrtOf(dSq));
  }

  lemma FloorLess(a: int, b: int)
    requires FloorShift(a) < b
    ensures a < b * ONE
  {
  }

  lemma SpeedBelowDistance(s: nat, dSq: nat, d: nat)
    requires 0 < d && s * s < dSq * ONE < (d + 1) * (d + 1)
    ensures s <= d && 0 <= s * ONE / d <= ONE
  {
    SquareMono(s, d + 1);
    DivBelow(s * ONE, d, ONE);
  }

  lemma DivBelow(a: int, d: int, k: int)
    requires d > 0 && 0 <= a <= d * k
    ensures 0 <= a / d <= k
  {
    var q := a / d;
    assert d * q <= a;
    assert q >= k + 1 ==> d * q >= d * (k + 1);
  }

  predicate Between(v: int, a: int, b: int) {
    a <= v <= b || b <= v <= a
  }

  /** Scaling a difference by a factor in [0, 1] stays within the difference; a negative part moves at least one raw
      unit. */
  lemma ScaleBetween(dx: Fix32, r: Fix32)
    requires 0 <= r <= ONE
    ensures Mul(dx, r) == FloorShift(dx * r) && Between(Mul(dx, r), 0, dx)
    ensures dx < 0 && r > 0 ==> Mul(dx, r) <= -1
    ensures dx > 0 && dx * r >= ONE ==> Mul(dx, r) >= 1
  {
    if dx >= 0 {
      MulMono(dx, dx, r, ONE);
    } else {
      MulMono(0 - dx, 0 - dx, r, ONE);
      assert (0 - dx) * r == 0 - dx * r;
      if r > 0 {
        MulMono(1, 0 - dx, 1, r);
      }
    }
  }

  predicate NoWrap(from: Vec2, target: Vec2) {
    && -0x8000_0000 <= target.x - from.x < 0x8000_0000
    && -0x8000_0000 <= target.y - from.y < 0x8000_0000
  }

  /** The displacement of a non-snapping move. */
  lemma MoveScales(from: Vec2, target: Vec2, s: Fix32)
    requires SafeSpeed(s) && NoWrap(from, target) && !Snaps(from, target, s)
    ensures !Panics(from, target, s)
    ensures var r := MoveTowardOf(from, target, s);
            var k := Ratio(from, target, s);
            && 0 <= k <= ONE
            && r.x - from.x == Mul(target.x - from.x, k)
            && r.y - from.y == Mul(target.y - from.y, k)
  {
    RatioAtMostOne(from, target, s);
    var k := Ratio(from, target, s);
    ScaleBetween(target.x - from.x, k);
    ScaleBetween(target.y - from.y, k);
  }

  /** Without a clamp, and whatever the squared distance does, a move ends between its two endpoints on each axis. */
  lemma MoveStaysBetween(from: Vec2, target: Vec2, s: Fix32)
    requires SafeSpeed(s) && NoWrap(from, target)
    ensures !Panics(from, target, s)
    ensures var r := MoveTowardOf(from, target, s);
            Between(r.x, from.x, target.x) && Between(r.y, from.y, target.y)
  {
    SafeSpeedNeverPanics(from, target, s);
    if !Snaps(from, target, s) {
      MoveScales(from, target, s);
      var k := Ratio(from, target, s);
      ScaleBetween(target.x - from.x, k);
      ScaleBetween(target.y - from.y, k);
    }
  }

  // ----- the overflow-free domain -----

  /** Coordinate differences whose squared length fits Q16.16. */
  predicate DiffFits(dx: int, dy: int) {
    && -0x8000_0000 <= dx < 0x8000_0000
    && -0x8000_0000 <= dy < 0x8000_0000
    && FloorShift(dx * dx) + FloorShift(dy * dy) < 0x8000_0000
  }

  lemma SquareNonNegative(x: int)
    ensures x * x >= 0 && FloorShift(x * x) >= 0
  {
  }

  lemma ExactDistSq(from: Vec2, target: Vec2)
    requires DiffFits(target.x - from.x, target.y - from.y)
    ensures var dx, dy := target.x - from.x, target.y - from.y;
            DistSq(target, from) == FloorShift(dx * dx) + FloorShift(dy * dy)
  {
    var dx, dy := target.x - from.x, target.y - from.y;
    SquareNonNegative(dx);
    SquareNonNegative(dy);
    assert VSub(target, from) == Vec2(dx, dy);
  }

  function Abs(x: int): nat {
    if x < 0 then -x else x
  }

  function Manhattan(a: Vec2, b: Vec2): nat {
    Abs(a.x - b.x) + Abs(a.y - b.y)
  }

  /** Strict progress: every non-snapping move of at least 512 raw shortens the Manhattan distance, whatever the squared
      distance does. */
  lemma MoveMakesProgress(from: Vec2, target: Vec2, s: Fix32)
    requires 512 <= s <= MAX_SAFE && NoWrap(from, target) && !Snaps(from, target, s)
    ensures !Panics(from, target, s)
    ensures Manhattan(MoveTowardOf(from, target, s), target) < Manhattan(from, target)
  {
    var dx, dy := target.x - from.x, target.y - from.y;
    MoveScales(from, target, s);
    var k := Ratio(from, target, s);
    ScaleBetween(dx, k);
    ScaleBetween(dy, k);
    if DiffFits(dx, dy) {
      FittingAxisMoves(from, target, s);
    } else {
      FarAxisMoves(from, target, s);
    }
  }

  /** Some axis is scaled to at least one raw unit. */
  ghost predicate AnAxisMoves(dx: int, dy: int, k: int) {
    Abs(dx) * k >= ONE || Abs(dy) * k >= ONE
  }

  lemma FittingAxisMoves(from: Vec2, target: Vec2, s: Fix32)
    requires 512 <= s <= MAX_SAFE && !Snaps(from, target, s) && DiffFits(target.x - from.x, target.y - from.y)
    ensures !Panics(from, target, s)
    ensures Ratio(from, target, s) > 0 && AnAxisMoves(target.x - from.x, target.y - from.y, Ratio(from, target, s))
  {
    var dx, dy := target.x - from.x, target.y - from.y;
    RatioAtMostOne(from, target, s);
    ExactDistSq(from, target);
    var d := SqrtOf(DistSq(target, from));
    if Abs(dx) >= Abs(dy) {
      LongAxisMoves(dx, dy, s, d);
    } else {
      LongAxisMoves(dy, dx, s, d);
    }
  }

  /** Where the square does not fit, one axis differs by at least 128.0, and the factor is at least 2 raw. */
  lemma FarAxisMoves(from: Vec2, target: Vec2, s: Fix32)
    requires 512 <= s <= MAX_SAFE && !Snaps(from, target, s) && NoWrap(from, target)
    requires !DiffFits(target.x - from.x, target.y - from.y)
    ensures !Panics(from, target, s)
    ensures Ratio(from, target, s) >= 2 && AnAxisMoves(target.x - from.x, target.y - from.y, Ratio(from, target, s))
  {
    var dx, dy := target.x - from.x, target.y - from.y;
    RatioAtMostOne(from, target, s);
    var k := Ratio(from, target, s);
    SqrtOfRange(DistSq(target, from));
    FactorAtLeastTwo(s, SqrtOf(DistSq(target, from)));
    FarAxis(dx, dy);
    hide Ratio, DistSq, SqrtOf, Snaps;
    if Abs(dx) >= 0x80_0000 {
      MulMono(0x80_0000, Abs(dx), 2, k);
    } else {
      MulMono(0x80_0000, Abs(dy), 2, k);
    }
  }

  lemma FactorAtLeastTwo(s: int, d: int)
    requires 512 <= s && 0 < d <= MAX_SAFE
    ensures s * ONE / d >= 2
  {
    var q := s * ONE / d;
    assert (q + 1) * d > s * ONE;
    if q <= 1 {
      MulMono(q + 1, 2, d, MAX_SAFE);
    }
  }

  lemma SqrtOfRange(a: Fix32)
    ensures 0 <= SqrtOf(a) <= MAX_SAFE
  {
    if a > 0 {
      SqrtRange(a * ONE, SqrtOf(a));
    }
  }

  lemma FarAxis(dx: int, dy: int)
    requires FloorShift(dx * dx) + FloorShift(dy * dy) >= 0x8000_0000
    ensures Abs(dx) >= 0x80_0000 || Abs(dy) >= 0x80_0000
  {
    AbsSquare(dx);
    AbsSquare(dy);
    if Abs(dx) < 0x80_0000 && Abs(dy) < 0x80_0000 {
      MulMono(Abs(dx), 0x7f_ffff, Abs(dx), 0x7f_ffff);
      MulMono(Abs(dy), 0x7f_ffff, Abs(dy), 0x7f_ffff);
    }
  }

  /** The longer axis a of a difference (a, b) at distance d is scaled to at least one raw unit. */
  lemma LongAxisMoves(a: int, b: int, s: int, d: int)
    requires 512 <= s && 0 < d && Abs(b) <= Abs(a)
    requires DiffFits(a, b)
    requires d * d <= (FloorShift(a * a) + FloorShift(b * b)) * ONE
    ensures s * ONE / d > 0
    ensures Abs(a) * (s * ONE / d) >= ONE
  {
    var l, r := Abs(a), s * ONE / d;
    LongAxisLength(a, b, d);
    assert (r + 1) * d > s * ONE;
    ProductBound(l, r, d, s);
  }

  lemma LongAxisLength(a: int, b: int, d: int)
    requires 0 < d && Abs(b) <= Abs(a) && DiffFits(a, b)
    requires d * d <= (FloorShift(a * a) + FloorShift(b * b)) * ONE
    ensures 7 * d <= 10 * Abs(a) && Abs(a) <= MAX_SAFE
  {
    var l, m := Abs(a), Abs(b);
    assert a * a == l * l && b * b == m * m;
    MulMono(m, l, m, l);
    SquareNonNegative(b);
    LongAxisSquares(l, d, l * l, m * m, d * d);
  }

  lemma LongAxisSquares(l: nat, d: nat, ll: int, mm: int, dd: int)
    requires ll == l * l && dd == d * d && 0 <= mm <= ll
    requires FloorShift(ll) < 0x8000_0000
    requires dd <= (FloorShift(ll) + FloorShift(mm)) * ONE
    ensures 7 * d <= 10 * l && l <= MAX_SAFE
  {
    SquareMono(MAX_SAFE, l);
    assert MAX_SAFE + 1 <= l ==> ll >= (MAX_SAFE + 1) * (MAX_SAFE + 1) by {
      if MAX_SAFE + 1 <= l {
        MulMono(MAX_SAFE + 1, l, MAX_SAFE + 1, l);
      }
    }
    assert dd <= 2 * ll;
    SquareMono(10 * l, 7 * d);
    assert (10 * l) * (10 * l) == 100 * ll;
    assert (7 * d) * (7 * d) == 49 * dd;
  }

  lemma ProductBound(l: int, r: int, d: int, s: int)
    requires 0 <= l <= MAX_SAFE && 0 < d && 7 * d <= 10 * l
    requires 512 <= s && (r + 1) * d > s * ONE && r >= 0
    ensures l * r >= ONE && r > 0
  {
    MulMono(7 * d, 10 * l, r + 1, r + 1);
    assert (7 * d) * (r + 1) == 7 * ((r + 1) * d);
    assert (10 * l) * (r + 1) == 10 * (l * r) + 10 * l;
  }

  /** Rounding: a non-snapping move is at most 259 raw units longer than the speed. */
  lemma MoveLengthBound(from: Vec2, target: Vec2, s: Fix32)
    requires SafeSpeed(s) && DiffFits(target.x - from.x, target.y - from.y)
    requires !Snaps(from, target, s)
    ensures !Panics(from, target, s)
    ensures var r := MoveTowardOf(from, target, s);
            var sx, sy := r.x - from.x, r.y - from.y;
            sx * sx + sy * sy <= (s + 259) * (s + 259)
  {
    var d, k := MoveInRawUnits(from, target, s);
    RoundedMove(target.x - from.x, target.y - from.y, d, k, s);
  }

  /** A non-snapping, overflow-free move in exact integers: the distance d, the factor k, and the displacement. */
  lemma MoveInRawUnits(from: Vec2, target: Vec2, s: Fix32) returns (d: int, k: int)
    requires SafeSpeed(s) && DiffFits(target.x - from.x, target.y - from.y)
    requires !Snaps(from, target, s)
    ensures !Panics(from, target, s)
    ensures 256 <= d && s <= d && k == s * ONE / d && 0 <= k <= ONE
    ensures var dx, dy := target.x - from.x, target.y - from.y;
            var n := (FloorShift(dx * dx) + FloorShift(dy * dy)) * ONE;
            var r := MoveTowardOf(from, target, s);
            && d * d <= n < (d + 1) * (d + 1)
            && r.x - from.x == FloorShift(dx * k)
            && r.y - from.y == FloorShift(dy * k)
  {
    MoveScales(from, target, s);
    RatioAtMostOne(from, target, s);
    ExactDistSq(from, target);
    k := Ratio(from, target, s);
    d := SqrtOf(DistSq(target, from));
    ScaleBetween(target.x - from.x, k);
    ScaleBetween(target.y - from.y, k);
  }

  lemma RoundedMove(dx: Fix32, dy: Fix32, d: int, k: int, s: int)
    requires 256 <= d && 0 <= s && 0 <= k <= ONE && k == s * ONE / d
    requires (FloorShift(dx * dx) + FloorShift(dy * dy)) * ONE < (d + 1) * (d + 1)
    ensures var sx, sy := FloorShift(dx * k), FloorShift(dy * k);
            sx * sx + sy * sy <= (s + 259) * (s + 259)
  {
    ScaleRounds(dx, k);
    ScaleRounds(dy, k);
    ScaledDistance(dx, dy, d, k, s);
    AbsProduct(dx, k);
    AbsProduct(dy, k);
    SumOfRounded(Abs(dx) * k, Abs(dy) * k, Abs(FloorShift(dx * k)), Abs(FloorShift(dy * k)), s + 257);
    AbsSquare(FloorShift(dx * k));
    AbsSquare(FloorShift(dy * k));
  }

  lemma AbsProduct(x: int, k: nat)
    ensures Abs(x) * k >= 0
  {
  }

  lemma AbsSquare(x: int)
    ensures Abs(x) * Abs(x) == x * x
  {
  }

  lemma ScaleRounds(dx: Fix32, k: Fix32)
    requires 0 <= k <= ONE
    ensures Abs(FloorShift(dx * k)) * ONE <= Abs(dx) * k + ONE
  {
    var p := dx * k;
    assert Abs(dx) * k == Abs(p) by {
      if dx < 0 {
        assert (0 - dx) * k == 0 - p;
        MulMono(0, 0 - dx, 0, k);
      } else {
        MulMono(0, dx, 0, k);
      }
    }
    FloorAway(p);
  }

  lemma FloorAway(p: int)
    ensures Abs(FloorShift(p)) * ONE <= Abs(p) + ONE
  {
  }

  /** A squared length of at most (d + 257) squared, scaled by the square of k. */
  lemma ScaledLength(n: int, d: int, k: int, s: int)
    requires 256 <= d && 0 <= s && 0 <= k <= ONE && k == s * ONE / d && 0 <= n <= (d + 257) * (d + 257)
    ensures (k * k) * n <= ((s + 257) * ONE) * ((s + 257) * ONE)
  {
    var e, m := d + 257, (s + 257) * ONE;
    assert k * e <= m by {
      assert k * d <= s * ONE;
      assert k * e == k * d + k * 257;
    }
    SquareNonNegative(k);
    MulMono(k * k, k * k, n, e * e);
    SquareOfProduct(k, e);
    MulMono(0, k, 0, e);
    MulMono(k * e, m, k * e, m);
  }

  lemma SquareOfProduct(k: int, e: int)
    ensures (k * k) * (e * e) == (k * e) * (k * e)
  {
  }

  /** Scaled by k, the exact length of the difference is at most the speed plus 257. */
  lemma ScaledDistance(dx: int, dy: int, d: int, k: int, s: int)
    requires 256 <= d && 0 <= s && 0 <= k <= ONE && k == s * ONE / d
    requires (FloorShift(dx * dx) + FloorShift(dy * dy)) * ONE < (d + 1) * (d + 1)
    ensures var p, q := Abs(dx) * k, Abs(dy) * k;
            p * p + q * q <= ((s + 257) * ONE) * ((s + 257) * ONE)
  {
    var xx, yy := dx * dx, dy * dy;
    TrueLength(xx, yy, d);
    SquareNonNegative(dx);
    SquareNonNegative(dy);
    ScaledLength(xx + yy, d, k, s);
    ProductSquare(dx, k);
    ProductSquare(dy, k);
    Distribute(k * k, xx, yy);
  }

  lemma Distribute(k: int, x: int, y: int)
    ensures k * (x + y) == k * x + k * y
  {
  }

  lemma ProductSquare(x: int, k: int)
    ensures (Abs(x) * k) * (Abs(x) * k) == (k * k) * (x * x)
  {
    AbsSquare(x);
    var a := Abs(x);
    assert (a * k) * (a * k) == (k * k) * (a * a);
  }

  lemma TrueLength(xx: int, yy: int, d: int)
    requires 256 <= d
    requires (FloorShift(xx) + FloorShift(yy)) * ONE < (d + 1) * (d + 1)
    ensures xx + yy <= (d + 257) * (d + 257)
  {
    assert (d + 1) * (d + 1) == d * d + 2 * d + 1;
    assert (d + 257) * (d + 257) == d * d + 514 * d + 66049;
  }

  lemma SumOfRounded(p: nat, q: nat, u: nat, v: nat, m: nat)
    requires u * ONE <= p + ONE && v * ONE <= q + ONE
    requires p * p + q * q <= (m * ONE) * (m * ONE)
    ensures u * u + v * v <= (m + 2) * (m + 2)
  {
    var b := m * ONE;
    TwiceSum(p, q);
    SumBelow(p + q, p * p + q * q, b);
    RoundedSquare(u, p);
    RoundedSquare(v, q);
    assert b * b == (m * m) * (ONE * ONE);
    assert (m + 2) * (m + 2) == m * m + 4 * m + 4;
  }

  lemma SumBelow(t: nat, n: int, b: nat)
    requires (2 * t) * (2 * t) <= 8 * n && n <= b * b
    ensures 2 * t <= 3 * b
  {
    SquareMono(3 * b, 2 * t);
    assert (3 * b) * (3 * b) == 9 * (b * b);
    SquareNonNegative(b);
  }

  lemma RoundedSquare(u: nat, p: nat)
    requires u * ONE <= p + ONE
    ensures (u * u) * (ONE * ONE) <= p * p + 2 * ONE * p + ONE * ONE
  {
    var w := u * ONE;
    MulMono(w, p + ONE, w, p + ONE);
    assert (p + ONE) * (p + ONE) == p * p + 2 * ONE * p + ONE * ONE;
    assert w * w == (u * u) * (ONE * ONE);
  }

  lemma TwiceSum(p: int, q: int)
    ensures (2 * (p + q)) * (2 * (p + q)) <= 8 * (p * p + q * q)
  {
    SquareNonNegative(p - q);
    assert (p - q) * (p - q) == p * p - 2 * (p * q) + q * q;
    assert (2 * (p + q)) * (2 * (p + q)) == 4 * (p * p) + 8 * (p * q) + 4 * (q * q);
  }
}
