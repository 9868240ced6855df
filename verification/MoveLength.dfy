/** How far a unit moves in one tick: exactly when the bound by its speed holds. */
module MoveLength {
  import opened Words
  import opened Fixed
  import opened Vectors

  /** The move is at most 363 raw units longer than the speed. */
  ghost predicate WithinStep(from: Vec2, target: Vec2, s: Fix32)
    requires !Panics(from, target, s)
  {
    var r := MoveTowardOf(from, target, s);
    var sx, sy := r.x - from.x, r.y - from.y;
    sx * sx + sy * sy <= (s + 363) * (s + 363)
  }

  /** Below this the squared distance is rounded by less than two units. */
  lemma FloorLoses(x: int)
    ensures FloorShift(x) * ONE <= x <= FloorShift(x) * ONE + 65535
  {
  }

  lemma SnapLength(dx: int, dy: int, s: Fix32)
    requires SafeSpeed(s) && FloorShift(dx * dx) + FloorShift(dy * dy) <= FloorShift(s * s)
    ensures dx * dx + dy * dy <= (s + 363) * (s + 363)
  {
    FloorLoses(dx * dx);
    FloorLoses(dy * dy);
    FloorLoses(s * s);
    assert (s + 363) * (s + 363) == s * s + 726 * s + 131769;
  }

  /** As long as the squared distance does not overflow, every move stays within the bound, snapping or scaling. */
  lemma StepBound(from: Vec2, target: Vec2, s: Fix32)
    requires SafeSpeed(s) && DiffFits(target.x - from.x, target.y - from.y)
    ensures !Panics(from, target, s) && WithinStep(from, target, s)
  {
    SafeSpeedNeverPanics(from, target, s);
    if Snaps(from, target, s) {
      ExactDistSq(from, target);
      SafeSquare(s);
      SnapLength(target.x - from.x, target.y - from.y, s);
    } else {
      MoveLengthBound(from, target, s);
      MulMono(s + 259, s + 363, s + 259, s + 363);
    }
  }

  // ----- beyond the overflow -----

  lemma WrapsBy(x: int) returns (j: int)
    ensures x == I32(x) + j * 0x1_0000_0000
  {
    if -0x8000_0000 <= x < 0x8000_0000 {
      return 0;
    }
    var q, m := x / 0x1_0000_0000, x % 0x1_0000_0000;
    assert x == q * 0x1_0000_0000 + m;
    j := if m < 0x8000_0000 then q else q + 1;
  }

  lemma SumWraps(x: int, y: int) returns (j: int)
    ensures x + y == I32(I32(x) + I32(y)) + j * 0x1_0000_0000
  {
    var i := WrapsBy(x);
    var k := WrapsBy(y);
    var l := WrapsBy(I32(x) + I32(y));
    j := i + k + l;
  }

  lemma DistSqOf(from: Vec2, target: Vec2)
    requires NoWrap(from, target)
    ensures var dx, dy := target.x - from.x, target.y - from.y;
            DistSq(target, from) == I32(I32(FloorShift(dx * dx)) + I32(FloorShift(dy * dy)))
  {
    var dx, dy := target.x - from.x, target.y - from.y;
    assert VSub(target, from) == Vec2(dx, dy);
    hide I32, FloorShift;
  }

  /** The squared distance that the source computes is the true one up to multiples of 2^32. */
  lemma DistSqWraps(from: Vec2, target: Vec2) returns (j: int)
    requires NoWrap(from, target)
    ensures var dx, dy := target.x - from.x, target.y - from.y;
            FloorShift(dx * dx) + FloorShift(dy * dy) == DistSq(target, from) + j * 0x1_0000_0000
  {
    var dx, dy := target.x - from.x, target.y - from.y;
    DistSqOf(from, target);
    j := SumWraps(FloorShift(dx * dx), FloorShift(dy * dy));
    hide I32, FloorShift, DistSq;
  }

  lemma FarSnapExceeds(dx: int, dy: int, s: Fix32)
    requires 0 <= s <= 11_800_000 && FloorShift(dx * dx) + FloorShift(dy * dy) >= 0x8000_0000
    ensures dx * dx + dy * dy > (s + 363) * (s + 363)
  {
    FloorLoses(dx * dx);
    FloorLoses(dy * dy);
    MulMono(s + 363, 11_800_363, s + 363, 11_800_363);
  }

  /** The true squared distance is at least three times the square of the distance that the source divides by. */
  lemma TrueDistance(from: Vec2, target: Vec2)
    requires NoWrap(from, target) && !DiffFits(target.x - from.x, target.y - from.y) && DistSq(target, from) > 0
    ensures var dx, dy, d := target.x - from.x, target.y - from.y, SqrtOf(DistSq(target, from));
            256 <= d <= MAX_SAFE && dx * dx + dy * dy >= 3 * (d * d)
  {
    var dx, dy := target.x - from.x, target.y - from.y;
    var j := DistSqWraps(from, target);
    SqrtOfRange(DistSq(target, from));
    FloorLoses(dx * dx);
    FloorLoses(dy * dy);
    var c, d := DistSq(target, from), SqrtOf(DistSq(target, from));
    assert d * d <= c * ONE && 256 <= d;
    hide DistSq, SqrtOf, FloorShift;
    WrappedByMuch(FloorShift(dx * dx) + FloorShift(dy * dy), c, j, dx * dx + dy * dy, d * d);
  }

  lemma WrappedByMuch(n: int, c: int, j: int, nn: int, dd: int)
    requires n == c + j * 0x1_0000_0000 && n >= 0x8000_0000 && 0 < c < 0x8000_0000
    requires n * ONE <= nn && dd <= c * ONE
    ensures nn >= 3 * dd
  {
    assert j >= 1;
  }

  lemma ScaledFloor(dx: Fix32, k: Fix32)
    requires 0 <= k <= ONE
    ensures Abs(dx) * k <= (Abs(FloorShift(dx * k)) + 1) * ONE
  {
    var p := dx * k;
    assert Abs(dx) * k == Abs(p) by {
      if dx < 0 {
        assert (0 - dx) * k == 0 - p;
        MulMono(0, 0 - dx, 0, k);
      } else {
        MulMono(0, dx, 0, k);
      }
    }
    FloorNear(p);
  }

  lemma FloorNear(p: int)
    ensures Abs(p) <= (Abs(FloorShift(p)) + 1) * ONE
  {
  }

  lemma FactorTimesDistance(s: int, d: int)
    requires 1024 <= s && 0 < d <= MAX_SAFE
    ensures (s * ONE / d) * d >= (s - 182) * ONE
  {
    var k := s * ONE / d;
    assert (k + 1) * d > s * ONE;
  }

  /** The scaled true distance, squared and in raw units squared, when it is at least f times that of d. */
  lemma ScaledTrueDistance(dx: int, dy: int, d: int, k: int, s: int, f: nat)
    requires 1024 <= s && 0 <= d && 0 <= k && k * d >= (s - 182) * ONE && dx * dx + dy * dy >= f * (d * d)
    ensures var p, q, m := Abs(dx) * k, Abs(dy) * k, (s - 182) * ONE;
            p * p + q * q >= f * (m * m)
  {
    var n, m := dx * dx + dy * dy, (s - 182) * ONE;
    ProductSquare(dx, k);
    ProductSquare(dy, k);
    Distribute(k * k, dx * dx, dy * dy);
    SquareNonNegative(k);
    SquareNonNegative(d);
    MulMono(0, f, 0, d * d);
    MulMono(k * k, k * k, f * (d * d), n);
    SquareOfProduct(k, d);
    Multiple(k * k, f, d * d);
    MulMono(m, k * d, m, k * d);
    SquareNonNegative(m);
    MulMono(f, f, m * m, (k * d) * (k * d));
  }

  lemma Multiple(x: int, f: int, y: int)
    ensures x * (f * y) == f * (x * y)
  {
  }

  /** In raw units. */
  lemma RoundedUp(p: nat, q: nat, u: nat, v: nat, m: nat, f: nat)
    requires p <= (u + 1) * ONE && q <= (v + 1) * ONE && p * p + q * q >= f * ((m * ONE) * (m * ONE))
    ensures (u + 1) * (u + 1) + (v + 1) * (v + 1) >= f * (m * m)
  {
    MulMono(p, (u + 1) * ONE, p, (u + 1) * ONE);
    MulMono(q, (v + 1) * ONE, q, (v + 1) * ONE);
    SquareOfProduct(u + 1, ONE);
    SquareOfProduct(v + 1, ONE);
    SquareOfProduct(m, ONE);
    Multiple(f, m * m, ONE * ONE);
  }

  lemma LongerThanBound(u: nat, v: nat, s: int)
    requires 1024 <= s && (u + 1) * (u + 1) + (v + 1) * (v + 1) >= 3 * ((s - 182) * (s - 182))
    ensures u * u + v * v > (s + 363) * (s + 363)
  {
    var m, n := s + 363, u * u + v * v;
    assert (u + 1) * (u + 1) + (v + 1) * (v + 1) == n + 2 * (u + v) + 2;
    assert m * m == s * s + 726 * s + 131769;
    assert (s - 182) * (s - 182) == s * s - 364 * s + 33124;
    MulMono(1024, s, 1024, s);
    if n <= m * m {
      TwiceSum(u, v);
      SumBelow(u + v, n, m);
      assert n + 3 * m + 2 >= 3 * ((s - 182) * (s - 182));
      MulMono(1024, s, s, s);
    }
  }

  lemma FarScaleExceeds(from: Vec2, target: Vec2, s: Fix32)
    requires 1024 <= s <= MAX_SAFE && NoWrap(from, target) && !Snaps(from, target, s)
    requires !DiffFits(target.x - from.x, target.y - from.y)
    ensures !Panics(from, target, s) && !WithinStep(from, target, s)
  {
    var dx, dy, d := target.x - from.x, target.y - from.y, SqrtOf(DistSq(target, from));
    MoveScales(from, target, s);
    RatioAtMostOne(from, target, s);
    var k := Ratio(from, target, s);
    SafeSquare(s);
    TrueDistance(from, target);
    assert 256 <= d <= MAX_SAFE && k == s * ONE / d && 0 <= k <= ONE;
    ScaleBetween(dx, k);
    ScaleBetween(dy, k);
    hide DistSq, SqrtOf, Ratio, Snaps;
    FactorTimesDistance(s, d);
    ScaledTrueDistance(dx, dy, d, k, s, 3);
    var u, v := Abs(FloorShift(dx * k)), Abs(FloorShift(dy * k));
    ScaledFloor(dx, k);
    ScaledFloor(dy, k);
    AbsProduct(dx, k);
    AbsProduct(dy, k);
    RoundedUp(Abs(dx) * k, Abs(dy) * k, u, v, s - 182, 3);
    LongerThanBound(u, v, s);
    AbsSquare(FloorShift(dx * k));
    AbsSquare(FloorShift(dy * k));
  }

  /** For speeds from 1024 raw to just above 180.0, and a target whose coordinate differences do not wrap: a move stays
      within the bound if and only if the squared distance fits Q16.16. */
  lemma MoveLengthExact(from: Vec2, target: Vec2, s: Fix32)
    requires 1024 <= s <= 11_800_000 && NoWrap(from, target)
    ensures !Panics(from, target, s)
    ensures WithinStep(from, target, s) <==> DiffFits(target.x - from.x, target.y - from.y)
  {
    SafeSpeedNeverPanics(from, target, s);
    if DiffFits(target.x - from.x, target.y - from.y) {
      StepBound(from, target, s);
    } else if Snaps(from, target, s) {
      FarSnapExceeds(target.x - from.x, target.y - from.y, s);
    } else {
      FarScaleExceeds(from, target, s);
    }
  }

  /** From (10, 10) toward (200, 50) at the speed 0.5 of the source's units: the squared distance wraps below zero, and
      the unit is there in one tick. */
  lemma FarSnap()
    ensures var from, target, s := Vec2(10 * ONE, 10 * ONE), Vec2(200 * ONE, 50 * ONE), HALF;
            && DistSq(target, from) < 0 && Snaps(from, target, s)
            && !Panics(from, target, s) && MoveTowardOf(from, target, s) == target && !WithinStep(from, target, s)
  {
    var from, target := Vec2(10 * ONE, 10 * ONE), Vec2(200 * ONE, 50 * ONE);
    assert VSub(target, from) == Vec2(190 * ONE, 40 * ONE);
    assert Mul(190 * ONE, 190 * ONE) == (36100 - 65536) * ONE && Mul(40 * ONE, 40 * ONE) == 1600 * ONE;
    assert DistSq(target, from) == (37700 - 65536) * ONE && Mul(HALF, HALF) == 0x4000;
    assert Snaps(from, target, HALF) && MoveTowardOf(from, target, HALF) == target;
    hide DistSq, Mul, Snaps, MoveTowardOf;
    FarSnapExceeds(190 * ONE, 40 * ONE, HALF);
  }

  // ----- no shorter than the speed -----

  lemma NotShort(u: nat, v: nat, s: int)
    requires 1024 <= s && (u + 1) * (u + 1) + (v + 1) * (v + 1) >= (s - 182) * (s - 182)
    ensures u * u + v * v >= (s - 185) * (s - 185)
  {
    var e, n := s - 185, u * u + v * v;
    assert (u + 1) * (u + 1) + (v + 1) * (v + 1) == n + 2 * (u + v) + 2;
    assert (s - 182) * (s - 182) == e * e + 6 * e + 9;
    if n < e * e {
      TwiceSum(u, v);
      SumBelow(u + v, n, e);
    }
  }

  /** Where the squared distance fits, a move that does not snap is at most 185 raw units shorter than the speed. */
  lemma MoveLengthLeast(from: Vec2, target: Vec2, s: Fix32)
    requires 1024 <= s <= MAX_SAFE && DiffFits(target.x - from.x, target.y - from.y) && !Snaps(from, target, s)
    ensures !Panics(from, target, s)
    ensures var r := MoveTowardOf(from, target, s);
            var sx, sy := r.x - from.x, r.y - from.y;
            sx * sx + sy * sy >= (s - 185) * (s - 185)
  {
    var dx, dy := target.x - from.x, target.y - from.y;
    var d, k := MoveInRawUnits(from, target, s);
    FloorLoses(dx * dx);
    FloorLoses(dy * dy);
    ExactDistSq(from, target);
    SqrtRange((FloorShift(dx * dx) + FloorShift(dy * dy)) * ONE, d);
    FactorTimesDistance(s, d);
    ScaledTrueDistance(dx, dy, d, k, s, 1);
    var u, v := Abs(FloorShift(dx * k)), Abs(FloorShift(dy * k));
    ScaledFloor(dx, k);
    ScaledFloor(dy, k);
    AbsProduct(dx, k);
    AbsProduct(dy, k);
    RoundedUp(Abs(dx) * k, Abs(dy) * k, u, v, s - 182, 1);
    NotShort(u, v, s);
    AbsSquare(FloorShift(dx * k));
    AbsSquare(FloorShift(dy * k));
  }

  // ----- arrival -----

  /** True squared distance below 3 * 2^16: less than 444 raw units. */
  predicate Close(p: Vec2, q: Vec2) {
    (p.x - q.x) * (p.x - q.x) + (p.y - q.y) * (p.y - q.y) < 3 * 0x1_0000
  }

  /** Where the source takes two positions for equal, they are close if and only if the squared distance fits. */
  lemma EpsMeansClose(p: Vec2, q: Vec2)
    requires NoWrap(q, p) && DistSq(p, q) <= 1
    ensures Close(p, q) <==> DiffFits(p.x - q.x, p.y - q.y)
  {
    var dx, dy := p.x - q.x, p.y - q.y;
    FloorLoses(dx * dx);
    FloorLoses(dy * dy);
    if DiffFits(dx, dy) {
      ExactDistSq(q, p);
    }
  }
}
