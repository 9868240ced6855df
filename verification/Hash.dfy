/** The canonical world hash: FNV-1a over a fixed byte layout. */
module Hash {
  import opened Words
  import opened Fixed
  import opened Vectors
  import opened Sim

  const OFFSET_BASIS: uint64 := 14695981039346656037
  const PRIME: uint64 := 1099511628211

  /** The inverse of the prime modulo 2^64; the source never computes it. */
  const PRIME_INVERSE: uint64 := 14886173955864302971

  function MixByte(h: uint64, b: uint8): uint64 {
    (Xor(h, b) * PRIME) % TWO_TO_THE_64
  }

  function Mix(h: uint64, data: Bytes): uint64
    decreases |data|
  {
    if data == [] then h else Mix(MixByte(h, data[0]), data[1..])
  }

  function UnitLayout(u: Unit): (b: Bytes)
    ensures |b| == 22
  {
    LE32(u.id) + [u.owner] + [u.state] + LE32(U32(u.hp)) + LE32(U32(u.pos.x)) + LE32(U32(u.pos.y)) + LE32(u.targetID)
  }

  function UnitsLayout(us: seq<Unit>): (b: Bytes)
    ensures |b| == 22 * |us|
  {
    if us == [] then [] else UnitsLayout(us[..|us| - 1]) + UnitLayout(us[|us| - 1])
  }

  /** Everything the hash sees of a world. */
  function Layout(w: WorldState): Bytes {
    LE32(w.tick) + LE32(U32(|w.units|)) + UnitsLayout(w.units)
  }

  function HashOf(w: WorldState): uint64 {
    Mix(OFFSET_BASIS, Layout(w))
  }

  // ----- the source's loops -----

  method FnvMix(h0: uint64, data: Bytes) returns (h: uint64)
    ensures h == Mix(h0, data)
  {
    h := h0;
    for i := 0 to |data|
      invariant Mix(h, data[i..]) == Mix(h0, data)
    {
      assert data[i..][0] == data[i] && data[i..][1..] == data[i + 1..];
      h := (Xor(h, data[i]) * PRIME) % TWO_TO_THE_64;
    }
  }

  method HashUnit(h0: uint64, u: Unit) returns (h: uint64)
    ensures h == Mix(h0, UnitLayout(u))
  {
    var buf := new uint8[22];
    PutUint32(buf, 0, u.id);
    PutByte(buf, 4, u.owner);
    PutByte(buf, 5, u.state);
    PutUint32(buf, 6, U32(u.hp));
    PutUint32(buf, 10, U32(u.pos.x));
    PutUint32(buf, 14, U32(u.pos.y));
    PutUint32(buf, 18, u.targetID);
    assert buf[..22] == UnitLayout(u);
    hide UnitLayout, Mix;
    assert buf[..] == buf[..22];
    h := FnvMix(h0, buf[..]);
  }

  method Hash(w: WorldState) returns (h: uint64)
    ensures h == HashOf(w)
  {
    h := OFFSET_BASIS;
    var buf := new uint8[8];
    PutUint32(buf, 0, w.tick);
    assert buf[..4] == LE32(w.tick);
    h := FnvMix(h, buf[..4]);
    PutUint32(buf, 0, U32(|w.units|));
    assert buf[..4] == LE32(U32(|w.units|));
    h := FnvMix(h, buf[..4]);
    MixConcat(OFFSET_BASIS, LE32(w.tick), LE32(U32(|w.units|)));
    ghost var header := h;
    for i := 0 to |w.units|
      invariant h == Mix(header, UnitsLayout(w.units[..i]))
    {
      MixNextUnit(header, w.units, i);
      h := HashUnit(h, w.units[i]);
    }
    assert w.units[..|w.units|] == w.units;
    MixConcat(OFFSET_BASIS, LE32(w.tick) + LE32(U32(|w.units|)), UnitsLayout(w.units));
  }

  lemma MixNextUnit(h: uint64, us: seq<Unit>, i: nat)
    requires i < |us|
    ensures Mix(h, UnitsLayout(us[..i + 1])) == Mix(Mix(h, UnitsLayout(us[..i])), UnitLayout(us[i]))
  {
    assert us[..i + 1][..i] == us[..i];
    MixConcat(h, UnitsLayout(us[..i]), UnitLayout(us[i]));
  }

  lemma {:induction false} MixConcat(h: uint64, a: Bytes, b: Bytes)
    ensures Mix(h, a + b) == Mix(Mix(h, a), b)
    decreases |a|
  {
    if a == [] {
      assert a + b == b;
    } else {
      var ab := a + b;
      assert ab[0] == a[0] && ab[1..] == a[1..] + b;
      MixConcat(MixByte(h, a[0]), a[1..], b);
    }
  }

  // ----- detection power -----

  lemma Pow2Of64()
    ensures Pow2(64) == TWO_TO_THE_64
  {
    Pow2Of32();
    Pow2Sum(32, 32);
  }

  lemma {:induction false} Pow2Sum(m: nat, n: nat)
    ensures Pow2(m + n) == Pow2(m) * Pow2(n)
  {
    if m > 0 {
      Pow2Sum(m - 1, n);
    }
  }

  /** Multiplication by the odd prime is injective modulo 2^64. */
  lemma TimesPrimeInjective(x: uint64, y: uint64)
    requires (x * PRIME) % TWO_TO_THE_64 == (y * PRIME) % TWO_TO_THE_64
    ensures x == y
  {
    UndoPrime(x);
    UndoPrime(y);
  }

  lemma UndoPrime(x: uint64)
    ensures ((x * PRIME) % TWO_TO_THE_64 * PRIME_INVERSE) % TWO_TO_THE_64 == x
  {
    var m := x * PRIME;
    var q, r := m / TWO_TO_THE_64, m % TWO_TO_THE_64;
    assert PRIME * PRIME_INVERSE == 887285111055 * TWO_TO_THE_64 + 1;
    assert r * PRIME_INVERSE == (887285111055 * x - q * PRIME_INVERSE) * TWO_TO_THE_64 + x;
    ModUnique(r * PRIME_INVERSE, TWO_TO_THE_64, 887285111055 * x - q * PRIME_INVERSE, x);
  }

  /** One mixing step is injective in the accumulator and in the byte. */
  lemma MixByteInjective(g: uint64, h: uint64, b: uint8, c: uint8)
    requires MixByte(g, b) == MixByte(h, c)
    ensures g == h <==> b == c
  {
    Pow2Of64();
    XorBound(g, b, 64);
    XorBound(h, c, 64);
    TimesPrimeInjective(Xor(g, b), Xor(h, c));
    XorCancels(g, b);
    XorCancels(h, c);
  }

  lemma {:induction false} MixInjective(g: uint64, h: uint64, data: Bytes)
    requires g != h
    ensures Mix(g, data) != Mix(h, data)
    decreases |data|
  {
    if data != [] {
      if MixByte(g, data[0]) == MixByte(h, data[0]) {
        MixByteInjective(g, h, data[0], data[0]);
      }
      MixInjective(MixByte(g, data[0]), MixByte(h, data[0]), data[1..]);
    }
  }

  predicate DifferAtOneByte(a: Bytes, b: Bytes, i: nat) {
    && |a| == |b| && i < |a|
    && a[..i] == b[..i] && a[i] != b[i] && a[i + 1..] == b[i + 1..]
  }

  lemma OneByteChangesMix(h: uint64, a: Bytes, b: Bytes, i: nat)
    requires DifferAtOneByte(a, b, i)
    ensures Mix(h, a) != Mix(h, b)
  {
    assert a == a[..i] + ([a[i]] + a[i + 1..]) && b == a[..i] + ([b[i]] + a[i + 1..]);
    MixConcat(h, a[..i], [a[i]] + a[i + 1..]);
    MixConcat(h, a[..i], [b[i]] + a[i + 1..]);
    var g := Mix(h, a[..i]);
    if MixByte(g, a[i]) == MixByte(g, b[i]) {
      MixByteInjective(g, g, a[i], b[i]);
    }
    MixInjective(MixByte(g, a[i]), MixByte(g, b[i]), a[i + 1..]);
  }

  /** Two worlds whose layouts differ in exactly one byte never have the same hash. */
  lemma OneByteIsDetected(w: WorldState, v: WorldState, i: nat)
    requires DifferAtOneByte(Layout(w), Layout(v), i)
    ensures HashOf(w) != HashOf(v)
  {
    OneByteChangesMix(OFFSET_BASIS, Layout(w), Layout(v), i);
  }

  /** What a layout shows of one unit. */
  predicate LooksLike(u: Unit, v: Unit) {
    u.id == v.id && u.owner == v.owner && u.state == v.state && u.hp == v.hp && u.pos == v.pos
        && u.targetID == v.targetID
  }

  lemma LE32Injective(a: uint32, b: uint32)
    requires LE32(a) == LE32(b)
    ensures a == b
  {
    assert LE32(a)[0..4] == LE32(a);
    Read32(LE32(a), 0, a);
    Read32(LE32(a), 0, b);
  }

  lemma UnitLayoutInjective(u: Unit, v: Unit)
    ensures UnitLayout(u) == UnitLayout(v) <==> LooksLike(u, v)
  {
    var a, b := UnitLayout(u), UnitLayout(v);
    if a == b {
      assert a[0..4] == LE32(u.id) && b[0..4] == LE32(v.id);
      assert a[4] == u.owner && b[4] == v.owner;
      assert a[5] == u.state && b[5] == v.state;
      assert a[6..10] == LE32(U32(u.hp)) && b[6..10] == LE32(U32(v.hp));
      assert a[10..14] == LE32(U32(u.pos.x)) && b[10..14] == LE32(U32(v.pos.x));
      assert a[14..18] == LE32(U32(u.pos.y)) && b[14..18] == LE32(U32(v.pos.y));
      assert a[18..22] == LE32(u.targetID) && b[18..22] == LE32(v.targetID);
      LE32Injective(u.id, v.id);
      LE32Injective(U32(u.hp), U32(v.hp));
      LE32Injective(U32(u.pos.x), U32(v.pos.x));
      LE32Injective(U32(u.pos.y), U32(v.pos.y));
      LE32Injective(u.targetID, v.targetID);
      SignRoundTrip(u.hp, 0);
      SignRoundTrip(v.hp, 0);
      SignRoundTrip(u.pos.x, 0);
      SignRoundTrip(v.pos.x, 0);
      SignRoundTrip(u.pos.y, 0);
      SignRoundTrip(v.pos.y, 0);
    }
  }

  lemma {:induction false} UnitsLayoutInjective(us: seq<Unit>, vs: seq<Unit>)
    ensures UnitsLayout(us) == UnitsLayout(vs) <==>
            |us| == |vs| && forall k :: 0 <= k < |us| ==> LooksLike(us[k], vs[k])
  {
    if us != [] && |us| == |vs| {
      var n := |us| - 1;
      UnitsLayoutInjective(us[..n], vs[..n]);
      UnitLayoutInjective(us[n], vs[n]);
      if UnitsLayout(us) == UnitsLayout(vs) {
        assert UnitsLayout(us)[..22 * n] == UnitsLayout(us[..n]);
        assert UnitsLayout(vs)[..22 * n] == UnitsLayout(vs[..n]);
        assert UnitsLayout(us)[22 * n..] == UnitLayout(us[n]);
        assert UnitsLayout(vs)[22 * n..] == UnitLayout(vs[n]);
      }
    }
  }

  /** The layout, and so the hash, tells two worlds apart exactly by tick, unit count and the shown fields of each unit:
      a different destination, speed, MaxHP, random state, next ID or map size alone goes unseen. */
  lemma LayoutShows(w: WorldState, v: WorldState)
    ensures Layout(w) == Layout(v) <==>
            && w.tick == v.tick
            && |w.units| == |v.units|
            && forall k :: 0 <= k < |w.units| ==> LooksLike(w.units[k], v.units[k])
  {
    UnitsLayoutInjective(w.units, v.units);
    if Layout(w) == Layout(v) {
      assert Layout(w)[..4] == LE32(w.tick) && Layout(v)[..4] == LE32(v.tick);
      LE32Injective(w.tick, v.tick);
      assert Layout(w)[8..] == UnitsLayout(w.units) && Layout(v)[8..] == UnitsLayout(v.units);
    }
  }

  // ----- published vectors -----

  lemma MixOne(h: uint64, b: uint8, rest: Bytes)
    ensures Mix(h, [b] + rest) == Mix(MixByte(h, b), rest)
  {
    assert ([b] + rest)[0] == b && ([b] + rest)[1..] == rest;
  }

  lemma VectorA()
    ensures MixByte(0xcbf2_9ce4_8422_2325, 97) == 0xaf63_dc4c_8601_ec8c
  {
    assert Xor(0x32f_ca73_9210_888c, 1) == 0x32f_ca73_9210_888d;
    assert Xor(0xcbf_29ce_4842_2232, 6) == 0xcbf_29ce_4842_2234;
    assert Xor(0x32fc_a739_2108_88c9, 24) == 0x32fc_a739_2108_88d1;
  }

  lemma VectorF()
    ensures MixByte(0xcbf2_9ce4_8422_2325, 102) == 0xaf63_db4c_8601_ead9
  {
    assert Xor(0x32f_ca73_9210_888c, 1) == 0x32f_ca73_9210_888d;
    assert Xor(0xcbf_29ce_4842_2232, 6) == 0xcbf_29ce_4842_2234;
    assert Xor(0x32fc_a739_2108_88c9, 25) == 0x32fc_a739_2108_88d0;
  }

  lemma VectorFo()
    ensures MixByte(0xaf63_db4c_8601_ead9, 111) == 0x898_5907_b541_d342
  {
    assert Xor(0x2bd_8f6d_3218_07ab, 1) == 0x2bd_8f6d_3218_07aa;
    assert Xor(0xaf6_3db4_c860_1ead, 6) == 0xaf6_3db4_c860_1eab;
    assert Xor(0x2bd8_f6d3_2180_7ab6, 27) == 0x2bd8_f6d3_2180_7aad;
  }

  lemma VectorFoo()
    ensures MixByte(0x898_5907_b541_d342, 111) == 0xdcb2_7518_fed9_d577
  {
    assert Xor(0x22_6164_1ed5_074d, 1) == 0x22_6164_1ed5_074c;
    assert Xor(0x89_8590_7b54_1d34, 6) == 0x89_8590_7b54_1d32;
    assert Xor(0x226_1641_ed50_74d0, 27) == 0x226_1641_ed50_74cb;
  }

  /** The published test vectors of 64-bit FNV-1a for the empty string, "a" and "foo". */
  lemma FnvVectors()
    ensures Mix(OFFSET_BASIS, []) == 0xcbf2_9ce4_8422_2325
    ensures Mix(OFFSET_BASIS, [97]) == 0xaf63_dc4c_8601_ec8c
    ensures Mix(OFFSET_BASIS, [102, 111, 111]) == 0xdcb2_7518_fed9_d577
  {
    VectorA();
    VectorF();
    VectorFo();
    VectorFoo();
    hide MixByte;
    MixOne(OFFSET_BASIS, 97, []);
    MixOne(OFFSET_BASIS, 102, [111, 111]);
    MixOne(0xaf63_db4c_8601_ead9, 111, [111]);
    MixOne(0x0898_5907_b541_d342, 111, []);
  }
}
