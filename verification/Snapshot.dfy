/** World snapshots: a byte printer and its parser. */
module Snapshot {
  import opened Results
  import opened Words
  import opened Records
  import opened Fixed
  import opened Vectors
  import opened Sim

  function UnitHead(u: Unit): (b: Bytes)
    ensures |b| == 18
  {
    LE32(u.id) + [u.owner] + [u.state] + LE32(U32(u.hp)) + LE32(U32(u.maxHP)) + LE32(U32(u.speed))
  }

  function UnitTail(u: Unit): (b: Bytes)
    ensures |b| == 20
  {
    LE32(U32(u.pos.x)) + LE32(U32(u.pos.y)) + LE32(u.targetID) + LE32(U32(u.moveTo.x)) + LE32(U32(u.moveTo.y))
  }

  function UnitBytes(u: Unit): (b: Bytes)
    ensures |b| == 38
  {
    UnitHead(u) + UnitTail(u)
  }

  function HeaderBytes(w: WorldState): (b: Bytes)
    ensures |b| == 36
  {
    LE32(w.tick) + LE64(w.seed) + LE64(w.rand) + LE32(w.nextID) + LE32(U32(w.mapX)) + LE32(U32(w.mapY))
    + LE32(U32(|w.units|))
  }

  function MarshalOf(w: WorldState): Bytes {
    HeaderBytes(w) + PrintAll(UnitBytes, w.units)
  }

  function UnitAt(d: Bytes, off: nat): Unit
    requires off + 38 <= |d|
  {
    Unit(Get32(d, off), d[off + 4], Vec2(I32(Get32(d, off + 18)), I32(Get32(d, off + 22))),
         I32(Get32(d, off + 6)), I32(Get32(d, off + 10)), I32(Get32(d, off + 14)),
         d[off + 5], Get32(d, off + 26), Vec2(I32(Get32(d, off + 30)), I32(Get32(d, off + 34))))
  }

  function UnitsAt(d: Bytes, off: nat, n: nat): seq<Unit>
    requires off + 38 * n <= |d|
  {
    seq(n, k requires 0 <= k < n => UnitAt(d, off + 38 * k))
  }

  function UnmarshalOf(d: Bytes): Result<WorldState> {
    if |d| < 36 then Err("snapshot too short")
    else if |d| < 36 + 38 * Get32(d, 32) then Err("snapshot truncated: not enough unit data")
    else Ok(WorldState(Get32(d, 0), Get64(d, 4), Get64(d, 12), UnitsAt(d, 36, Get32(d, 32)),
                       Get32(d, 20), I32(Get32(d, 24)), I32(Get32(d, 28))))
  }

  // ----- the source's buffer code -----

  method Marshal(w: WorldState) returns (r: Bytes)
    ensures r == MarshalOf(w)
  {
    var buf := new uint8[36 + |w.units| * 38];
    PutHeader(buf, w);
    var off := 36;
    for i := 0 to |w.units|
      invariant off == 36 + 38 * i
      invariant buf[..off] == HeaderBytes(w) + PrintAll(UnitBytes, w.units[..i])
    {
      PutUnit(buf, off, w.units[i]);
      PrintNext(UnitBytes, w.units, i);
      Assoc(HeaderBytes(w), PrintAll(UnitBytes, w.units[..i]), UnitBytes(w.units[i]));
      off := off + 38;
    }
    assert w.units[..|w.units|] == w.units;
    return buf[..off];
  }

  method PutHeader(buf: array<uint8>, w: WorldState)
    requires buf.Length >= 36
    modifies buf
    ensures buf[..36] == HeaderBytes(w)
  {
    PutUint32(buf, 0, w.tick);
    PutUint64(buf, 4, w.seed);
    PutUint64(buf, 12, w.rand);
    PutUint32(buf, 20, w.nextID);
    PutUint32(buf, 24, U32(w.mapX));
    PutUint32(buf, 28, U32(w.mapY));
    PutUint32(buf, 32, U32(|w.units|));
  }

  method PutUnit(buf: array<uint8>, off: nat, u: Unit)
    requires off + 38 <= buf.Length
    modifies buf
    ensures buf[..off + 38] == old(buf[..off]) + UnitBytes(u)
  {
    ghost var p := buf[..off];
    PutUint32(buf, off, u.id);
    ghost var b := LE32(u.id);
    PutByte(buf, off + 4, u.owner);
    b := Extend(p, b, [u.owner]);
    PutByte(buf, off + 5, u.state);
    b := Extend(p, b, [u.state]);
    PutUint32(buf, off + 6, U32(u.hp));
    b := Extend(p, b, LE32(U32(u.hp)));
    PutUint32(buf, off + 10, U32(u.maxHP));
    b := Extend(p, b, LE32(U32(u.maxHP)));
    PutUint32(buf, off + 14, U32(u.speed));
    b := Extend(p, b, LE32(U32(u.speed)));
    assert b == UnitHead(u);
    PutUnitTail(buf, off + 18, u);
    b := Extend(p, b, UnitTail(u));
  }

  method PutUnitTail(buf: array<uint8>, off: nat, u: Unit)
    requires off + 20 <= buf.Length
    modifies buf
    ensures buf[..off + 20] == old(buf[..off]) + UnitTail(u)
  {
    ghost var p := buf[..off];
    PutUint32(buf, off, U32(u.pos.x));
    ghost var b := LE32(U32(u.pos.x));
    PutUint32(buf, off + 4, U32(u.pos.y));
    b := Extend(p, b, LE32(U32(u.pos.y)));
    PutUint32(buf, off + 8, u.targetID);
    b := Extend(p, b, LE32(u.targetID));
    PutUint32(buf, off + 12, U32(u.moveTo.x));
    b := Extend(p, b, LE32(U32(u.moveTo.x)));
    PutUint32(buf, off + 16, U32(u.moveTo.y));
    b := Extend(p, b, LE32(U32(u.moveTo.y)));
  }

  method Unmarshal(d: Bytes) returns (r: Result<WorldState>)
    ensures r == UnmarshalOf(d)
  {
    if |d| < 36 {
      return Err("snapshot too short");
    }
    var unitCount: int := Get32(d, 32);
    if |d| < 36 + unitCount * 38 {
      return Err("snapshot truncated: not enough unit data");
    }
    var us: seq<Unit> := [];
    var off := 36;
    for i := 0 to unitCount
      invariant off == 36 + 38 * i
      invariant us == UnitsAt(d, 36, i)
    {
      us := us + [UnitAt(d, off)];
      off := off + 38;
    }
    return Ok(WorldState(Get32(d, 0), Get64(d, 4), Get64(d, 12), us,
                         Get32(d, 20), I32(Get32(d, 24)), I32(Get32(d, 28))));
  }

  // ----- printing and parsing are inverse -----

  lemma ReadUnitHead(d: Bytes, off: nat, u: Unit)
    requires off + 18 <= |d|
    ensures HasAt(d, off, UnitHead(u)) <==>
            && Get32(d, off) == u.id && d[off + 4] == u.owner && d[off + 5] == u.state
            && I32(Get32(d, off + 6)) == u.hp && I32(Get32(d, off + 10)) == u.maxHP
            && I32(Get32(d, off + 14)) == u.speed
  {
    ReadI32(d, off + 14, u.speed);
    ReadI32(d, off + 10, u.maxHP);
    ReadI32(d, off + 6, u.hp);
    Read8(d, off + 5, u.state);
    Read8(d, off + 4, u.owner);
    Read32(d, off, u.id);
    var b := LE32(u.id);
    b := HasExtend(d, off, b, [u.owner]);
    b := HasExtend(d, off, b, [u.state]);
    b := HasExtend(d, off, b, LE32(U32(u.hp)));
    b := HasExtend(d, off, b, LE32(U32(u.maxHP)));
    b := HasExtend(d, off, b, LE32(U32(u.speed)));
  }

  lemma ReadUnitTail(d: Bytes, off: nat, u: Unit)
    requires off + 20 <= |d|
    ensures HasAt(d, off, UnitTail(u)) <==>
            && I32(Get32(d, off)) == u.pos.x && I32(Get32(d, off + 4)) == u.pos.y && Get32(d, off + 8) == u.targetID
            && I32(Get32(d, off + 12)) == u.moveTo.x && I32(Get32(d, off + 16)) == u.moveTo.y
  {
    ReadI32(d, off + 16, u.moveTo.y);
    ReadI32(d, off + 12, u.moveTo.x);
    Read32(d, off + 8, u.targetID);
    ReadI32(d, off + 4, u.pos.y);
    ReadI32(d, off, u.pos.x);
    var b := LE32(U32(u.pos.x));
    b := HasExtend(d, off, b, LE32(U32(u.pos.y)));
    b := HasExtend(d, off, b, LE32(u.targetID));
    b := HasExtend(d, off, b, LE32(U32(u.moveTo.x)));
    b := HasExtend(d, off, b, LE32(U32(u.moveTo.y)));
  }

  lemma ReadUnit(d: Bytes, off: nat, u: Unit)
    requires off + 38 <= |d|
    ensures HasAt(d, off, UnitBytes(u)) <==> UnitAt(d, off) == u
  {
    ReadUnitHead(d, off, u);
    ReadUnitTail(d, off + 18, u);
    HasAppend(d, off, UnitHead(u), UnitTail(u));
  }

  lemma ReadUnitSlot(d: Bytes, off: nat, us: seq<Unit>, k: nat)
    requires off + 38 * |us| <= |d| && k < |us|
    ensures HasAt(d, Slot(off, 38, k), UnitBytes(us[k])) <==> UnitsAt(d, off, |us|)[k] == us[k]
  {
    ReadUnit(d, off + 38 * k, us[k]);
  }

  lemma ReadUnits(d: Bytes, off: nat, us: seq<Unit>)
    requires off + 38 * |us| <= |d|
    ensures HasAt(d, off, PrintAll(UnitBytes, us)) <==> UnitsAt(d, off, |us|) == us
  {
    var vs := UnitsAt(d, off, |us|);
    forall k | 0 <= k < |us|
      ensures HasAt(d, Slot(off, 38, k), UnitBytes(us[k])) <==> vs[k] == us[k]
    {
      ReadUnitSlot(d, off, us, k);
    }
    ReadList(d, off, 38, UnitBytes, us, vs);
  }

  lemma ReadHeader(d: Bytes, w: WorldState)
    requires |d| >= 36
    ensures HasAt(d, 0, HeaderBytes(w)) <==>
            && Get32(d, 0) == w.tick && Get64(d, 4) == w.seed && Get64(d, 12) == w.rand && Get32(d, 20) == w.nextID
            && I32(Get32(d, 24)) == w.mapX && I32(Get32(d, 28)) == w.mapY && Get32(d, 32) == U32(|w.units|)
  {
    Read32(d, 0, w.tick);
    Read64(d, 4, w.seed);
    Read64(d, 12, w.rand);
    Read32(d, 20, w.nextID);
    ReadI32(d, 24, w.mapX);
    ReadI32(d, 28, w.mapY);
    Read32(d, 32, U32(|w.units|));
    var b := LE32(w.tick);
    b := HasExtend(d, 0, b, LE64(w.seed));
    b := HasExtend(d, 0, b, LE64(w.rand));
    b := HasExtend(d, 0, b, LE32(w.nextID));
    b := HasExtend(d, 0, b, LE32(U32(w.mapX)));
    b := HasExtend(d, 0, b, LE32(U32(w.mapY)));
    b := HasExtend(d, 0, b, LE32(U32(|w.units|)));
  }

  /** Parsing a printed world gives it back, trailing bytes ignored; the unit count is printed modulo 2^32. */
  lemma RoundTrip(w: WorldState, rest: Bytes)
    ensures UnmarshalOf(MarshalOf(w) + rest) == Ok(w.(units := w.units[..U32(|w.units|)]))
    ensures |w.units| < TWO_TO_THE_32 ==> UnmarshalOf(MarshalOf(w) + rest) == Ok(w)
  {
    var d := MarshalOf(w) + rest;
    var n := U32(|w.units|);
    HasPrefix(MarshalOf(w), rest);
    HasAppend(d, 0, HeaderBytes(w), PrintAll(UnitBytes, w.units));
    ReadHeader(d, w);
    assert w.units[..n] + w.units[n..] == w.units;
    PrintConcat(UnitBytes, w.units[..n], w.units[n..]);
    HasAppend(d, 36, PrintAll(UnitBytes, w.units[..n]), PrintAll(UnitBytes, w.units[n..]));
    PrintLength(UnitBytes, w.units[..n], 38);
    ReadUnits(d, 36, w.units[..n]);
    assert n == |w.units| ==> w.units[..n] == w.units;
  }

  /** Printing a parsed world gives back the bytes it was parsed from. */
  lemma PrintParsed(d: Bytes)
    requires UnmarshalOf(d).Ok?
    ensures HasAt(d, 0, MarshalOf(UnmarshalOf(d).value))
  {
    var w := UnmarshalOf(d).value;
    ReadHeader(d, w);
    ReadUnits(d, 36, w.units);
    HasAppend(d, 0, HeaderBytes(w), PrintAll(UnitBytes, w.units));
  }
}
