/** Binary match logs: a header with the initial snapshot, then one record per tick. */
module Replay {
  import opened Results
  import opened Words
  import opened Records
  import opened Wire

  const MAGIC: Bytes := [0x52, 0x50, 0x4C, 0x59, 0x31, 0]

  datatype Header = Header(
    protoVersion: uint16, seed: uint64, tickRate: uint16, startTS: int64, playerCount: uint8,
    mapW: int32, mapH: int32, snapshot: Bytes)

  datatype TickRecord = TickRecord(tick: uint32, cmds: seq<Cmd>, hash: uint64)

  // ----- layouts -----

  function FixedHeader(h: Header): (b: Bytes)
    ensures |b| == 39
  {
    MAGIC + LE16(h.protoVersion) + LE64(h.seed) + LE16(h.tickRate) + LE64(U64(h.startTS)) + [h.playerCount]
    + LE32(U32(h.mapW)) + LE32(U32(h.mapH)) + LE32(U32(|h.snapshot|))
  }

  function HeaderBytes(h: Header): Bytes {
    FixedHeader(h) + h.snapshot
  }

  /** The log stores the fields of a command in another order than the wire. */
  function CmdRecord(c: Cmd): (b: Bytes)
    ensures |b| == 22
  {
    [c.player] + [c.op] + LE32(c.unitID) + LE32(U32(c.targetX)) + LE32(U32(c.targetY)) + LE32(c.targetID) + LE32(c.tick)
  }

  function TickHead(tr: TickRecord): (b: Bytes)
    ensures |b| == 6
  {
    LE32(tr.tick) + LE16(U16(|tr.cmds|))
  }

  function TickBytes(tr: TickRecord): Bytes {
    TickHead(tr) + PrintAll(CmdRecord, tr.cmds) + LE64(tr.hash)
  }

  lemma TickLength(tr: TickRecord)
    ensures |TickBytes(tr)| == 14 + 22 * |tr.cmds|
  {
    PrintLength(CmdRecord, tr.cmds, 22);
  }

  // ----- parsers -----

  function UnmarshalHeaderOf(d: Bytes): Result<(Header, nat)> {
    if |d| < 39 then Err("replay: data truncated")
    else if d[..6] != MAGIC then Err("replay: invalid magic bytes")
    else
      var total := 39 + Get32(d, 35) as int;
      if |d| < total then Err("replay: data truncated")
      else Ok((Header(Get16(d, 6), Get64(d, 8), Get16(d, 16), I64(Get64(d, 18)), d[26],
                      I32(Get32(d, 27)), I32(Get32(d, 31)), d[39..total]), total))
  }

  function CmdRecordAt(d: Bytes, off: nat): Cmd
    requires off + 22 <= |d|
  {
    Cmd(Get32(d, off + 18), d[off], d[off + 1], Get32(d, off + 2),
        I32(Get32(d, off + 6)), I32(Get32(d, off + 10)), Get32(d, off + 14))
  }

  function CmdRecordsAt(d: Bytes, off: nat, n: nat): seq<Cmd>
    requires off + 22 * n <= |d|
  {
    seq(n, k requires 0 <= k < n => CmdRecordAt(d, off + 22 * k))
  }

  function UnmarshalTickOf(d: Bytes): Result<(TickRecord, nat)> {
    if |d| < 6 then Err("replay: data truncated")
    else
      var n := Get16(d, 4) as int;
      if |d| < 14 + 22 * n then Err("replay: data truncated")
      else Ok((TickRecord(Get32(d, 0), CmdRecordsAt(d, 6, n), Get64(d, 6 + 22 * n)), 14 + 22 * n))
  }

  /** All records up to the end, or up to the first one that does not parse, and whether there was such a one. */
  function ReadAllOf(d: Bytes): (seq<TickRecord>, bool)
    decreases |d|
  {
    if d == [] then ([], false)
    else
      match UnmarshalTickOf(d)
      case Err(_) => ([], true)
      case Ok((tr, n)) => var r := ReadAllOf(d[n..]); ([tr] + r.0, r.1)
  }

  // ----- the source's buffer code -----

  method MarshalHeader(h: Header) returns (r: Bytes)
    ensures r == HeaderBytes(h)
  {
    var buf := new uint8[39 + |h.snapshot|];
    PutBytes(buf, 0, MAGIC);
    assert buf[..6] == MAGIC;
    PutUint16(buf, 6, h.protoVersion);
    ghost var b := Extend([], MAGIC, LE16(h.protoVersion));
    PutUint64(buf, 8, h.seed);
    b := Extend([], b, LE64(h.seed));
    PutUint16(buf, 16, h.tickRate);
    b := Extend([], b, LE16(h.tickRate));
    PutUint64(buf, 18, U64(h.startTS));
    b := Extend([], b, LE64(U64(h.startTS)));
    PutByte(buf, 26, h.playerCount);
    b := Extend([], b, [h.playerCount]);
    PutUint32(buf, 27, U32(h.mapW));
    b := Extend([], b, LE32(U32(h.mapW)));
    PutUint32(buf, 31, U32(h.mapH));
    b := Extend([], b, LE32(U32(h.mapH)));
    PutUint32(buf, 35, U32(|h.snapshot|));
    b := Extend([], b, LE32(U32(|h.snapshot|)));
    PutBytes(buf, 39, h.snapshot);
    assert buf[..] == buf[..39 + |h.snapshot|];
    return buf[..];
  }

  method PutCmdRecord(buf: array<uint8>, off: nat, c: Cmd)
    requires off + 22 <= buf.Length
    modifies buf
    ensures buf[..off + 22] == old(buf[..off]) + CmdRecord(c)
  {
    ghost var p := buf[..off];
    PutByte(buf, off, c.player);
    ghost var b: Bytes := [c.player];
    PutByte(buf, off + 1, c.op);
    b := Extend(p, b, [c.op]);
    PutUint32(buf, off + 2, c.unitID);
    b := Extend(p, b, LE32(c.unitID));
    PutUint32(buf, off + 6, U32(c.targetX));
    b := Extend(p, b, LE32(U32(c.targetX)));
    PutUint32(buf, off + 10, U32(c.targetY));
    b := Extend(p, b, LE32(U32(c.targetY)));
    PutUint32(buf, off + 14, c.targetID);
    b := Extend(p, b, LE32(c.targetID));
    PutUint32(buf, off + 18, c.tick);
    b := Extend(p, b, LE32(c.tick));
  }

  method MarshalTick(tr: TickRecord) returns (r: Bytes)
    ensures r == TickBytes(tr)
  {
    var buf := new uint8[4 + 2 + |tr.cmds| * 22 + 8];
    PutUint32(buf, 0, tr.tick);
    PutUint16(buf, 4, U16(|tr.cmds|));
    assert buf[..6] == TickHead(tr);
    var off := 6;
    for i := 0 to |tr.cmds|
      invariant off == 6 + 22 * i
      invariant buf[..off] == TickHead(tr) + PrintAll(CmdRecord, tr.cmds[..i])
    {
      PutCmdRecord(buf, off, tr.cmds[i]);
      PrintNext(CmdRecord, tr.cmds, i);
      Assoc(TickHead(tr), PrintAll(CmdRecord, tr.cmds[..i]), CmdRecord(tr.cmds[i]));
      off := off + 22;
    }
    assert tr.cmds[..|tr.cmds|] == tr.cmds;
    PutUint64(buf, off, tr.hash);
    assert buf[..] == buf[..off + 8];
    return buf[..];
  }

  method UnmarshalHeader(d: Bytes) returns (r: Result<(Header, nat)>)
    ensures r == UnmarshalHeaderOf(d)
  {
    if |d| < 39 {
      return Err("replay: data truncated");
    }
    if d[0] != MAGIC[0] || d[1] != MAGIC[1] || d[2] != MAGIC[2]
       || d[3] != MAGIC[3] || d[4] != MAGIC[4] || d[5] != MAGIC[5] {
      return Err("replay: invalid magic bytes");
    }
    assert d[..6] == MAGIC;
    var total := 39 + Get32(d, 35) as int;
    if |d| < total {
      return Err("replay: data truncated");
    }
    return Ok((Header(Get16(d, 6), Get64(d, 8), Get16(d, 16), I64(Get64(d, 18)), d[26],
                      I32(Get32(d, 27)), I32(Get32(d, 31)), d[39..total]), total));
  }

  method UnmarshalTick(d: Bytes) returns (r: Result<(TickRecord, nat)>)
    ensures r == UnmarshalTickOf(d)
  {
    if |d| < 6 {
      return Err("replay: data truncated");
    }
    var cmdCount := Get16(d, 4) as int;
    var needed := 4 + 2 + cmdCount * 22 + 8;
    if |d| < needed {
      return Err("replay: data truncated");
    }
    var off := 6;
    var cmds: seq<Cmd> := [];
    for i := 0 to cmdCount
      invariant off == 6 + 22 * i
      invariant cmds == CmdRecordsAt(d, 6, i)
    {
      cmds := cmds + [CmdRecordAt(d, off)];
      off := off + 22;
    }
    return Ok((TickRecord(Get32(d, 0), cmds, Get64(d, off)), needed));
  }

  /** The append-only log; the caller decides whether a write to the underlying stream succeeds. */
  class Writer {
    var out: Bytes
    var written: bool

    constructor ()
      ensures out == [] && !written
    {
      out, written := [], false;
    }

    method WriteHeader(h: Header, ok: bool)
      modifies this
      ensures out == old(out) + (if ok then HeaderBytes(h) else [])
      ensures written == (old(written) || ok)
    {
      var data := MarshalHeader(h);
      if ok {
        out := out + data;
        written := true;
      }
    }

    method WriteTick(tick: uint32, cmds: seq<Cmd>, hash: uint64, ok: bool)
      modifies this`out
      ensures out == old(out) + (if ok then TickBytes(TickRecord(tick, cmds, hash)) else [])
    {
      var data := MarshalTick(TickRecord(tick, cmds, hash));
      if ok {
        out := out + data;
      }
    }
  }

  class Reader {
    const data: Bytes
    var offset: nat
    const header: Header

    ghost predicate Valid()
      reads this
    {
      offset <= |data|
    }

    constructor (data: Bytes, offset: nat, header: Header)
      requires offset <= |data|
      ensures Valid() && this.data == data && this.offset == offset && this.header == header
    {
      this.data, this.offset, this.header := data, offset, header;
    }

    /** The next record, or nothing at the end; the offset stays where a record does not parse. */
    method NextTick() returns (tr: seq<TickRecord>, failed: bool)
      requires Valid()
      modifies this
      ensures Valid()
      ensures NextIs(data[old(offset)..], tr, failed, offset - old(offset))
    {
      if offset >= |data| {
        return [], false;
      }
      var r := UnmarshalTick(data[offset..]);
      match r
      case Err(_) =>
        return [], true;
      case Ok((t, n)) =>
        offset := offset + n;
        return [t], false;
    }

    method ReadAll() returns (ticks: seq<TickRecord>, failed: bool)
      requires Valid()
      modifies this
      ensures Valid() && (ticks, failed) == ReadAllOf(data[old(offset)..])
    {
      ticks, failed := [], false;
      hide ReadAllOf, UnmarshalTickOf, NextIs;
      ghost var rest := ReadAllOf(data[offset..]);
      ghost var all := rest;
      while true
        invariant Valid() && rest == ReadAllOf(data[offset..])
        invariant all.0 == ticks + rest.0 && all.1 == rest.1
        decreases |data| - offset
      {
        ghost var d, before := data[offset..], offset;
        var tr, err := NextTick();
        NextOfAll(d, tr, err, offset - before);
        assert ticks + [] == ticks;
        if err {
          return ticks, true;
        }
        if tr == [] {
          assert rest.0 == [];
          return ticks, false;
        }
        ghost var next := ReadAllOf(d[offset - before..]);
        assert data[offset..] == d[offset - before..];
        assert ticks + (tr + next.0) == (ticks + tr) + next.0;
        ticks := ticks + tr;
        rest := next;
      }
    }
  }

  /** What NextTick reports on the rest d of the data, having advanced by n. */
  ghost predicate NextIs(d: Bytes, tr: seq<TickRecord>, failed: bool, n: int) {
    if d == [] then tr == [] && !failed && n == 0
    else match UnmarshalTickOf(d)
         case Err(_) => tr == [] && failed && n == 0
         case Ok((t, m)) => tr == [t] && !failed && n == m
  }

  lemma NextOfAll(d: Bytes, tr: seq<TickRecord>, failed: bool, n: int)
    requires NextIs(d, tr, failed, n)
    ensures tr == [] ==> ReadAllOf(d) == ([], failed)
    ensures tr != [] ==> !failed && 0 < n <= |d| && ReadAllOf(d) == (tr + ReadAllOf(d[n..]).0, ReadAllOf(d[n..]).1)
  {
  }

  method NewReader(d: Bytes) returns (r: Result<Reader>)
    ensures r.Err? <==> UnmarshalHeaderOf(d).Err?
    ensures r.Ok? ==> fresh(r.value) && r.value.Valid() && r.value.data == d
                      && Ok((r.value.header, r.value.offset)) == UnmarshalHeaderOf(d)
  {
    var h := UnmarshalHeader(d);
    match h
    case Err(e) => return Err(e);
    case Ok((hd, n)) =>
      var reader := new Reader(d, n, hd);
      return Ok(reader);
  }

  // ----- printing and parsing are inverse -----

  lemma ReadCmdRecord(d: Bytes, off: nat, c: Cmd)
    requires off + 22 <= |d|
    ensures HasAt(d, off, CmdRecord(c)) <==> CmdRecordAt(d, off) == c
  {
    Read32(d, off + 18, c.tick);
    Read32(d, off + 14, c.targetID);
    ReadI32(d, off + 10, c.targetY);
    ReadI32(d, off + 6, c.targetX);
    Read32(d, off + 2, c.unitID);
    Read8(d, off + 1, c.op);
    Read8(d, off, c.player);
    var b: Bytes := [c.player];
    b := HasExtend(d, off, b, [c.op]);
    b := HasExtend(d, off, b, LE32(c.unitID));
    b := HasExtend(d, off, b, LE32(U32(c.targetX)));
    b := HasExtend(d, off, b, LE32(U32(c.targetY)));
    b := HasExtend(d, off, b, LE32(c.targetID));
    b := HasExtend(d, off, b, LE32(c.tick));
  }

  lemma ReadCmdRecordSlot(d: Bytes, off: nat, cs: seq<Cmd>, k: nat)
    requires off + 22 * |cs| <= |d| && k < |cs|
    ensures HasAt(d, Slot(off, 22, k), CmdRecord(cs[k])) <==> CmdRecordsAt(d, off, |cs|)[k] == cs[k]
  {
    ReadCmdRecord(d, off + 22 * k, cs[k]);
  }

  lemma ReadCmdRecords(d: Bytes, off: nat, cs: seq<Cmd>)
    requires off + 22 * |cs| <= |d|
    ensures HasAt(d, off, PrintAll(CmdRecord, cs)) <==> CmdRecordsAt(d, off, |cs|) == cs
  {
    forall k | 0 <= k < |cs|
      ensures HasAt(d, Slot(off, 22, k), CmdRecord(cs[k])) <==> CmdRecordsAt(d, off, |cs|)[k] == cs[k]
    {
      ReadCmdRecordSlot(d, off, cs, k);
    }
    ReadList(d, off, 22, CmdRecord, cs, CmdRecordsAt(d, off, |cs|));
  }

  lemma ReadTickHead(d: Bytes, tr: TickRecord)
    requires |d| >= 6
    ensures HasAt(d, 0, TickHead(tr)) <==> Get32(d, 0) == tr.tick && Get16(d, 4) == U16(|tr.cmds|)
  {
    Read32(d, 0, tr.tick);
    Read16(d, 4, U16(|tr.cmds|));
    HasAppend(d, 0, LE32(tr.tick), LE16(U16(|tr.cmds|)));
  }

  /** Records of fewer than 65536 commands, whose count fits its field. */
  predicate Recordable(tr: TickRecord) {
    |tr.cmds| < 0x1_0000
  }

  /** A record reads back, with its length, if and only if it has fewer than 65536 commands. */
  lemma TickRoundTrip(tr: TickRecord, rest: Bytes)
    ensures UnmarshalTickOf(TickBytes(tr) + rest) == Ok((tr, |TickBytes(tr)|)) <==> Recordable(tr)
  {
    if Recordable(tr) {
      HasPrefix(TickBytes(tr), rest);
      ReadTick(TickBytes(tr) + rest, tr);
    }
  }

  lemma ReadTick(d: Bytes, tr: TickRecord)
    requires Recordable(tr) && HasAt(d, 0, TickBytes(tr))
    ensures UnmarshalTickOf(d) == Ok((tr, |TickBytes(tr)|))
  {
    var head, body := TickHead(tr), PrintAll(CmdRecord, tr.cmds);
    var n := |tr.cmds|;
    TickLength(tr);
    PrintLength(CmdRecord, tr.cmds, 22);
    HasAppend(d, 0, head + body, LE64(tr.hash));
    HasAppend(d, 0, head, body);
    ReadTickHead(d, tr);
    assert CmdRecordsAt(d, 6, n) == tr.cmds by {
      ReadCmdRecords(d, 6, tr.cmds);
    }
    assert Get64(d, 6 + 22 * n) == tr.hash by {
      Read64(d, 6 + 22 * n, tr.hash);
    }
  }

  /** A record cut short never parses. */
  lemma TickCut(tr: TickRecord, k: nat)
    requires Recordable(tr) && k < |TickBytes(tr)|
    ensures UnmarshalTickOf(TickBytes(tr)[..k]).Err?
  {
    TickLength(tr);
    if k >= 6 {
      var d := TickBytes(tr)[..k];
      assert d[0..6] == TickHead(tr);
      ReadTickHead(d, tr);
    }
  }

  function StreamBytes(trs: seq<TickRecord>): Bytes {
    if trs == [] then [] else TickBytes(trs[0]) + StreamBytes(trs[1..])
  }

  /** How many of the records lie wholly within the first k bytes. */
  function Whole(trs: seq<TickRecord>, k: nat): (j: nat)
    ensures j <= |trs|
  {
    if trs == [] || k < |TickBytes(trs[0])| then 0
    else 1 + Whole(trs[1..], k - |TickBytes(trs[0])|)
  }

  lemma {:induction false} WholeIsLargest(trs: seq<TickRecord>, k: nat)
    requires k <= |StreamBytes(trs)|
    ensures var j := Whole(trs, k);
            && |StreamBytes(trs[..j])| <= k
            && (j < |trs| ==> k < |StreamBytes(trs[..j + 1])|)
  {
    hide TickBytes;
    if trs != [] {
      var j := Whole(trs, k);
      if k < |TickBytes(trs[0])| {
        PrefixStep(trs, 1);
      } else {
        WholeIsLargest(trs[1..], k - |TickBytes(trs[0])|);
        PrefixStep(trs, j);
        if j < |trs| {
          PrefixStep(trs, j + 1);
        }
      }
    }
  }

  /** A log cut after any number of bytes reads back exactly the records wholly contained, with an error if and only if
      the cut is inside a record. */
  lemma {:induction false} CutLog(trs: seq<TickRecord>, k: nat)
    requires (forall i :: 0 <= i < |trs| ==> Recordable(trs[i])) && k <= |StreamBytes(trs)|
    ensures var j := Whole(trs, k);
            ReadAllOf(StreamBytes(trs)[..k]) == (trs[..j], k != |StreamBytes(trs[..j])|)
  {
    if trs != [] {
      var first, rest := TickBytes(trs[0]), StreamBytes(trs[1..]);
      TickLength(trs[0]);
      if k < |first| {
        assert StreamBytes(trs)[..k] == first[..k];
        if k > 0 {
          TickCut(trs[0], k);
        }
      } else {
        var m := k - |first|;
        assert StreamBytes(trs)[..k] == first + rest[..m];
        hide TickBytes, UnmarshalTickOf, ReadAllOf;
        ReadOne(trs[0], rest[..m]);
        CutLog(trs[1..], m);
        PrefixStep(trs, Whole(trs, k));
      }
    }
  }

  lemma ReadOne(tr: TickRecord, rest: Bytes)
    requires Recordable(tr)
    ensures ReadAllOf(TickBytes(tr) + rest) == ([tr] + ReadAllOf(rest).0, ReadAllOf(rest).1)
  {
    TickLength(tr);
    TickRoundTrip(tr, rest);
    assert (TickBytes(tr) + rest)[|TickBytes(tr)|..] == rest;
  }

  lemma PrefixStep(trs: seq<TickRecord>, j: nat)
    requires 1 <= j <= |trs|
    ensures trs[..j] == [trs[0]] + trs[1..][..j - 1]
    ensures StreamBytes(trs[..j]) == TickBytes(trs[0]) + StreamBytes(trs[1..][..j - 1])
  {
    assert trs[..j][1..] == trs[1..][..j - 1];
  }

  lemma ReadFixedHeader(d: Bytes, h: Header)
    requires |d| >= 39
    ensures HasAt(d, 0, FixedHeader(h)) <==>
            && d[..6] == MAGIC && Get16(d, 6) == h.protoVersion && Get64(d, 8) == h.seed && Get16(d, 16) == h.tickRate
            && I64(Get64(d, 18)) == h.startTS && d[26] == h.playerCount && I32(Get32(d, 27)) == h.mapW
            && I32(Get32(d, 31)) == h.mapH && Get32(d, 35) == U32(|h.snapshot|)
  {
    Read32(d, 35, U32(|h.snapshot|));
    ReadI32(d, 31, h.mapH);
    ReadI32(d, 27, h.mapW);
    Read8(d, 26, h.playerCount);
    ReadI64(d, 18, h.startTS);
    Read16(d, 16, h.tickRate);
    Read64(d, 8, h.seed);
    Read16(d, 6, h.protoVersion);
    assert HasAt(d, 0, MAGIC) <==> d[..6] == MAGIC;
    var b := MAGIC;
    b := HasExtend(d, 0, b, LE16(h.protoVersion));
    b := HasExtend(d, 0, b, LE64(h.seed));
    b := HasExtend(d, 0, b, LE16(h.tickRate));
    b := HasExtend(d, 0, b, LE64(U64(h.startTS)));
    b := HasExtend(d, 0, b, [h.playerCount]);
    b := HasExtend(d, 0, b, LE32(U32(h.mapW)));
    b := HasExtend(d, 0, b, LE32(U32(h.mapH)));
    b := HasExtend(d, 0, b, LE32(U32(|h.snapshot|)));
  }

  lemma HeaderRoundTrip(h: Header, rest: Bytes)
    requires |h.snapshot| < TWO_TO_THE_32
    ensures UnmarshalHeaderOf(HeaderBytes(h) + rest) == Ok((h, |HeaderBytes(h)|))
  {
    var d := HeaderBytes(h) + rest;
    HasPrefix(HeaderBytes(h), rest);
    HasAppend(d, 0, FixedHeader(h), h.snapshot);
    ReadFixedHeader(d, h);
  }

  /** A log cut inside its header does not open. */
  lemma HeaderCut(h: Header, k: nat)
    requires |h.snapshot| < TWO_TO_THE_32 && k < |HeaderBytes(h)|
    ensures UnmarshalHeaderOf(HeaderBytes(h)[..k]).Err?
  {
    var d := HeaderBytes(h)[..k];
    if k >= 39 {
      assert d[0..39] == FixedHeader(h);
      ReadFixedHeader(d, h);
    }
  }

  /** A recorded log reads back as its header and all its records. */
  lemma LogRoundTrip(h: Header, trs: seq<TickRecord>)
    requires |h.snapshot| < TWO_TO_THE_32 && forall i :: 0 <= i < |trs| ==> Recordable(trs[i])
    ensures var d := HeaderBytes(h) + StreamBytes(trs);
            && UnmarshalHeaderOf(d) == Ok((h, |HeaderBytes(h)|))
            && ReadAllOf(d[|HeaderBytes(h)|..]) == (trs, false)
  {
    var s := StreamBytes(trs);
    HeaderRoundTrip(h, s);
    ReadWhole(trs);
    assert (HeaderBytes(h) + s)[|HeaderBytes(h)|..] == s;
  }

  lemma ReadWhole(trs: seq<TickRecord>)
    requires forall i :: 0 <= i < |trs| ==> Recordable(trs[i])
    ensures ReadAllOf(StreamBytes(trs)) == (trs, false)
  {
    var s := StreamBytes(trs);
    hide StreamBytes, ReadAllOf, Whole, TickBytes, Recordable;
    CutLog(trs, |s|);
    WholeOfAll(trs);
    assert s[..|s|] == s && trs[..|trs|] == trs;
  }

  lemma {:induction false} WholeOfAll(trs: seq<TickRecord>)
    ensures Whole(trs, |StreamBytes(trs)|) == |trs|
  {
    if trs != [] {
      WholeOfAll(trs[1..]);
    }
  }

  lemma {:induction false} StreamAppend(trs: seq<TickRecord>, tr: TickRecord)
    ensures StreamBytes(trs + [tr]) == StreamBytes(trs) + TickBytes(tr)
  {
    if trs == [] {
      assert trs + [tr] == [tr] && [tr][1..] == [];
    } else {
      assert (trs + [tr])[1..] == trs[1..] + [tr];
      StreamAppend(trs[1..], tr);
      Assoc(TickBytes(trs[0]), StreamBytes(trs[1..]), TickBytes(tr));
    }
  }
}
