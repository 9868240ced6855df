/** The game messages a running match exchanges, and their byte codec. */
module Wire {
  import opened Results
  import opened Words
  import opened Records
  import opened Vectors
  import Sim

  const MSG_CMD: uint8 := 10
  const MSG_FRAME_BUNDLE: uint8 := 11
  const MSG_HASH_ACK: uint8 := 12

  datatype Cmd = Cmd(
    tick: uint32, player: uint8, op: uint8, unitID: uint32, targetX: int32, targetY: int32, targetID: uint32)

  datatype FrameBundle = FrameBundle(tick: uint32, nCurrent: uint8, cmds: seq<Cmd>)

  datatype HashAck = HashAck(tick: uint32, hash: uint64)

  /** Messages of the other types (handshake, RTT, NPub, hints, resume) are recognised by type only. */
  datatype Message =
    | CmdMsg(cmd: Cmd)
    | FrameMsg(frame: FrameBundle)
    | HashMsg(ack: HashAck)
    | OtherMsg(msgType: uint8)

  const OTHER_TYPES: set<uint8> := {1, 2, 3, 4, 13, 14, 15, 20}

  // ----- layouts -----

  function CmdBytes(c: Cmd): (b: Bytes)
    ensures |b| == 22
  {
    LE32(c.tick) + [c.player] + [c.op] + LE32(c.unitID) + LE32(U32(c.targetX)) + LE32(U32(c.targetY)) + LE32(c.targetID)
  }

  function FrameHeader(fb: FrameBundle): (b: Bytes)
    ensures |b| == 7
  {
    LE32(fb.tick) + [fb.nCurrent] + LE16(U16(|fb.cmds|))
  }

  function FrameBytes(fb: FrameBundle): Bytes {
    FrameHeader(fb) + PrintAll(CmdBytes, fb.cmds)
  }

  function HashAckBytes(ha: HashAck): Bytes {
    LE32(ha.tick) + LE64(ha.hash)
  }

  function EncodeOf(m: Message): Bytes {
    match m
    case CmdMsg(c) => [MSG_CMD] + CmdBytes(c)
    case FrameMsg(fb) => [MSG_FRAME_BUNDLE] + FrameBytes(fb)
    case HashMsg(ha) => [MSG_HASH_ACK] + HashAckBytes(ha)
    case OtherMsg(t) => [t]
  }

  function CmdAt(d: Bytes, off: nat): Cmd
    requires off + 22 <= |d|
  {
    Cmd(Get32(d, off), d[off + 4], d[off + 5], Get32(d, off + 6),
        I32(Get32(d, off + 10)), I32(Get32(d, off + 14)), Get32(d, off + 18))
  }

  function CmdsAt(d: Bytes, off: nat, n: nat): seq<Cmd>
    requires off + 22 * n <= |d|
  {
    seq(n, k requires 0 <= k < n => CmdAt(d, off + 22 * k))
  }

  function DecodeFrameOf(d: Bytes): Result<FrameBundle> {
    if |d| < 7 then Err("framebundle too short")
    else if |d| < 7 + 22 * Get16(d, 5) then Err("framebundle cmds truncated")
    else Ok(FrameBundle(Get32(d, 0), d[4], CmdsAt(d, 7, Get16(d, 5))))
  }

  function DecodeCmdOf(d: Bytes): Result<Cmd> {
    if |d| < 22 then Err("cmd too short") else Ok(CmdAt(d, 0))
  }

  function DecodeHashAckOf(d: Bytes): Result<HashAck> {
    if |d| < 12 then Err("hashack too short") else Ok(HashAck(Get32(d, 0), Get64(d, 4)))
  }

  function DecodeOf(d: Bytes): Result<Message> {
    if |d| < 1 then Err("empty message")
    else
      var t, p := d[0], d[1..];
      if t == MSG_CMD then
        match DecodeCmdOf(p) case Ok(c) => Ok(CmdMsg(c)) case Err(e) => Err(e)
      else if t == MSG_FRAME_BUNDLE then
        match DecodeFrameOf(p) case Ok(fb) => Ok(FrameMsg(fb)) case Err(e) => Err(e)
      else if t == MSG_HASH_ACK then
        match DecodeHashAckOf(p) case Ok(ha) => Ok(HashMsg(ha)) case Err(e) => Err(e)
      else if t in OTHER_TYPES then Ok(OtherMsg(t))
      else Err("unknown message type")
  }

  // ----- the source's buffer code -----

  method EncodeCmdPayload(c: Cmd) returns (r: Bytes)
    ensures r == CmdBytes(c)
  {
    var buf := new uint8[22];
    PutUint32(buf, 0, c.tick);
    PutByte(buf, 4, c.player);
    PutByte(buf, 5, c.op);
    PutUint32(buf, 6, c.unitID);
    PutUint32(buf, 10, U32(c.targetX));
    PutUint32(buf, 14, U32(c.targetY));
    PutUint32(buf, 18, c.targetID);
    assert buf[..] == buf[..22];
    return buf[..];
  }

  method EncodeFrameBundle(fb: FrameBundle) returns (r: Bytes)
    ensures r == EncodeOf(FrameMsg(fb))
  {
    var buf := new uint8[8 + |fb.cmds| * 22];
    PutByte(buf, 0, MSG_FRAME_BUNDLE);
    PutFrameHeader(buf, fb);
    ghost var head := [MSG_FRAME_BUNDLE] + FrameHeader(fb);
    assert buf[..8] == head;
    var off := 8;
    for i := 0 to |fb.cmds|
      invariant off == 8 + 22 * i
      invariant buf[..off] == head + PrintAll(CmdBytes, fb.cmds[..i])
    {
      var payload := EncodeCmdPayload(fb.cmds[i]);
      PutBytes(buf, off, payload);
      PrintNext(CmdBytes, fb.cmds, i);
      Assoc(head, PrintAll(CmdBytes, fb.cmds[..i]), payload);
      off := off + 22;
    }
    assert fb.cmds[..|fb.cmds|] == fb.cmds;
    Assoc([MSG_FRAME_BUNDLE], FrameHeader(fb), PrintAll(CmdBytes, fb.cmds));
    return buf[..off];
  }

  method PutFrameHeader(buf: array<uint8>, fb: FrameBundle)
    requires buf.Length >= 8
    modifies buf
    ensures buf[..8] == old(buf[..1]) + FrameHeader(fb)
  {
    ghost var p := buf[..1];
    PutUint32(buf, 1, fb.tick);
    ghost var b := LE32(fb.tick);
    PutByte(buf, 5, fb.nCurrent);
    b := Extend(p, b, [fb.nCurrent]);
    PutUint16(buf, 6, U16(|fb.cmds|));
    b := Extend(p, b, LE16(U16(|fb.cmds|)));
  }

  method EncodeHashAck(ha: HashAck) returns (r: Bytes)
    ensures r == EncodeOf(HashMsg(ha))
  {
    var buf := new uint8[13];
    PutByte(buf, 0, MSG_HASH_ACK);
    assert buf[..1] == [MSG_HASH_ACK];
    PutUint32(buf, 1, ha.tick);
    PutUint64(buf, 5, ha.hash);
    Assoc([MSG_HASH_ACK], LE32(ha.tick), LE64(ha.hash));
    assert buf[..] == buf[..13];
    return buf[..];
  }

  method DecodeFrameBundle(d: Bytes) returns (r: Result<FrameBundle>)
    ensures r == DecodeFrameOf(d)
  {
    if |d| < 7 {
      return Err("framebundle too short");
    }
    var cmdCount := Get16(d, 5);
    var off := 7;
    var cmds: seq<Cmd> := [];
    for i := 0 to cmdCount as int
      invariant off == 7 + 22 * i <= |d|
      invariant cmds == CmdsAt(d, 7, i)
    {
      if off + 22 > |d| {
        return Err("framebundle cmds truncated");
      }
      cmds := cmds + [CmdAt(d, off)];
      off := off + 22;
    }
    return Ok(FrameBundle(Get32(d, 0), d[4], cmds));
  }

  // ----- printing and parsing are inverse -----

  lemma ReadCmd(d: Bytes, off: nat, c: Cmd)
    requires off + 22 <= |d|
    ensures HasAt(d, off, CmdBytes(c)) <==> CmdAt(d, off) == c
  {
    Read32(d, off + 18, c.targetID);
    ReadI32(d, off + 14, c.targetY);
    ReadI32(d, off + 10, c.targetX);
    Read32(d, off + 6, c.unitID);
    Read8(d, off + 5, c.op);
    Read8(d, off + 4, c.player);
    Read32(d, off, c.tick);
    var b := LE32(c.tick);
    b := HasExtend(d, off, b, [c.player]);
    b := HasExtend(d, off, b, [c.op]);
    b := HasExtend(d, off, b, LE32(c.unitID));
    b := HasExtend(d, off, b, LE32(U32(c.targetX)));
    b := HasExtend(d, off, b, LE32(U32(c.targetY)));
    b := HasExtend(d, off, b, LE32(c.targetID));
  }

  lemma ReadCmdSlot(d: Bytes, off: nat, cs: seq<Cmd>, k: nat)
    requires off + 22 * |cs| <= |d| && k < |cs|
    ensures HasAt(d, Slot(off, 22, k), CmdBytes(cs[k])) <==> CmdsAt(d, off, |cs|)[k] == cs[k]
  {
    ReadCmd(d, off + 22 * k, cs[k]);
  }

  lemma ReadCmds(d: Bytes, off: nat, cs: seq<Cmd>)
    requires off + 22 * |cs| <= |d|
    ensures HasAt(d, off, PrintAll(CmdBytes, cs)) <==> CmdsAt(d, off, |cs|) == cs
  {
    forall k | 0 <= k < |cs|
      ensures HasAt(d, Slot(off, 22, k), CmdBytes(cs[k])) <==> CmdsAt(d, off, |cs|)[k] == cs[k]
    {
      ReadCmdSlot(d, off, cs, k);
    }
    ReadList(d, off, 22, CmdBytes, cs, CmdsAt(d, off, |cs|));
  }

  lemma ReadFrameHeader(d: Bytes, fb: FrameBundle)
    requires |d| >= 7
    ensures HasAt(d, 0, FrameHeader(fb)) <==>
            Get32(d, 0) == fb.tick && d[4] == fb.nCurrent && Get16(d, 5) == U16(|fb.cmds|)
  {
    Read32(d, 0, fb.tick);
    Read8(d, 4, fb.nCurrent);
    Read16(d, 5, U16(|fb.cmds|));
    var b := LE32(fb.tick);
    b := HasExtend(d, 0, b, [fb.nCurrent]);
    b := HasExtend(d, 0, b, LE16(U16(|fb.cmds|)));
  }

  lemma FramePayloadRoundTrip(fb: FrameBundle, rest: Bytes)
    ensures DecodeFrameOf(FrameBytes(fb) + rest) == Ok(fb.(cmds := fb.cmds[..U16(|fb.cmds|)]))
  {
    var d := FrameBytes(fb) + rest;
    var n := U16(|fb.cmds|);
    HasPrefix(FrameBytes(fb), rest);
    HasAppend(d, 0, FrameHeader(fb), PrintAll(CmdBytes, fb.cmds));
    ReadFrameHeader(d, fb);
    assert fb.cmds[..n] + fb.cmds[n..] == fb.cmds;
    PrintConcat(CmdBytes, fb.cmds[..n], fb.cmds[n..]);
    HasAppend(d, 7, PrintAll(CmdBytes, fb.cmds[..n]), PrintAll(CmdBytes, fb.cmds[n..]));
    PrintLength(CmdBytes, fb.cmds[..n], 22);
    ReadCmds(d, 7, fb.cmds[..n]);
  }

  /** A frame decodes to itself with its first `count mod 65536` commands: exactly, if and only if it has fewer than
      65536. */
  lemma FrameRoundTrip(fb: FrameBundle, rest: Bytes)
    ensures DecodeOf(EncodeOf(FrameMsg(fb)) + rest) == Ok(FrameMsg(fb.(cmds := fb.cmds[..U16(|fb.cmds|)])))
    ensures DecodeOf(EncodeOf(FrameMsg(fb)) + rest) == Ok(FrameMsg(fb)) <==> |fb.cmds| < 0x1_0000
  {
    FramePayloadRoundTrip(fb, rest);
    StripType(MSG_FRAME_BUNDLE, FrameBytes(fb), rest);
    assert |fb.cmds| < 0x1_0000 ==> fb.cmds[..U16(|fb.cmds|)] == fb.cmds;
  }

  lemma StripType(t: uint8, p: Bytes, rest: Bytes)
    ensures var e := [t] + p + rest;
            |e| >= 1 && e[0] == t && e[1..] == p + rest
  {
  }

  lemma CmdRoundTrip(c: Cmd, rest: Bytes)
    ensures DecodeOf(EncodeOf(CmdMsg(c)) + rest) == Ok(CmdMsg(c))
  {
    var d := CmdBytes(c) + rest;
    HasPrefix(CmdBytes(c), rest);
    ReadCmd(d, 0, c);
    StripType(MSG_CMD, CmdBytes(c), rest);
  }

  lemma HashAckRoundTrip(ha: HashAck, rest: Bytes)
    ensures DecodeOf(EncodeOf(HashMsg(ha)) + rest) == Ok(HashMsg(ha))
  {
    var d := HashAckBytes(ha) + rest;
    HasPrefix(HashAckBytes(ha), rest);
    HasAppend(d, 0, LE32(ha.tick), LE64(ha.hash));
    Read32(d, 0, ha.tick);
    Read64(d, 4, ha.hash);
    StripType(MSG_HASH_ACK, HashAckBytes(ha), rest);
  }

  /** A decoded frame prints back to the bytes it came from. */
  lemma FramePrintsBack(d: Bytes)
    requires DecodeFrameOf(d).Ok?
    ensures HasAt(d, 0, FrameBytes(DecodeFrameOf(d).value))
  {
    var fb := DecodeFrameOf(d).value;
    ReadFrameHeader(d, fb);
    ReadCmds(d, 7, fb.cmds);
    HasAppend(d, 0, FrameHeader(fb), PrintAll(CmdBytes, fb.cmds));
  }

  // ----- from wire commands to simulation commands -----

  function ToSim(c: Cmd): Sim.Cmd {
    Sim.Cmd(c.player, c.op, c.unitID, Vec2(c.targetX, c.targetY), c.targetID)
  }

  function ToSimAll(cs: seq<Cmd>): seq<Sim.Cmd> {
    seq(|cs|, k requires 0 <= k < |cs| => ToSim(cs[k]))
  }

  method WireCmdsToSimCmds(cs: seq<Cmd>) returns (r: seq<Sim.Cmd>)
    ensures r == ToSimAll(cs)
  {
    r := [];
    for i := 0 to |cs|
      invariant r == ToSimAll(cs[..i])
    {
      r := r + [Sim.Cmd(cs[i].player, cs[i].op, cs[i].unitID, Vec2(cs[i].targetX, cs[i].targetY), cs[i].targetID)];
    }
    assert cs[..|cs|] == cs;
  }
}
