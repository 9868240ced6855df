/** Packets of the reliable transport and their framing as datagrams. */
module Packets {
  import opened Results
  import opened Words
  import opened Records
  import Wire

  const MAGIC_0: uint8 := 0x52
  const MAGIC_1: uint8 := 0x31

  const FLAG_ACK: uint8 := 2
  const FLAG_RELIABLE: uint8 := 8
  const FLAG_PING: uint8 := 16

  datatype Packet = Packet(
    flags: uint8, connID: uint16, seqNo: uint32, ack: uint32, ackMask: uint32, payload: Bytes)
  {
    predicate IsACK() { Bit(flags, 1) }

    predicate IsReliable() { Bit(flags, 3) }

    predicate IsPING() { Bit(flags, 4) }
  }

  /** What the flag bits say, and that each is a bit of its own. */
  lemma FlagBits()
    ensures Or(FLAG_RELIABLE, FLAG_ACK) == 10 && Or(FLAG_PING, FLAG_ACK) == 18
    ensures Bit(10, 1) && Bit(10, 3) && !Bit(10, 4)
    ensures Bit(18, 1) && !Bit(18, 3) && Bit(18, 4)
    ensures Bit(2, 1) && !Bit(2, 3) && !Bit(2, 4)
  {
  }

  function HeaderBytes(p: Packet): (b: Bytes)
    ensures |b| == 19
  {
    [MAGIC_0, MAGIC_1] + [p.flags] + LE16(p.connID) + LE32(p.seqNo) + LE32(p.ack) + LE32(p.ackMask)
    + LE16(U16(|p.payload|))
  }

  function EncodeOf(p: Packet): Bytes {
    HeaderBytes(p) + p.payload
  }

  function DecodeOf(d: Bytes): Result<Packet> {
    if |d| < 19 then Err("packet too short")
    else if d[0] != MAGIC_0 || d[1] != MAGIC_1 then Err("bad magic")
    else if Get16(d, 17) > |d| - 19 then Err("payload length exceeds packet size")
    else Ok(Packet(d[2], Get16(d, 3), Get32(d, 5), Get32(d, 9), Get32(d, 13), d[19..19 + Get16(d, 17) as int]))
  }

  method Encode(p: Packet) returns (r: Bytes)
    ensures r == EncodeOf(p)
  {
    var buf := new uint8[19 + |p.payload|];
    PutByte(buf, 0, MAGIC_0);
    PutByte(buf, 1, MAGIC_1);
    assert buf[..2] == [MAGIC_0, MAGIC_1];
    PutByte(buf, 2, p.flags);
    PutUint16(buf, 3, p.connID);
    PutUint32(buf, 5, p.seqNo);
    PutUint32(buf, 9, p.ack);
    PutUint32(buf, 13, p.ackMask);
    PutUint16(buf, 17, U16(|p.payload|));
    assert buf[..19] == HeaderBytes(p);
    PutBytes(buf, 19, p.payload);
    assert buf[..] == buf[..19 + |p.payload|];
    return buf[..];
  }

  method DecodePacket(d: Bytes) returns (r: Result<Packet>)
    ensures r == DecodeOf(d)
  {
    if |d| < 19 {
      return Err("packet too short");
    }
    if d[0] != MAGIC_0 || d[1] != MAGIC_1 {
      return Err("bad magic");
    }
    var payloadLen := Get16(d, 17);
    if payloadLen > |d| - 19 {
      return Err("payload length exceeds packet size");
    }
    var payload: Bytes := [];
    if payloadLen > 0 {
      payload := d[19..19 + payloadLen as int];
    }
    assert payloadLen == 0 ==> payload == d[19..19 + payloadLen as int];
    return Ok(Packet(d[2], Get16(d, 3), Get32(d, 5), Get32(d, 9), Get32(d, 13), payload));
  }

  lemma ReadHeader(d: Bytes, p: Packet)
    requires |d| >= 19
    ensures HasAt(d, 0, HeaderBytes(p)) <==>
            && d[0] == MAGIC_0 && d[1] == MAGIC_1 && d[2] == p.flags && Get16(d, 3) == p.connID
            && Get32(d, 5) == p.seqNo && Get32(d, 9) == p.ack && Get32(d, 13) == p.ackMask
            && Get16(d, 17) == U16(|p.payload|)
  {
    Read16(d, 17, U16(|p.payload|));
    Read32(d, 13, p.ackMask);
    Read32(d, 9, p.ack);
    Read32(d, 5, p.seqNo);
    Read16(d, 3, p.connID);
    Read8(d, 2, p.flags);
    assert HasAt(d, 0, [MAGIC_0, MAGIC_1]) <==> d[0] == MAGIC_0 && d[1] == MAGIC_1 by {
      assert d[0..2] == [d[0], d[1]];
    }
    var b: Bytes := [MAGIC_0, MAGIC_1];
    b := HasExtend(d, 0, b, [p.flags]);
    b := HasExtend(d, 0, b, LE16(p.connID));
    b := HasExtend(d, 0, b, LE32(p.seqNo));
    b := HasExtend(d, 0, b, LE32(p.ack));
    b := HasExtend(d, 0, b, LE32(p.ackMask));
    b := HasExtend(d, 0, b, LE16(U16(|p.payload|)));
  }

  /** A datagram decodes to its packet with the first `length mod 65536` payload bytes: exactly, if and only if shorter
      than that. */
  lemma PacketRoundTrip(p: Packet, rest: Bytes)
    ensures DecodeOf(EncodeOf(p) + rest) == Ok(p.(payload := p.payload[..U16(|p.payload|)]))
    ensures DecodeOf(EncodeOf(p) + rest) == Ok(p) <==> |p.payload| < 0x1_0000
  {
    var d := EncodeOf(p) + rest;
    HasPrefix(EncodeOf(p), rest);
    HasAppend(d, 0, HeaderBytes(p), p.payload);
    ReadHeader(d, p);
    var n := U16(|p.payload|);
    assert d[19..19 + n] == p.payload[..n];
    assert n == |p.payload| ==> p.payload[..n] == p.payload;
  }

  /** Whatever decodes prints back to the bytes it came from. */
  lemma PacketPrintsBack(d: Bytes)
    requires DecodeOf(d).Ok?
    ensures HasAt(d, 0, EncodeOf(DecodeOf(d).value))
  {
    var p := DecodeOf(d).value;
    ReadHeader(d, p);
    HasAppend(d, 0, HeaderBytes(p), p.payload);
  }

  /** What a peer decodes from a frame sent as one datagram. */
  function FrameThroughDatagram(fb: Wire.FrameBundle, p: Packet): Result<Wire.Message> {
    match DecodeOf(EncodeOf(p.(payload := Wire.EncodeOf(Wire.FrameMsg(fb)))))
    case Ok(q) => Wire.DecodeOf(q.payload)
    case Err(e) => Err(e)
  }

  /** The two 16-bit counts together: a frame survives if and only if it holds at most 2978 commands. */
  lemma FrameSurvivesDatagram(fb: Wire.FrameBundle, p: Packet)
    ensures FrameThroughDatagram(fb, p) == Ok(Wire.FrameMsg(fb)) <==> |fb.cmds| <= 2978
  {
    var e := Wire.EncodeOf(Wire.FrameMsg(fb));
    var q := p.(payload := e);
    PrintLength(Wire.CmdBytes, fb.cmds, 22);
    assert |e| == 8 + 22 * |fb.cmds|;
    PacketRoundTrip(q, []);
    assert EncodeOf(q) + [] == EncodeOf(q);
    if |fb.cmds| <= 2978 {
      Wire.FrameRoundTrip(fb, []);
      assert e + [] == e && e[..|e|] == e;
    } else {
      ShortFrame(e[..U16(|e|)], fb);
    }
  }

  /** A message shorter than 65536 bytes never decodes to a frame of more than 2978 commands. */
  lemma ShortFrame(d: Bytes, fb: Wire.FrameBundle)
    requires |d| < 0x1_0000 && |fb.cmds| > 2978
    ensures Wire.DecodeOf(d) != Ok(Wire.FrameMsg(fb))
  {
    if |d| >= 1 {
      var r := Wire.DecodeFrameOf(d[1..]);
      assert r.Ok? ==> |r.value.cmds| <= 2978;
    }
  }
}
