/** The byte formats field by field: at which offset, how wide, and in which byte order. */
module Formats {
  import opened Words
  import opened Records
  import opened Wire
  import Packets
  import Snapshot
  import Replay
  import Hash
  import Sim

  /** Words are stored with the lowest byte first, negative ones in two's complement. */
  lemma LittleEndian()
    ensures LE16(0x0201) == [1, 2]
    ensures LE32(0x0403_0201) == [1, 2, 3, 4]
    ensures LE64(0x0807_0605_0403_0201) == [1, 2, 3, 4, 5, 6, 7, 8]
    ensures U32(-2) == 0xffff_fffe && U64(-2) == 0xffff_ffff_ffff_fffe
  {
  }

  /** The signed word at this place. */
  predicate Holds(d: Bytes, off: nat, x: int32) {
    off + 4 <= |d| && Get32(d, off) == if x < 0 then x + 0x1_0000_0000 else x
  }

  lemma SignedAt(d: Bytes, off: nat, x: int32)
    requires off + 4 <= |d|
    ensures I32(Get32(d, off)) == x <==> Holds(d, off, x)
  {
  }

  /** A command on the wire: tick, player, operation, unit, position, target. */
  lemma CommandFormat(c: Cmd)
    ensures var d := Wire.EncodeOf(CmdMsg(c));
            && |d| == 23 && d[0] == 10 && Get32(d, 1) == c.tick && d[5] == c.player && d[6] == c.op
            && Get32(d, 7) == c.unitID && Holds(d, 11, c.targetX) && Holds(d, 15, c.targetY)
            && Get32(d, 19) == c.targetID
  {
    var d := Wire.EncodeOf(CmdMsg(c));
    assert d[1..23] == CmdBytes(c);
    hide CmdBytes, Wire.EncodeOf;
    ReadCmd(d, 1, c);
    SignedAt(d, 11, c.targetX);
    SignedAt(d, 15, c.targetY);
  }

  /** A command in a recording: the same with the tick at the end. */
  lemma RecordedFormat(c: Cmd)
    ensures var d := Replay.CmdRecord(c);
            && d[0] == c.player && d[1] == c.op && Get32(d, 2) == c.unitID && Holds(d, 6, c.targetX)
            && Holds(d, 10, c.targetY) && Get32(d, 14) == c.targetID && Get32(d, 18) == c.tick
  {
    var d := Replay.CmdRecord(c);
    assert d[0..22] == d;
    hide Replay.CmdRecord;
    Replay.ReadCmdRecord(d, 0, c);
    SignedAt(d, 6, c.targetX);
    SignedAt(d, 10, c.targetY);
  }

  /** A unit in a snapshot: ID, owner, state, health, maximum health, speed, position, target, destination. */
  lemma UnitFormat(u: Sim.Unit)
    ensures var d := Snapshot.UnitBytes(u);
            && |d| == 38 && Get32(d, 0) == u.id && d[4] == u.owner && d[5] == u.state
            && Holds(d, 6, u.hp) && Holds(d, 10, u.maxHP) && Holds(d, 14, u.speed)
            && Holds(d, 18, u.pos.x) && Holds(d, 22, u.pos.y) && Get32(d, 26) == u.targetID
            && Holds(d, 30, u.moveTo.x) && Holds(d, 34, u.moveTo.y)
  {
    var d := Snapshot.UnitBytes(u);
    assert d[0..38] == d;
    hide Snapshot.UnitBytes;
    Snapshot.ReadUnit(d, 0, u);
    SignedAt(d, 6, u.hp);
    SignedAt(d, 10, u.maxHP);
    SignedAt(d, 14, u.speed);
    SignedAt(d, 18, u.pos.x);
    SignedAt(d, 22, u.pos.y);
    SignedAt(d, 30, u.moveTo.x);
    SignedAt(d, 34, u.moveTo.y);
  }

  /** What the hash sees of a unit: ID, owner, state, health, position, target. */
  lemma HashedFormat(u: Sim.Unit)
    ensures var d := Hash.UnitLayout(u);
            && |d| == 22 && Get32(d, 0) == u.id && d[4] == u.owner && d[5] == u.state && Holds(d, 6, u.hp)
            && Holds(d, 10, u.pos.x) && Holds(d, 14, u.pos.y) && Get32(d, 18) == u.targetID
  {
    var d := Hash.UnitLayout(u);
    assert d[0..4] == LE32(u.id) && d[4] == u.owner && d[5] == u.state && d[6..10] == LE32(U32(u.hp));
    assert d[10..14] == LE32(U32(u.pos.x)) && d[14..18] == LE32(U32(u.pos.y)) && d[18..22] == LE32(u.targetID);
    hide Hash.UnitLayout;
    Read32(d, 0, u.id);
    ReadI32(d, 6, u.hp);
    ReadI32(d, 10, u.pos.x);
    ReadI32(d, 14, u.pos.y);
    Read32(d, 18, u.targetID);
    SignedAt(d, 6, u.hp);
    SignedAt(d, 10, u.pos.x);
    SignedAt(d, 14, u.pos.y);
  }

  /** How the other messages, datagrams and recordings begin. */
  lemma Tags(fb: FrameBundle, ha: HashAck, p: Packets.Packet, h: Replay.Header)
    ensures Wire.EncodeOf(FrameMsg(fb))[0] == 11 && Wire.EncodeOf(HashMsg(ha))[0] == 12
    ensures Packets.EncodeOf(p)[..2] == [0x52, 0x31]
    ensures Replay.HeaderBytes(h)[..6] == [0x52, 0x50, 0x4c, 0x59, 0x31, 0]
  {
  }
}
