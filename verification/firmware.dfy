/** The link with the checksums the firmware really uses, and what damage on the wire they keep away from
    the application. Whatever is said of framing and of the link for all checksums holds for these. */
module Firmware {
  import opened Bytes
  import opened Framing
  import opened Protocol
  import Crc

  /** The bit vector of value `n`. */
  function Octet(n: byte): (b: bv8)
    ensures b as int == n
    decreases n
  {
    if n == 0 then 0 else Octet(n - 1) + 1
  }

  function Octets(s: seq<byte>): (t: seq<bv8>)
    ensures |t| == |s|
    ensures forall i: nat | i < |s| :: t[i] as int == s[i]
  {
    seq(|s|, i requires 0 <= i < |s| => Octet(s[i]))
  }

  const FIRMWARE := Checksums(s => Crc.Run8(0x00, Octets(s)) as int, s => Crc.Run16(0x0000, Octets(s)) as int)

  lemma OctetsAppend(a: seq<byte>, b: seq<byte>)
    ensures Octets(a + b) == Octets(a) + Octets(b)
  {
  }

  lemma OctetsInjective(a: seq<byte>, b: seq<byte>)
    requires Octets(a) == Octets(b)
    ensures a == b
  {
    assert forall i: nat | i < |a| :: a[i] == Octets(a)[i] as int;
    assert forall i: nat | i < |b| :: b[i] == Octets(b)[i] as int;
  }

  lemma SameBits16(a: bv16, b: bv16)
    requires a as int == b as int
    ensures a == b
  {
    assert (a as int) as bv16 == a && (b as int) as bv16 == b;
  }

  lemma SameBits8(a: bv8, b: bv8)
    requires a as int == b as int
    ensures a == b
  {
    assert (a as int) as bv8 == a && (b as int) as bv8 == b;
  }

  lemma PayloadCrcChanges(head: seq<byte>, a: seq<byte>, b: seq<byte>, tail: seq<byte>)
    requires |a| == 2 && |b| == 2 && a != b
    ensures FIRMWARE.payload(head + a + tail) != FIRMWARE.payload(head + b + tail)
  {
    hide Octets, Octet, Crc.Run16;
    OctetsAppend(head + a, tail);
    OctetsAppend(head, a);
    OctetsAppend(head + b, tail);
    OctetsAppend(head, b);
    var x := Crc.Run16(0x0000, Octets(head + a + tail));
    var y := Crc.Run16(0x0000, Octets(head + b + tail));
    if x as int == y as int {
      SameBits16(x, y);
    }
    if Octets(a) == Octets(b) {
      OctetsInjective(a, b);
    }
    Crc.Crc16CatchesTwoBytes(Octets(head), Octets(a), Octets(b), Octets(tail));
  }

  lemma HeaderCrcChanges(head: seq<byte>, a: byte, b: byte, tail: seq<byte>)
    requires a != b
    ensures FIRMWARE.header(head + [a] + tail) != FIRMWARE.header(head + [b] + tail)
  {
    hide Octets, Octet, Crc.Run8;
    OctetsAppend(head + [a], tail);
    OctetsAppend(head, [a]);
    OctetsAppend(head + [b], tail);
    OctetsAppend(head, [b]);
    var x := Crc.Run8(0x00, Octets(head + [a] + tail));
    var y := Crc.Run8(0x00, Octets(head + [b] + tail));
    if x as int == y as int {
      SameBits8(x, y);
    }
    var p, q := Octets([a])[0], Octets([b])[0];
    assert p as int == [a][0] && q as int == [b][0];
    assert Octets([a]) == [p] && Octets([b]) == [q];
    Crc.Crc8CatchesOneByte(Octets(head), p, q, Octets(tail));
  }

  /** `f` with the two bytes at `at` replaced. */
  function Damaged(f: seq<byte>, at: nat, b: seq<byte>): (g: seq<byte>)
    requires |b| == 2 && at + 2 <= |f|
    ensures |g| == |f|
  {
    f[..at] + b + f[at + 2..]
  }

  lemma DamageBehindHeader(k: Checksums, f: seq<byte>, at: nat, b: seq<byte>)
    requires IsFrame(k, f) && 7 <= at && at + 2 <= |f| && |b| == 2
    ensures IsFrame(k, Damaged(f, at, b))
  {
    var g := Damaged(f, at, b);
    assert forall i: nat | i < 7 :: g[i] == f[i];
    assert g[2..6] == f[2..6];
    assert f[0..] == f && g[0..] == g;
  }

  lemma CrcFieldChanges(f: seq<byte>, b: seq<byte>)
    requires 9 <= |f| && |b| == 2 && b != f[7..9]
    ensures U16(Damaged(f, 7, b), 7) != U16(f, 7)
    ensures Payload(Damaged(f, 7, b)) == Payload(f)
  {
    var g := Damaged(f, 7, b);
    assert g[7] == b[0] && g[8] == b[1];
    assert f[7..9] == [f[7], f[8]] && b == [b[0], b[1]];
    assert g[9..] == f[9..];
  }

  lemma PayloadChanges(f: seq<byte>, at: nat, b: seq<byte>)
    requires 9 <= at && at + 2 <= |f| && |b| == 2 && b != f[at..at + 2]
    ensures U16(Damaged(f, at, b), 7) == U16(f, 7)
    ensures FIRMWARE.payload(Payload(Damaged(f, at, b))) != FIRMWARE.payload(Payload(f))
  {
    hide FIRMWARE;
    var g := Damaged(f, at, b);
    var head, tail := f[9..at], f[at + 2..];
    assert f[9..] == head + f[at..at + 2] + tail;
    assert g[9..] == head + b + tail;
    assert g[7] == f[7] && g[8] == f[8];
    PayloadCrcChanges(head, f[at..at + 2], b, tail);
  }

  lemma DamageChangesCrc(f: seq<byte>, at: nat, b: seq<byte>)
    requires 9 <= |f| && PayloadOk(FIRMWARE, f)
    requires (at == 7 || 9 <= at) && at + 2 <= |f|
    requires |b| == 2 && b != f[at..at + 2]
    ensures !PayloadOk(FIRMWARE, Damaged(f, at, b))
  {
    hide FIRMWARE, Damaged, Payload, U16;
    if at == 7 {
      CrcFieldChanges(f, b);
    } else {
      PayloadChanges(f, at, b);
    }
  }

  /** Two neighbouring bytes damaged in the CRC field or in the payload of any frame: the parser still cuts
      it, the link answers with a NACK, and nothing of it reaches the application or the duplicate filter. */
  lemma DamagedPayloadIsRefused(app: App, l: Link, f: seq<byte>, at: nat, b: seq<byte>)
    requires WellFormed(l)
    requires IsFrame(FIRMWARE, f) && 9 <= |f| && PayloadOk(FIRMWARE, f)
    requires (at == 7 || 9 <= at) && at + 2 <= |f|
    requires |b| == 2 && b != f[at..at + 2]
    ensures var g := Damaged(f, at, b);
            var m := Handles(FIRMWARE, app, l, g);
            && IsFrame(FIRMWARE, g)
            && (exists ack :: m.sent == l.sent + [ack] && IsFrame(FIRMWARE, ack)
                   && IsAck(ack) && IsNack(ack) && AckSeq(ack) == PacketSeq(f))
            && m.delivered == l.delivered
            && m.lastRxSeq == l.lastRxSeq && m.lastRxSeqValid == l.lastRxSeqValid
  {
    hide FIRMWARE, PayloadOk, EmptyFrame, Flags, Damaged, IsFrame;
    var g := Damaged(f, at, b);
    DamageBehindHeader(FIRMWARE, f, at, b);
    DamageChangesCrc(f, at, b);
    SameFlags(f, at, b);
    var flags := Flags(true, true, l.txSeq, PacketSeq(g));
    var ack := EmptyFrame(FIRMWARE, flags);
    EmptyFrameIsFrame(FIRMWARE, flags);
    EmptyFrameSize(FIRMWARE, flags);
    FlagsReadBack(ack, true, true, l.txSeq, PacketSeq(g));
    assert Handles(FIRMWARE, app, l, g).sent == l.sent + [ack];
  }

  lemma SameFlags(f: seq<byte>, at: nat, b: seq<byte>)
    requires 7 <= at && at + 2 <= |f| && |b| == 2
    ensures PacketSeq(Damaged(f, at, b)) == PacketSeq(f)
  {
    assert Damaged(f, at, b)[5] == f[5];
  }

  /** One damaged byte anywhere in the header of a frame: no parser takes a frame there any more. */
  lemma DamagedHeaderIsNoHeader(f: seq<byte>, y: seq<byte>, j: nat, b: byte)
    requires IsFrame(FIRMWARE, f) && j < HEADER_SIZE && b != f[j]
    ensures !HeaderAt(FIRMWARE, f[j := b] + y, 0)
  {
    hide FIRMWARE;
    var g := f[j := b] + y;
    assert f[0..] == f && g[0..] == g;
    assert g[j] == b;
    if j == 6 {
      assert g[2..6] == f[2..6];
    } else if 2 <= j < 6 {
      assert f[2..6] == f[2..j] + [f[j]] + f[j + 1..6];
      assert g[2..6] == f[2..j] + [b] + f[j + 1..6];
      HeaderCrcChanges(f[2..j], f[j], b, f[j + 1..6]);
    }
  }

  // ---- The two frames sent at start-up ----------------------------------------------------------

  /** The bytes app::start_int and send_boot_ready_frame hand to the transport. */
  const START_ACK: seq<byte> := [0xde, 0xad, 0x05, 0x00, 0x06, 0x01, 0x8f]
  const BOOT_READY: seq<byte> := [0xde, 0xad, 0x0e, 0x00, 0x06, 0xc0, 0x5d, 0x50, 0xd4,
                                  0x00, 0x01, 0x02, 0x00, 0xff, 0x00, 0x00]

  lemma OctetsAre(s: seq<byte>, t: seq<bv8>)
    requires |s| == |t| && forall i: nat | i < |s| :: t[i] as int == s[i]
    ensures Octets(s) == t
  {
    hide Octet;
    forall i: nat | i < |s|
      ensures Octets(s)[i] == t[i]
    {
      SameBits8(Octets(s)[i], t[i]);
    }
  }

  /** Both are complete frames with good checksums, an ACK without data and a data frame, and carry packet_seq 0,
      which no numbered frame does. */
  lemma StartUpFramesAreGood()
    ensures IsFrame(FIRMWARE, START_ACK) && |START_ACK| == HEADER_SIZE && IsAck(START_ACK) && PacketSeq(START_ACK) == 0
    ensures IsFrame(FIRMWARE, BOOT_READY) && 9 <= |BOOT_READY| && PayloadOk(FIRMWARE, BOOT_READY)
    ensures !IsAck(BOOT_READY) && PacketSeq(BOOT_READY) == 0
  {
    hide Octet, Octets, Crc.Run8, Crc.Run16;
    Crc.StartUpChecksums();
    var ack, ready, body := START_ACK[2..6], BOOT_READY[2..6], Payload(BOOT_READY);
    OctetsAre(ack, [0x05, 0x00, 0x06, 0x01]);
    OctetsAre(ready, [0x0e, 0x00, 0x06, 0xc0]);
    OctetsAre(body, [0x00, 0x01, 0x02, 0x00, 0xff, 0x00, 0x00]);
    assert START_ACK[0..] == START_ACK && BOOT_READY[0..] == BOOT_READY;
  }
}
