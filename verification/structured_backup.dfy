/** The structured backup image (main/backup_structured.h): its emitter in main/commands_impl.h, the firmware's
    replay loop in main/zb_ncp.cpp and the page's parser in html/zboss_backup.js. */
module StructuredBackup {
  import opened Bytes
  import opened Collections

  const TAG_PAN_ID: byte := 0x01
  const TAG_EXT_PAN_ID: byte := 0x02
  const TAG_CHANNEL: byte := 0x03
  const TAG_NWK_UPDATE_ID: byte := 0x04
  const TAG_COORD_IEEE: byte := 0x05
  const TAG_NWK_KEY: byte := 0x06
  const TAG_NWK_KEY_SEQ: byte := 0x07
  const TAG_NWK_FRAME_COUNTER: byte := 0x08
  const TAG_DEVICE_TABLE: byte := 0x10

  const MAGIC: seq<byte> := [0x5a, 0x42, 0x53, 0x42]
  const VERSION: byte := 1
  const MAX_DEVICES := 64
  const MAX_IMAGE_SIZE := 8 + 80 + 3 + MAX_DEVICES * 16 + 16

  // ---- Records on the wire ----------------------------------------------------------------------

  datatype Tlv = Tlv(tag: byte, value: seq<byte>)

  predicate Encodable(t: Tlv) {
    |t.value| < 0x1_0000
  }

  function Encode(t: Tlv): (s: seq<byte>)
    requires Encodable(t)
    ensures |s| == 3 + |t.value|
  {
    [t.tag] + Le16(|t.value|) + t.value
  }

  function EncodeAll(ts: seq<Tlv>): (s: seq<byte>)
    requires forall i: nat | i < |ts| :: Encodable(ts[i])
  {
    if ts == [] then [] else Encode(ts[0]) + EncodeAll(ts[1..])
  }

  /** The well-formed records at the front: reading stops at the first that runs past the end. */
  function Records(s: seq<byte>): (ts: seq<Tlv>)
    decreases |s|
  {
    if |s| < 3 then
      []
    else
      var len := U16(s, 1);
      if 3 + len > |s| then [] else [Tlv(s[0], s[3..3 + len])] + Records(s[3 + len..])
  }

  /** The page's reading, which shortens a record that runs past the end instead of stopping before it. */
  function LooseRecords(s: seq<byte>): (ts: seq<Tlv>)
    decreases |s|
  {
    if |s| < 3 then
      []
    else
      var n := if 3 + U16(s, 1) < |s| then 3 + U16(s, 1) else |s|;
      [Tlv(s[0], s[3..n])] + LooseRecords(s[n..])
  }

  lemma FirstRecord(t: Tlv, rest: seq<byte>)
    requires Encodable(t)
    ensures var s := Encode(t) + rest;
            && s[0] == t.tag && U16(s, 1) == |t.value| && s[3..3 + |t.value|] == t.value && s[3 + |t.value|..] == rest
  {
    hide U16;
    var s := Encode(t) + rest;
    assert s == [t.tag] + Le16(|t.value|) + (t.value + rest);
    U16OfLe16([t.tag], |t.value|, t.value + rest);
  }

  /** Both readings give back the records that were encoded. */
  lemma {:induction false} RecordsOfEncoded(ts: seq<Tlv>)
    requires forall i: nat | i < |ts| :: Encodable(ts[i])
    ensures Records(EncodeAll(ts)) == ts
    ensures LooseRecords(EncodeAll(ts)) == ts
  {
    hide Encode, U16;
    if ts != [] {
      FirstRecord(ts[0], EncodeAll(ts[1..]));
      RecordsOfEncoded(ts[1..]);
    }
  }

  /** On arbitrary bytes the page sees the firmware's records and at most one more, a shortened one. */
  lemma {:induction false} PageSeesAtMostOneMore(s: seq<byte>)
    ensures Records(s) <= LooseRecords(s)
    ensures |LooseRecords(s)| <= |Records(s)| + 1
    decreases |s|
  {
    hide U16;
    if |s| >= 3 && 3 + U16(s, 1) <= |s| {
      PageSeesAtMostOneMore(s[3 + U16(s, 1)..]);
    }
  }

  // ---- The firmware's replay --------------------------------------------------------------------

  /** What the setters have been called with last. */
  datatype Settings = Settings(pan: Option<seq<byte>>, extPan: Option<seq<byte>>, channel: Option<seq<byte>>,
                               updateId: Option<seq<byte>>, ieee: Option<seq<byte>>, key: Option<seq<byte>>,
                               frameCounter: Option<seq<byte>>)

  const UNSET := Settings(None, None, None, None, None, None, None)

  predicate ChannelOk(v: seq<byte>) {
    |v| == 1 && 11 <= v[0] <= 26
  }

  /** One turn of the switch: a record of the wrong length, a channel out of range and an unknown tag are skipped. */
  function Apply(s: Settings, t: Tlv): Settings {
    if t.tag == TAG_PAN_ID then (if |t.value| == 2 then s.(pan := Some(t.value)) else s)
    else if t.tag == TAG_EXT_PAN_ID then (if |t.value| == 8 then s.(extPan := Some(t.value)) else s)
    else if t.tag == TAG_CHANNEL then (if ChannelOk(t.value) then s.(channel := Some(t.value)) else s)
    else if t.tag == TAG_NWK_UPDATE_ID then (if |t.value| == 1 then s.(updateId := Some(t.value)) else s)
    else if t.tag == TAG_COORD_IEEE then (if |t.value| == 8 then s.(ieee := Some(t.value)) else s)
    else if t.tag == TAG_NWK_KEY then (if |t.value| == 16 then s.(key := Some(t.value)) else s)
    else if t.tag == TAG_NWK_FRAME_COUNTER then (if |t.value| == 4 then s.(frameCounter := Some(t.value)) else s)
    else s
  }

  function ApplyAll(s: Settings, ts: seq<Tlv>): Settings
    decreases |ts|
  {
    if ts == [] then s else ApplyAll(Apply(s, ts[0]), ts[1..])
  }

  /** The value of the last record with this tag that is acceptable. */
  function Last(ts: seq<Tlv>, tag: byte, ok: seq<byte> -> bool): Option<seq<byte>> {
    if ts == [] then
      None
    else
      var n := |ts| - 1;
      if ts[n].tag == tag && ok(ts[n].value) then Some(ts[n].value) else Last(ts[..n], tag, ok)
  }

  predicate LastAt(ts: seq<Tlv>, tag: byte, ok: seq<byte> -> bool, i: nat) {
    && i < |ts| && ts[i].tag == tag && ok(ts[i].value)
    && forall j: nat | i < j < |ts| :: !(ts[j].tag == tag && ok(ts[j].value))
  }

  lemma {:induction false} LastIsLast(ts: seq<Tlv>, tag: byte, ok: seq<byte> -> bool)
    ensures Last(ts, tag, ok).None? <==> forall i: nat | i < |ts| :: !(ts[i].tag == tag && ok(ts[i].value))
    ensures Last(ts, tag, ok).Some? ==>
              exists i: nat :: LastAt(ts, tag, ok, i) && ts[i].value == Last(ts, tag, ok).value
  {
    if ts != [] {
      var n := |ts| - 1;
      LastIsLast(ts[..n], tag, ok);
      if ts[n].tag == tag && ok(ts[n].value) {
        assert LastAt(ts, tag, ok, n);
      } else if Last(ts[..n], tag, ok).Some? {
        var i: nat :| LastAt(ts[..n], tag, ok, i) && ts[..n][i].value == Last(ts[..n], tag, ok).value;
        assert LastAt(ts, tag, ok, i);
      }
    }
  }

  lemma LastStep(ts: seq<Tlv>, t: Tlv, tag: byte, ok: seq<byte> -> bool)
    ensures Last(ts + [t], tag, ok) == if t.tag == tag && ok(t.value) then Some(t.value) else Last(ts, tag, ok)
    ensures Last([], tag, ok) == None
  {
    assert (ts + [t])[..|ts|] == ts;
  }

  function Length(n: nat): seq<byte> -> bool {
    (v: seq<byte>) => |v| == n
  }

  lemma {:induction false} ApplyLast(s: Settings, ts: seq<Tlv>, t: Tlv)
    ensures ApplyAll(s, ts + [t]) == Apply(ApplyAll(s, ts), t)
    decreases |ts|
  {
    hide Apply;
    if ts == [] {
      assert ts + [t] == [t] && [t][1..] == [];
    } else {
      assert (ts + [t])[1..] == ts[1..] + [t];
      ApplyLast(Apply(s, ts[0]), ts[1..], t);
    }
  }

  predicate LastWins(s: Settings, ts: seq<Tlv>) {
    && s.pan == Last(ts, TAG_PAN_ID, Length(2))
    && s.extPan == Last(ts, TAG_EXT_PAN_ID, Length(8))
    && s.channel == Last(ts, TAG_CHANNEL, ChannelOk)
    && s.updateId == Last(ts, TAG_NWK_UPDATE_ID, Length(1))
    && s.ieee == Last(ts, TAG_COORD_IEEE, Length(8))
    && s.key == Last(ts, TAG_NWK_KEY, Length(16))
    && s.frameCounter == Last(ts, TAG_NWK_FRAME_COUNTER, Length(4))
  }

  lemma OneMoreWins(s: Settings, ts: seq<Tlv>, t: Tlv)
    requires LastWins(s, ts)
    ensures LastWins(Apply(s, t), ts + [t])
  {
    hide Last;
    LastStep(ts, t, TAG_PAN_ID, Length(2));
    LastStep(ts, t, TAG_EXT_PAN_ID, Length(8));
    LastStep(ts, t, TAG_CHANNEL, ChannelOk);
    LastStep(ts, t, TAG_NWK_UPDATE_ID, Length(1));
    LastStep(ts, t, TAG_COORD_IEEE, Length(8));
    LastStep(ts, t, TAG_NWK_KEY, Length(16));
    LastStep(ts, t, TAG_NWK_FRAME_COUNTER, Length(4));
  }

  /** Replaying is, field by field, taking the last acceptable record. */
  lemma {:induction false} ReplayIsLastWins(ts: seq<Tlv>)
    ensures LastWins(ApplyAll(UNSET, ts), ts)
  {
    hide Apply;
    if ts != [] {
      hide LastWins;
      var n := |ts| - 1;
      ReplayIsLastWins(ts[..n]);
      ApplyLast(UNSET, ts[..n], ts[n]);
      OneMoreWins(ApplyAll(UNSET, ts[..n]), ts[..n], ts[n]);
      assert ts[..n] + [ts[n]] == ts;
    }
  }

  /** The header test of RESTORE_STRUCTURED_BACKUP and of apply_pending_restore. */
  predicate Accepted(buf: seq<byte>) {
    && 8 <= |buf| && buf[..4] == MAGIC && buf[4] == VERSION && 8 + U16(buf, 6) <= |buf|
  }

  /** Of an accepted image nothing is accepted any more once a byte of the magic or the version differs; cut to `n`
      bytes it is accepted if and only if all that its header announces is left. */
  lemma HeaderGuards(buf: seq<byte>, i: nat, b: byte, n: nat)
    requires Accepted(buf) && i < 5 && b != buf[i] && n <= |buf|
    ensures !Accepted(buf[i := b])
    ensures Accepted(buf[..n]) <==> 8 + (buf[6] as nat) + 0x100 * (buf[7] as nat) <= n
  {
    if i < 4 {
      assert buf[i := b][..4][i] == b && buf[..4][i] == buf[i];
    }
    if 8 <= n {
      assert buf[..n][..4] == buf[..4];
    }
  }

  function Payload(buf: seq<byte>): seq<byte>
    requires Accepted(buf)
  {
    buf[8..8 + U16(buf, 6)]
  }

  /** apply_pending_restore: None for an image that is not accepted. The pointer stays inside the payload. */
  method ApplyPendingRestore(buf: seq<byte>) returns (r: Option<Settings>)
    ensures r == if Accepted(buf) then Some(ApplyAll(UNSET, Records(Payload(buf)))) else None
  {
    hide Apply, U16, Replay, ApplyAll, Records;
    if |buf| < 8 || buf[..4] != MAGIC || buf[4] != VERSION || 8 + U16(buf, 6) > |buf| {
      return None;
    }
    var s := UNSET;
    var p: nat := 8;
    var end := 8 + U16(buf, 6);
    ReplayWhole(buf);
    while p + 3 <= end
      invariant 8 <= p <= end <= |buf|
      invariant Replay(s, buf, p, end) == Replay(UNSET, buf, 8, end)
    {
      ReplayStep(s, buf, p, end);
      var tag := buf[p];
      var len := U16(buf, p + 1);
      p := p + 3;
      if p + len > end {
        return Some(s);
      }
      s := Apply(s, Tlv(tag, buf[p..p + len]));
      p := p + len;
    }
    ReplayEnd(s, buf, p, end);
    return Some(s);
  }

  /** Replaying what lies between two positions of the image. */
  function Replay(s: Settings, buf: seq<byte>, p: nat, end: nat): Settings
    requires p <= end <= |buf|
  {
    ApplyAll(s, Records(buf[p..end]))
  }

  lemma ReplayWhole(buf: seq<byte>)
    requires Accepted(buf)
    ensures Replay(UNSET, buf, 8, 8 + U16(buf, 6)) == ApplyAll(UNSET, Records(Payload(buf)))
  {
  }

  lemma ReplayEnd(s: Settings, buf: seq<byte>, p: nat, end: nat)
    requires p <= end <= |buf| && end - p < 3
    ensures Replay(s, buf, p, end) == s
  {
  }

  /** One record of the replay. */
  lemma ReplayStep(s: Settings, buf: seq<byte>, p: nat, end: nat)
    requires p + 3 <= end <= |buf|
    ensures var len := U16(buf, p + 1);
            Replay(s, buf, p, end)
              == if p + 3 + len > end then s
                 else Replay(Apply(s, Tlv(buf[p], buf[p + 3..p + 3 + len])), buf, p + 3 + len, end)
  {
    hide Apply, U16;
    var rest := buf[p..end];
    SameField(buf, p, end);
    var len := U16(rest, 1);
    if 3 + len <= |rest| {
      SliceOfSlice(buf, p, end, 3, 3 + len);
      SliceOfSlice(buf, p, end, 3 + len, |rest|);
      var t := Tlv(rest[0], rest[3..3 + len]);
      ApplyAllCons(s, t, Records(rest[3 + len..]));
      assert Records(rest) == [t] + Records(rest[3 + len..]);
    }
  }

  lemma ApplyAllCons(s: Settings, t: Tlv, ts: seq<Tlv>)
    ensures ApplyAll(s, [t] + ts) == ApplyAll(Apply(s, t), ts)
  {
    hide Apply;
    assert ([t] + ts)[1..] == ts;
  }

  lemma SameField(buf: seq<byte>, p: nat, end: nat)
    requires p + 3 <= end <= |buf|
    ensures U16(buf, p + 1) == U16(buf[p..end], 1)
  {
  }

  // ---- The emitter ------------------------------------------------------------------------------

  datatype Neighbour = Neighbour(ieee: seq<byte>, shortAddr: word, rxOnWhenIdle: byte, relationship: byte,
                                 deviceType: byte, depth: byte, lqi: byte)

  /** What the getters of a coordinator return. */
  datatype Identity = Identity(pan: word, extPan: seq<byte>, channel: byte, updateId: byte, ieee: seq<byte>,
                               key: Option<seq<byte>>, frameCounter: nat)

  predicate WellFormed(id: Identity) {
    |id.extPan| == 8 && |id.ieee| == 8 && (id.key.Some? ==> |id.key.value| == 16) && id.frameCounter < 0x1_0000_0000
  }

  predicate Neighbours(ns: seq<Neighbour>) {
    forall i: nat | i < |ns| :: |ns[i].ieee| == 8
  }

  function DeviceRecord(n: Neighbour): (s: seq<byte>)
    ensures |s| == |n.ieee| + 8
  {
    n.ieee + Le16(n.shortAddr) + [n.rxOnWhenIdle, n.relationship, n.deviceType, n.depth, n.lqi, 0]
  }

  function DeviceTable(ns: seq<Neighbour>): (s: seq<byte>)
    requires Neighbours(ns)
    ensures |s| == 16 * |ns|
  {
    if ns == [] then [] else DeviceTable(ns[..|ns| - 1]) + DeviceRecord(ns[|ns| - 1])
  }

  /** A device of the table byte by byte. */
  predicate DeviceAt(s: seq<byte>, at: nat, n: Neighbour) {
    && at + 16 <= |s| && s[at..at + 8] == n.ieee
    && s[at + 8] as nat + 0x100 * (s[at + 9] as nat) == n.shortAddr
    && s[at + 10] == n.rxOnWhenIdle && s[at + 11] == n.relationship && s[at + 12] == n.deviceType
    && s[at + 13] == n.depth && s[at + 14] == n.lqi && s[at + 15] == 0
  }

  /** Every field of every device, in its place. */
  lemma {:induction false} DevicesOnBytes(ns: seq<Neighbour>, i: nat)
    requires Neighbours(ns) && i < |ns|
    ensures DeviceAt(DeviceTable(ns), 16 * i, ns[i])
  {
    var k := |ns| - 1;
    var table, last := DeviceTable(ns[..k]), DeviceRecord(ns[k]);
    if i == k {
      OneDeviceOnBytes(table, ns[k]);
    } else {
      DevicesOnBytes(ns[..k], i);
      assert forall j: nat | j < |table| :: (table + last)[j] == table[j];
      assert (table + last)[16 * i..16 * i + 8] == table[16 * i..16 * i + 8];
    }
  }

  lemma OneDeviceOnBytes(pre: seq<byte>, n: Neighbour)
    requires |n.ieee| == 8
    ensures DeviceAt(pre + DeviceRecord(n), |pre|, n)
  {
    var d := DeviceRecord(n);
    assert d == n.ieee + (Le16(n.shortAddr) + [n.rxOnWhenIdle, n.relationship, n.deviceType, n.depth, n.lqi, 0]);
    assert forall j: nat | |pre| <= j < |pre| + 16 :: (pre + d)[j] == d[j - |pre|];
    assert (pre + d)[|pre|..|pre| + 8] == d[..8] == n.ieee;
  }

  function Kept(ns: seq<Neighbour>): (ks: seq<Neighbour>)
    ensures |ks| <= MAX_DEVICES
    ensures Neighbours(ns) ==> Neighbours(ks)
  {
    if |ns| <= MAX_DEVICES then ns else ns[..MAX_DEVICES]
  }

  function Identification(id: Identity): (ts: seq<Tlv>)
    requires WellFormed(id)
    ensures forall i: nat | i < |ts| :: |ts[i].value| <= 16
  {
    [Tlv(TAG_PAN_ID, Le16(id.pan)), Tlv(TAG_EXT_PAN_ID, id.extPan), Tlv(TAG_CHANNEL, [id.channel]),
     Tlv(TAG_NWK_UPDATE_ID, [id.updateId]), Tlv(TAG_COORD_IEEE, id.ieee)]
    + (if id.key.Some? then [Tlv(TAG_NWK_KEY, id.key.value)] else [])
    + [Tlv(TAG_NWK_FRAME_COUNTER, Le32(id.frameCounter))]
  }

  /** The records of an image, in the order they are emitted. */
  function ImageRecords(id: Identity, ns: seq<Neighbour>): (ts: seq<Tlv>)
    requires WellFormed(id) && Neighbours(ns)
    ensures forall i: nat | i < |ts| :: Encodable(ts[i])
  {
    Identification(id) + [Tlv(TAG_DEVICE_TABLE, DeviceTable(Kept(ns)))]
  }

  function ImageSize(id: Identity, n: nat): nat {
    8 + 42 + (if id.key.Some? then 19 else 0) + 3 + 16 * n
  }

  lemma {:induction false} EncodeAllAppend(a: seq<Tlv>, b: seq<Tlv>)
    requires forall i: nat | i < |a| :: Encodable(a[i])
    requires forall i: nat | i < |b| :: Encodable(b[i])
    ensures forall i: nat | i < |a + b| :: Encodable((a + b)[i])
    ensures EncodeAll(a + b) == EncodeAll(a) + EncodeAll(b)
    decreases |a|
  {
    hide Encode;
    assert forall i: nat | i < |a + b| :: (a + b)[i] == if i < |a| then a[i] else b[i - |a|];
    if a == [] {
      assert a + b == b;
    } else {
      assert (a + b)[1..] == a[1..] + b;
      EncodeAllAppend(a[1..], b);
    }
  }

  lemma EncodeOne(t: Tlv)
    requires Encodable(t)
    ensures EncodeAll([t]) == Encode(t)
  {
    assert [t][1..] == [];
  }

  lemma EncodedSize(ts: seq<Tlv>, t: Tlv)
    requires Encodable(t) && forall i: nat | i < |ts| :: Encodable(ts[i])
    ensures |EncodeAll(ts + [t])| == |EncodeAll(ts)| + 3 + |t.value|
  {
    hide Encode;
    EncodeAllAppend(ts, [t]);
    EncodeOne(t);
  }

  lemma RecordsSize(id: Identity, ns: seq<Neighbour>)
    requires WellFormed(id) && Neighbours(ns)
    ensures 8 + |EncodeAll(ImageRecords(id, ns))| == ImageSize(id, |Kept(ns)|) <= MAX_IMAGE_SIZE
  {
    hide EncodeAll, Le16, Le32, DeviceTable;
    EncodeNone();
    var pan, ext, ch := Tlv(TAG_PAN_ID, Le16(id.pan)), Tlv(TAG_EXT_PAN_ID, id.extPan), Tlv(TAG_CHANNEL, [id.channel]);
    var upd, ieee := Tlv(TAG_NWK_UPDATE_ID, [id.updateId]), Tlv(TAG_COORD_IEEE, id.ieee);
    var fc := Tlv(TAG_NWK_FRAME_COUNTER, Le32(id.frameCounter));
    assert [] + [pan] == [pan] && [pan] + [ext] == [pan, ext] && [pan, ext] + [ch] == [pan, ext, ch];
    EncodedSize([], pan);
    EncodedSize([pan], ext);
    EncodedSize([pan, ext], ch);
    EncodedSize([pan, ext, ch], upd);
    var five := [pan, ext, ch, upd, ieee];
    assert [pan, ext, ch] + [upd] == [pan, ext, ch, upd] && [pan, ext, ch, upd] + [ieee] == five;
    EncodedSize([pan, ext, ch, upd], ieee);
    var six := five + if id.key.Some? then [Tlv(TAG_NWK_KEY, id.key.value)] else [];
    if id.key.Some? {
      EncodedSize(five, Tlv(TAG_NWK_KEY, id.key.value));
    } else {
      assert five + [] == five;
    }
    EncodedSize(six, fc);
    EncodedSize(Identification(id), Tlv(TAG_DEVICE_TABLE, DeviceTable(Kept(ns))));
  }

  /** The image of a coordinator and its neighbours. */
  function Image(id: Identity, ns: seq<Neighbour>): (image: seq<byte>)
    requires WellFormed(id) && Neighbours(ns)
    ensures |image| == ImageSize(id, |Kept(ns)|) <= MAX_IMAGE_SIZE
  {
    RecordsSize(id, ns);
    var tlvs := EncodeAll(ImageRecords(id, ns));
    MAGIC + [VERSION, 0] + Le16(|tlvs|) + tlvs
  }

  /** A 16-bit value as two bytes, a 32-bit one as four. */
  function Two(n: nat): seq<byte>
    requires n < 0x1_0000
  {
    [n % 0x100, n / 0x100]
  }

  function Four(n: nat): seq<byte>
    requires n < 0x1_0000_0000
  {
    [n % 0x100, n / 0x100 % 0x100, n / 0x1_0000 % 0x100, n / 0x100_0000]
  }

  /** The first five records of an image, byte by byte, each behind its tag and length. */
  function FiveBytes(id: Identity): (s: seq<byte>)
    requires WellFormed(id)
    ensures |s| == 35
  {
    ([0x01, 2, 0] + Two(id.pan)) + ([0x02, 8, 0] + id.extPan) + [0x03, 1, 0, id.channel] + [0x04, 1, 0, id.updateId]
    + ([0x05, 8, 0] + id.ieee)
  }

  function KeyBytes(id: Identity): (s: seq<byte>)
    requires WellFormed(id)
    ensures |s| == if id.key.Some? then 19 else 0
  {
    if id.key.Some? then [0x06, 16, 0] + id.key.value else []
  }

  /** The whole image: header, identity, frame counter, device table. */
  function Wire(id: Identity, table: seq<byte>): seq<byte>
    requires WellFormed(id) && |table| <= 16 * 64
  {
    [0x5a, 0x42, 0x53, 0x42, 1, 0] + Two(35 + |KeyBytes(id)| + 7 + 3 + |table|)
    + (FiveBytes(id) + KeyBytes(id) + ([0x08, 4, 0] + Four(id.frameCounter)) + ([0x10] + Two(|table|) + table))
  }

  lemma RecordOnBytes(tag: byte, value: seq<byte>)
    requires |value| < 0x1_0000
    ensures Encode(Tlv(tag, value)) == [tag] + Two(|value|) + value
    ensures |value| < 0x100 ==> Encode(Tlv(tag, value)) == [tag, |value|, 0] + value
  {
  }

  lemma FourIsLe32(n: nat)
    requires n < 0x1_0000_0000
    ensures Le32(n) == Four(n)
  {
    var lo, hi := n % 0x1_0000, n / 0x1_0000;
    assert n == 0x100 * (0x100 * hi + lo / 0x100) + lo % 0x100;
    assert n / 0x100 == 0x100 * hi + lo / 0x100;
    assert n == 0x100_0000 * (hi / 0x100) + (0x1_0000 * (hi % 0x100) + lo);
  }

  lemma RecordsOneMore(ts: seq<Tlv>, t: Tlv)
    requires Encodable(t) && forall i: nat | i < |ts| :: Encodable(ts[i])
    ensures EncodeAll(ts + [t]) == EncodeAll(ts) + Encode(t)
  {
    hide Encode;
    EncodeAllAppend(ts, [t]);
    EncodeOne(t);
  }

  /** Up to the key. */
  lemma FiveOnBytes(id: Identity)
    requires WellFormed(id)
    ensures EncodeAll(Identification(id)[..5]) == FiveBytes(id)
  {
    hide Encode, EncodeAll;
    var pan, ext, ch := Tlv(TAG_PAN_ID, Le16(id.pan)), Tlv(TAG_EXT_PAN_ID, id.extPan), Tlv(TAG_CHANNEL, [id.channel]);
    var upd, ieee := Tlv(TAG_NWK_UPDATE_ID, [id.updateId]), Tlv(TAG_COORD_IEEE, id.ieee);
    assert Identification(id)[..5] == [pan, ext, ch, upd, ieee];
    RecordOnBytes(TAG_PAN_ID, Le16(id.pan));
    RecordOnBytes(TAG_EXT_PAN_ID, id.extPan);
    RecordOnBytes(TAG_CHANNEL, [id.channel]);
    RecordOnBytes(TAG_NWK_UPDATE_ID, [id.updateId]);
    RecordOnBytes(TAG_COORD_IEEE, id.ieee);
    EncodeOne(pan);
    RecordsOneMore([pan], ext);
    RecordsOneMore([pan, ext], ch);
    RecordsOneMore([pan, ext, ch], upd);
    RecordsOneMore([pan, ext, ch, upd], ieee);
    assert [pan] + [ext] == [pan, ext] && [pan, ext] + [ch] == [pan, ext, ch];
    assert [pan, ext, ch] + [upd] == [pan, ext, ch, upd] && [pan, ext, ch, upd] + [ieee] == [pan, ext, ch, upd, ieee];
  }

  lemma IdentityOnBytes(id: Identity)
    requires WellFormed(id)
    ensures EncodeAll(Identification(id)) == FiveBytes(id) + KeyBytes(id) + ([0x08, 4, 0] + Four(id.frameCounter))
  {
    hide Encode, EncodeAll, Four, Le16, Le32, FiveBytes;
    var ts := Identification(id);
    var five := ts[..5];
    var fc := Tlv(TAG_NWK_FRAME_COUNTER, Le32(id.frameCounter));
    FiveOnBytes(id);
    FourIsLe32(id.frameCounter);
    RecordOnBytes(TAG_NWK_FRAME_COUNTER, Le32(id.frameCounter));
    if id.key.Some? {
      var key := Tlv(TAG_NWK_KEY, id.key.value);
      assert ts == five + [key] + [fc];
      RecordsOneMore(five, key);
      RecordOnBytes(TAG_NWK_KEY, id.key.value);
      RecordsOneMore(five + [key], fc);
    } else {
      assert ts == five + [fc] && FiveBytes(id) + [] == FiveBytes(id);
      RecordsOneMore(five, fc);
    }
  }

  lemma ImageIs(id: Identity, ns: seq<Neighbour>)
    requires WellFormed(id) && Neighbours(ns)
    ensures var tlvs := EncodeAll(ImageRecords(id, ns));
            |tlvs| < 0x1_0000 && Image(id, ns) == MAGIC + [VERSION, 0] + Le16(|tlvs|) + tlvs
  {
    hide EncodeAll, ImageRecords, Le16;
    RecordsSize(id, ns);
  }

  lemma WireIs(id: Identity, table: seq<byte>, tlvs: seq<byte>)
    requires WellFormed(id) && |table| <= 16 * 64
    requires tlvs == FiveBytes(id) + KeyBytes(id) + ([0x08, 4, 0] + Four(id.frameCounter))
                     + ([0x10] + Two(|table|) + table)
    ensures |tlvs| < 0x1_0000 && MAGIC + [VERSION, 0] + Le16(|tlvs|) + tlvs == Wire(id, table)
  {
    hide FiveBytes, KeyBytes;
  }

  /** What is emitted are these bytes. */
  lemma ImageOnBytes(id: Identity, ns: seq<Neighbour>)
    requires WellFormed(id) && Neighbours(ns)
    ensures |ns| <= 64 ==> Image(id, ns) == Wire(id, DeviceTable(ns))
    ensures |ns| > 64 ==> Neighbours(ns[..64]) && Image(id, ns) == Wire(id, DeviceTable(ns[..64]))
  {
    hide Encode, EncodeAll, DeviceTable, Four, Two, FiveBytes, KeyBytes, Identification, Image, Wire, Le16;
    var table := DeviceTable(Kept(ns));
    IdentityOnBytes(id);
    RecordsOneMore(Identification(id), Tlv(TAG_DEVICE_TABLE, table));
    RecordOnBytes(TAG_DEVICE_TABLE, table);
    ImageIs(id, ns);
    WireIs(id, table, EncodeAll(ImageRecords(id, ns)));
  }

  /** The firmware accepts it and reads its records behind the header. */
  lemma ImageIsAccepted(id: Identity, ns: seq<Neighbour>)
    requires WellFormed(id) && Neighbours(ns)
    ensures var image := Image(id, ns);
            && Accepted(image) && 8 + U16(image, 6) == |image|
            && Payload(image) == EncodeAll(ImageRecords(id, ns))
  {
    hide EncodeAll, ImageRecords, U16, Le16;
    RecordsSize(id, ns);
    HeaderReadBack(EncodeAll(ImageRecords(id, ns)));
  }

  /** GET_STRUCTURED_BACKUP: the header is written first with its length patched in at the end, so is the
      length of the device table. */
  method EmitImage(id: Identity, ns: seq<Neighbour>) returns (image: seq<byte>)
    requires WellFormed(id) && Neighbours(ns)
    ensures image == Image(id, ns)
  {
    hide Encode, EncodeAll, DeviceTable, U16, Le32, Le16;
    var tlvs: seq<byte> := [];
    ghost var done: seq<Tlv> := [];
    EncodeNone();
    tlvs, done := Emit(tlvs, done, Tlv(TAG_PAN_ID, Le16(id.pan)));
    tlvs, done := Emit(tlvs, done, Tlv(TAG_EXT_PAN_ID, id.extPan));
    tlvs, done := Emit(tlvs, done, Tlv(TAG_CHANNEL, [id.channel]));
    tlvs, done := Emit(tlvs, done, Tlv(TAG_NWK_UPDATE_ID, [id.updateId]));
    tlvs, done := Emit(tlvs, done, Tlv(TAG_COORD_IEEE, id.ieee));
    if id.key.Some? {
      tlvs, done := Emit(tlvs, done, Tlv(TAG_NWK_KEY, id.key.value));
    }
    tlvs, done := Emit(tlvs, done, Tlv(TAG_NWK_FRAME_COUNTER, Le32(id.frameCounter)));
    assert done == Identification(id);
    var table := EmitDevices(ns);
    tlvs, done := Emit(tlvs, done, Tlv(TAG_DEVICE_TABLE, table));
    assert done == ImageRecords(id, ns);
    RecordsSize(id, ns);
    image := MAGIC + [VERSION, 0] + Le16(|tlvs|) + tlvs;
  }

  lemma EncodeNone()
    ensures EncodeAll([]) == []
  {
  }

  lemma HeaderReadBack(tlvs: seq<byte>)
    requires |tlvs| < 0x1_0000
    ensures var image := MAGIC + [VERSION, 0] + Le16(|tlvs|) + tlvs;
            && |image| == 8 + |tlvs| && U16(image, 6) == |tlvs| && image[8..] == tlvs
            && image[..4] == MAGIC && image[4] == VERSION
            && image[8..8 + U16(image, 6)] == tlvs
  {
    hide U16;
    var image := MAGIC + [VERSION, 0] + Le16(|tlvs|) + tlvs;
    U16OfLe16(MAGIC + [VERSION, 0], |tlvs|, tlvs);
  }

  method Emit(tlvs: seq<byte>, ghost done: seq<Tlv>, t: Tlv) returns (more: seq<byte>, ghost all: seq<Tlv>)
    requires Encodable(t) && forall i: nat | i < |done| :: Encodable(done[i])
    requires tlvs == EncodeAll(done)
    ensures all == done + [t] && (forall i: nat | i < |all| :: Encodable(all[i])) && more == EncodeAll(all)
    ensures |more| == |tlvs| + 3 + |t.value|
  {
    EncodeAllAppend(done, [t]);
    EncodeOne(t);
    more, all := tlvs + [t.tag] + Le16(|t.value|) + t.value, done + [t];
    assert more == tlvs + Encode(t);
  }

  method EmitDevices(ns: seq<Neighbour>) returns (table: seq<byte>)
    requires Neighbours(ns)
    ensures table == DeviceTable(Kept(ns))
  {
    table := [];
    var devCount: nat := 0;
    while devCount < MAX_DEVICES && devCount < |ns|
      invariant devCount <= MAX_DEVICES && devCount <= |ns|
      invariant Neighbours(ns[..devCount]) && table == DeviceTable(ns[..devCount])
    {
      assert ns[..devCount + 1][..devCount] == ns[..devCount];
      table := table + DeviceRecord(ns[devCount]);
      devCount := devCount + 1;
    }
    assert ns[..devCount] == Kept(ns);
  }

  // ---- The firmware reads back what it emitted --------------------------------------------------

  /** Every field of the identity comes back; a channel outside 11 to 26 would not be applied. */
  lemma FirmwareRoundTrip(id: Identity, ns: seq<Neighbour>)
    requires WellFormed(id) && Neighbours(ns)
    ensures var s := ApplyAll(UNSET, Records(EncodeAll(ImageRecords(id, ns))));
            && s.pan == Some(Le16(id.pan)) && s.extPan == Some(id.extPan)
            && s.channel == (if 11 <= id.channel <= 26 then Some([id.channel]) else None)
            && s.updateId == Some([id.updateId]) && s.ieee == Some(id.ieee) && s.key == id.key
            && s.frameCounter == Some(Le32(id.frameCounter))
  {
    hide EncodeAll, Records, Le16, Le32, Apply, DeviceTable;
    var ts := ImageRecords(id, ns);
    RecordsOfEncoded(ts);
    var table := Tlv(TAG_DEVICE_TABLE, DeviceTable(Kept(ns)));
    ApplyLast(UNSET, Identification(id), table);
    TableIgnored(ApplyAll(UNSET, Identification(id)), table.value);
    IdentificationApplied(id);
  }

  lemma TableIgnored(s: Settings, table: seq<byte>)
    ensures Apply(s, Tlv(TAG_DEVICE_TABLE, table)) == s
  {
  }

  lemma IdentificationApplied(id: Identity)
    requires WellFormed(id)
    ensures ApplyAll(UNSET, Identification(id))
         == Settings(Some(Le16(id.pan)), Some(id.extPan), if 11 <= id.channel <= 26 then Some([id.channel]) else None,
                     Some([id.updateId]), Some(id.ieee), id.key, Some(Le32(id.frameCounter)))
  {
    hide Le16, Le32, ApplyAll;
    NothingApplied(UNSET);
    var pan, ext, ch := Tlv(TAG_PAN_ID, Le16(id.pan)), Tlv(TAG_EXT_PAN_ID, id.extPan), Tlv(TAG_CHANNEL, [id.channel]);
    var upd, ieee := Tlv(TAG_NWK_UPDATE_ID, [id.updateId]), Tlv(TAG_COORD_IEEE, id.ieee);
    var fc := Tlv(TAG_NWK_FRAME_COUNTER, Le32(id.frameCounter));
    ApplyLast(UNSET, [], pan);
    ApplyLast(UNSET, [pan], ext);
    ApplyLast(UNSET, [pan, ext], ch);
    ApplyLast(UNSET, [pan, ext, ch], upd);
    ApplyLast(UNSET, [pan, ext, ch, upd], ieee);
    var five := [pan, ext, ch, upd, ieee];
    assert [] + [pan] == [pan] && [pan] + [ext] == [pan, ext] && [pan, ext] + [ch] == [pan, ext, ch];
    assert [pan, ext, ch] + [upd] == [pan, ext, ch, upd] && [pan, ext, ch, upd] + [ieee] == five;
    if id.key.Some? {
      var key := Tlv(TAG_NWK_KEY, id.key.value);
      ApplyLast(UNSET, five, key);
      ApplyLast(UNSET, five + [key], fc);
    } else {
      ApplyLast(UNSET, five, fc);
      assert five + [] == five;
    }
  }

  lemma NothingApplied(s: Settings)
    ensures ApplyAll(s, []) == s
  {
  }

  // ---- The page's parser ------------------------------------------------------------------------

  /** A device as the page lists it, before it formats the numbers. */
  datatype Device = Device(nwkAddress: nat, ieeeAddress: seq<byte>)

  /** parseStructuredTLVs' result; absent fields are undefined. */
  datatype Parsed = Parsed(panId: Option<nat>, extPan: Option<seq<byte>>, channel: Option<seq<byte>>,
                           updateId: Option<seq<byte>>, ieee: Option<seq<byte>>, key: Option<seq<byte>>,
                           keySeq: Option<seq<byte>>, frameCounter: Option<nat>, devices: seq<Device>)

  const NOTHING := Parsed(None, None, None, None, None, None, None, None, [])

  /** val[i] in an integer expression: undefined counts as 0. */
  function ByteAt(v: seq<byte>, i: nat): nat {
    if i < |v| then v[i] else 0
  }

  /** The complete 16-byte records of a device table. */
  function Devices(v: seq<byte>): (ds: seq<Device>)
    decreases |v|
  {
    if |v| < 16 then [] else [Device(U16(v, 8), v[..8])] + Devices(v[16..])
  }

  /** One turn of the switch; None when reading the frame counter throws. */
  function PageApplies(p: Parsed, t: Tlv): Option<Parsed> {
    var v := t.value;
    if t.tag == TAG_PAN_ID then Some(p.(panId := Some(ByteAt(v, 0) + 0x100 * ByteAt(v, 1))))
    else if t.tag == TAG_EXT_PAN_ID then Some(p.(extPan := Some(v)))
    else if t.tag == TAG_CHANNEL then Some(p.(channel := Some(if v == [] then [] else v[..1])))
    else if t.tag == TAG_NWK_UPDATE_ID then Some(p.(updateId := Some(if v == [] then [] else v[..1])))
    else if t.tag == TAG_COORD_IEEE then Some(p.(ieee := Some(v)))
    else if t.tag == TAG_NWK_KEY then Some(p.(key := Some(v)))
    else if t.tag == TAG_NWK_KEY_SEQ then Some(p.(keySeq := Some(if v == [] then [] else v[..1])))
    else if t.tag == TAG_NWK_FRAME_COUNTER then
      if |v| < 4 then None else Some(p.(frameCounter := Some(U32(v, 0))))
    else if t.tag == TAG_DEVICE_TABLE then Some(p.(devices := p.devices + Devices(v)))
    else Some(p)
  }

  function PageAppliesAll(p: Option<Parsed>, ts: seq<Tlv>): Option<Parsed>
    decreases |ts|
  {
    if p.None? || ts == [] then p else PageAppliesAll(PageApplies(p.value, ts[0]), ts[1..])
  }

  /** The payload the page looks at: category, status, image. A declared length beyond the end is cut. */
  function PageRecords(payload: seq<byte>): seq<byte>
    requires 10 <= |payload|
  {
    if 10 + U16(payload, 8) <= |payload| then payload[10..10 + U16(payload, 8)] else payload[10..]
  }

  predicate PageAccepts(payload: seq<byte>) {
    10 <= |payload| && payload[1] == 0 && U32(payload, 2) == 0x4253_425a && payload[6] == 1
  }

  /** parseStructuredTLVs, whose loop stays inside the payload; None when it throws. */
  method ParseStructuredTlvs(payload: seq<byte>) returns (r: Option<Parsed>)
    ensures r == if PageAccepts(payload) then
                   PageAppliesAll(Some(NOTHING), LooseRecords(PageRecords(payload)))
                 else
                   None
  {
    if !PageAccepts(payload) {
      return None;
    }
    r := ReadTlvs(PageRecords(payload));
  }

  /** The parser's loop. */
  method ReadTlvs(tlvs: seq<byte>) returns (r: Option<Parsed>)
    ensures r == PageAppliesAll(Some(NOTHING), LooseRecords(tlvs))
  {
    hide PageApplies, U16, PageReplay, PageAppliesAll, LooseRecords;
    r := Some(NOTHING);
    var p: nat := 0;
    PageReplayWhole(tlvs);
    while p + 3 <= |tlvs|
      invariant p <= |tlvs| && r.Some?
      invariant PageReplay(r, tlvs, p) == PageReplay(Some(NOTHING), tlvs, 0)
    {
      PageReplayStep(r, tlvs, p);
      var tag, len := tlvs[p], U16(tlvs, p + 1);
      p := p + 3;
      var end := if p + len < |tlvs| then p + len else |tlvs|;
      r := PageApplies(r.value, Tlv(tag, tlvs[p..end]));
      p := end;
      if r.None? {
        PageReplayEnd(r, tlvs, p);
        return;
      }
    }
    PageReplayEnd(r, tlvs, p);
  }

  /** Reading what lies behind a position of the payload. */
  function PageReplay(r: Option<Parsed>, tlvs: seq<byte>, p: nat): Option<Parsed>
    requires p <= |tlvs|
  {
    PageAppliesAll(r, LooseRecords(tlvs[p..]))
  }

  lemma PageReplayWhole(tlvs: seq<byte>)
    ensures PageReplay(Some(NOTHING), tlvs, 0) == PageAppliesAll(Some(NOTHING), LooseRecords(tlvs))
  {
    assert tlvs[0..] == tlvs;
  }

  lemma PageReplayEnd(r: Option<Parsed>, tlvs: seq<byte>, p: nat)
    requires p <= |tlvs| && (r.None? || |tlvs| - p < 3)
    ensures PageReplay(r, tlvs, p) == r
  {
  }

  lemma LooseStep(rest: seq<byte>)
    requires 3 <= |rest|
    ensures var n := if 3 + U16(rest, 1) < |rest| then 3 + U16(rest, 1) else |rest|;
            LooseRecords(rest) == [Tlv(rest[0], rest[3..n])] + LooseRecords(rest[n..])
  {
    hide U16;
  }

  /** One record of the page's reading. */
  lemma PageReplayStep(r: Option<Parsed>, tlvs: seq<byte>, p: nat)
    requires r.Some? && p + 3 <= |tlvs|
    ensures var end := if p + 3 + U16(tlvs, p + 1) < |tlvs| then p + 3 + U16(tlvs, p + 1) else |tlvs|;
            PageReplay(r, tlvs, p) == PageReplay(PageApplies(r.value, Tlv(tlvs[p], tlvs[p + 3..end])), tlvs, end)
  {
    hide PageApplies, U16, PageAppliesAll, LooseRecords;
    var size := |tlvs|;
    var rest := tlvs[p..size];
    assert rest == tlvs[p..];
    SameField(tlvs, p, size);
    LooseStep(rest);
    var n := if 3 + U16(rest, 1) < |rest| then 3 + U16(rest, 1) else |rest|;
    SliceOfSlice(tlvs, p, size, 3, n);
    SliceOfSlice(tlvs, p, size, n, |rest|);
    assert rest[n..] == rest[n..|rest|] && tlvs[p + n..] == tlvs[p + n..size];
    PageAppliesCons(r, Tlv(rest[0], rest[3..n]), LooseRecords(rest[n..]));
  }

  lemma PageAppliesCons(r: Option<Parsed>, t: Tlv, ts: seq<Tlv>)
    requires r.Some?
    ensures PageAppliesAll(r, [t] + ts) == PageAppliesAll(PageApplies(r.value, t), ts)
  {
    hide PageApplies;
    assert ([t] + ts)[1..] == ts;
  }

  // ---- The page reads back what the firmware emitted --------------------------------------------

  function Listed(ns: seq<Neighbour>): (ds: seq<Device>)
    ensures |ds| == |ns|
  {
    seq(|ns|, i requires 0 <= i < |ns| => Device(ns[i].shortAddr, ns[i].ieee))
  }

  lemma FirstDevice(n: Neighbour, rest: seq<byte>)
    requires |n.ieee| == 8
    ensures Devices(DeviceRecord(n) + rest) == [Device(n.shortAddr, n.ieee)] + Devices(rest)
  {
    hide U16;
    var tail: seq<byte> := [n.rxOnWhenIdle, n.relationship, n.deviceType, n.depth, n.lqi, 0] + rest;
    var v := DeviceRecord(n) + rest;
    assert v == n.ieee + Le16(n.shortAddr) + tail;
    U16OfLe16(n.ieee, n.shortAddr, tail);
    assert v[..8] == n.ieee && v[16..] == rest;
  }

  lemma {:induction false} DevicesOfTable(ns: seq<Neighbour>, rest: seq<byte>)
    requires Neighbours(ns)
    ensures Devices(DeviceTable(ns) + rest) == Listed(ns) + Devices(rest)
  {
    hide Devices, DeviceRecord;
    if ns == [] {
      assert DeviceTable(ns) + rest == rest;
    } else {
      var n := |ns| - 1;
      var last := DeviceRecord(ns[n]);
      DevicesOfTable(ns[..n], last + rest);
      FirstDevice(ns[n], rest);
      assert DeviceTable(ns) + rest == DeviceTable(ns[..n]) + (last + rest);
      assert Listed(ns) == Listed(ns[..n]) + [Device(ns[n].shortAddr, ns[n].ieee)];
    }
  }

  lemma {:induction false} PageAppliesLast(p: Option<Parsed>, ts: seq<Tlv>, t: Tlv)
    requires PageAppliesAll(p, ts).Some?
    ensures PageAppliesAll(p, ts + [t]) == PageApplies(PageAppliesAll(p, ts).value, t)
    decreases |ts|
  {
    hide PageApplies;
    if ts == [] {
      assert ts + [t] == [t] && [t][1..] == [];
    } else {
      assert (ts + [t])[1..] == ts[1..] + [t];
      PageAppliesLast(PageApplies(p.value, ts[0]), ts[1..], t);
    }
  }

  /** What the page should show for this coordinator: all fields, and the first 64 devices. */
  function Shown(id: Identity, ds: seq<Device>): Parsed {
    Parsed(Some(id.pan), Some(id.extPan), Some([id.channel]), Some([id.updateId]), Some(id.ieee), id.key, None,
           Some(id.frameCounter), ds)
  }

  lemma PanReadBack(pan: word)
    ensures ByteAt(Le16(pan), 0) + 0x100 * ByteAt(Le16(pan), 1) == pan
  {
  }

  lemma CounterReadBack(fc: nat)
    requires fc < 0x1_0000_0000
    ensures U32(Le32(fc), 0) == fc
  {
    hide U32;
    assert [] + Le32(fc) + [] == Le32(fc);
    U32OfLe32([], fc, []);
  }

  lemma IdentificationShown(id: Identity)
    requires WellFormed(id)
    ensures PageAppliesAll(Some(NOTHING), Identification(id)) == Some(Shown(id, []))
  {
    hide Le16, Le32, PageAppliesAll, U32, ByteAt, Devices;
    NothingShown(Some(NOTHING));
    var pan, ext, ch := Tlv(TAG_PAN_ID, Le16(id.pan)), Tlv(TAG_EXT_PAN_ID, id.extPan), Tlv(TAG_CHANNEL, [id.channel]);
    var upd, ieee := Tlv(TAG_NWK_UPDATE_ID, [id.updateId]), Tlv(TAG_COORD_IEEE, id.ieee);
    var fc := Tlv(TAG_NWK_FRAME_COUNTER, Le32(id.frameCounter));
    PanReadBack(id.pan);
    CounterReadBack(id.frameCounter);
    assert [] + [pan] == [pan] && [pan] + [ext] == [pan, ext] && [pan, ext] + [ch] == [pan, ext, ch];
    PageAppliesLast(Some(NOTHING), [], pan);
    PageAppliesLast(Some(NOTHING), [pan], ext);
    PageAppliesLast(Some(NOTHING), [pan, ext], ch);
    var five := [pan, ext, ch, upd, ieee];
    assert [pan, ext, ch] + [upd] == [pan, ext, ch, upd] && [pan, ext, ch, upd] + [ieee] == five;
    PageAppliesLast(Some(NOTHING), [pan, ext, ch], upd);
    PageAppliesLast(Some(NOTHING), [pan, ext, ch, upd], ieee);
    assert [id.channel][..1] == [id.channel] && [id.updateId][..1] == [id.updateId];
    if id.key.Some? {
      var key := Tlv(TAG_NWK_KEY, id.key.value);
      PageAppliesLast(Some(NOTHING), five, key);
      PageAppliesLast(Some(NOTHING), five + [key], fc);
    } else {
      PageAppliesLast(Some(NOTHING), five, fc);
      assert five + [] == five;
    }
  }

  lemma NothingShown(p: Option<Parsed>)
    ensures PageAppliesAll(p, []) == p
  {
  }

  /** Every field and the devices, cut to 64, come back in the page's parser. */
  lemma PageRoundTrip(id: Identity, ns: seq<Neighbour>)
    requires WellFormed(id) && Neighbours(ns)
    ensures PageAppliesAll(Some(NOTHING), LooseRecords(EncodeAll(ImageRecords(id, ns))))
         == Some(Shown(id, Listed(Kept(ns))))
  {
    hide EncodeAll, LooseRecords, DeviceTable, Identification, PageAppliesAll, Devices;
    RecordsOfEncoded(ImageRecords(id, ns));
    IdentificationShown(id);
    PageAppliesLast(Some(NOTHING), Identification(id), Tlv(TAG_DEVICE_TABLE, DeviceTable(Kept(ns))));
    DevicesOfTable(Kept(ns), []);
    NoDevices();
    assert DeviceTable(Kept(ns)) + [] == DeviceTable(Kept(ns));
    assert Listed(Kept(ns)) + [] == Listed(Kept(ns)) && [] + Listed(Kept(ns)) == Listed(Kept(ns));
  }

  /** The page finds in the response the records that the firmware finds in the image. */
  lemma PageSeesImage(image: seq<byte>)
    requires Accepted(image) && 8 + U16(image, 6) == |image|
    ensures PageAccepts([0, 0] + image) && PageRecords([0, 0] + image) == Payload(image)
  {
    var payload := [0, 0] + image;
    assert image[0] == 0x5a && image[1] == 0x42 && image[2] == 0x53 && image[3] == 0x42 by {
      assert image[..4] == MAGIC;
    }
    assert forall i: nat | i < |image| :: payload[i + 2] == image[i];
    assert U16(payload, 8) == U16(image, 6);
    assert payload[10..] == image[8..] && payload[10..|payload|] == payload[10..] && image[8..|image|] == image[8..];
  }

  /** On values shorter than a field: a PAN ID counts missing bytes as 0, a channel without a byte stays without one,
      and a frame counter of less than four bytes makes the page throw. */
  lemma ShortValues(p: Parsed, v: seq<byte>)
    ensures var r := PageApplies(p, Tlv(TAG_PAN_ID, v));
            r == Some(p.(panId := Some(if |v| == 0 then 0 else if |v| == 1 then v[0]
                                       else (v[0] as nat) + 0x100 * (v[1] as nat))))
    ensures PageApplies(p, Tlv(TAG_CHANNEL, v)) == Some(p.(channel := Some(if |v| == 0 then [] else [v[0]])))
    ensures PageApplies(p, Tlv(TAG_NWK_FRAME_COUNTER, v)).None? <==> |v| < 4
  {
    assert |v| > 0 ==> v[..1] == [v[0]];
  }

  /** The page reads as many bytes as the header announces, or as many as there are. */
  lemma AnnouncedIsCut(payload: seq<byte>)
    requires 10 <= |payload|
    ensures var announced := (payload[8] as nat) + 0x100 * (payload[9] as nat);
            && |PageRecords(payload)| == (if announced <= |payload| - 10 then announced else |payload| - 10)
            && PageRecords(payload) <= payload[10..]
  {
  }

  lemma NoDevices()
    ensures Devices([]) == []
  {
  }
}
