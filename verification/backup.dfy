/** GET_NETWORK_BACKUP of main/commands_impl.h, the page's chunk loops of html/zboss_backup.js, and the way back:
    what doBackup assembles is what flash held at its first chunk, and doRestore puts it there again. */
module Backup {
  import opened Bytes
  import opened Collections
  import opened Flash
  import opened Restore
  import opened RestorePaths

  const CHUNK_SIZE := 128

  // ---- One command ------------------------------------------------------------------------------

  /** What the environment decides for one command: partitions found, network joined and its PAN, heap for the
      snapshot, success of the snapshot reads and of the direct reads. */
  datatype Turn = Turn(found: bool, joined: bool, panId: word, malloc: bool, snapshotReads: bool, directReads: bool)

  /** The contents of the two partitions. */
  datatype Image = Image(nvs: seq<byte>, zb: seq<byte>)

  function Whole(f: Image): seq<byte> {
    f.nvs + f.zb
  }

  predicate Fits32(f: Image) {
    |f.nvs| + |f.zb| + CHUNK_SIZE < 0x1_0000_0000
  }

  const STATUS_OK: byte := 0
  const STATUS_FAILED: byte := 24

  /** Response payload: category, status, total size, chunk length, chunk. */
  function Response(ok: bool, total: nat, len: nat, data: seq<byte>): (r: seq<byte>)
    requires total < 0x1_0000_0000 && len < 0x1_0000_0000
    ensures |r| == 10 + |data|
  {
    [0, if ok then STATUS_OK else STATUS_FAILED] + Le32(total) + Le32(len) + data
  }

  /** The reply and what remains of the snapshot. */
  datatype Served = Served(reply: seq<byte>, snapshot: Option<seq<byte>>)

  /** The RAM copy made at offset 0; a buffer of the right size is reused. */
  function TakeSnapshot(f: Image, snapshot: Option<seq<byte>>, turn: Turn): Option<seq<byte>> {
    var buffer := (snapshot.Some? && |snapshot.value| == |Whole(f)|) || turn.malloc;
    if buffer && turn.snapshotReads then Some(Whole(f)) else None
  }

  function ChunkLength(offset: nat, total: nat): (n: nat)
    ensures n <= CHUNK_SIZE
    ensures offset <= total ==> offset + n <= total
  {
    if offset >= total then 0 else if offset + CHUNK_SIZE > total then total - offset else CHUNK_SIZE
  }

  /** Without a snapshot the chunk is read from flash, split at the boundary of the two partitions. */
  function DirectRead(f: Image, offset: nat, len: nat): (s: seq<byte>)
    requires offset + len <= |Whole(f)|
    ensures s == Whole(f)[offset..offset + len]
  {
    var n := |f.nvs|;
    if offset < n then
      var split := if offset + len > n then n - offset else len;
      f.nvs[offset..offset + split] + f.zb[..len - split]
    else
      f.zb[offset - n..offset - n + len]
  }

  /** A request without an offset asks for the first chunk. */
  function OffsetOf(input: seq<byte>): nat {
    if |input| >= 4 then U32(input, 0) else 0
  }

  /** process_immediate of GET_NETWORK_BACKUP. */
  function Serves(f: Image, snapshot: Option<seq<byte>>, turn: Turn, input: seq<byte>): (s: Served)
    requires Fits32(f)
    ensures 10 <= |s.reply|
  {
    var offset := OffsetOf(input);
    var total := |Whole(f)|;
    if !turn.found then
      Served(Response(false, 0, 0, []), snapshot)
    else if offset == 0 && (!turn.joined || turn.panId == 0xffff) then
      Served(Response(false, 0, 0, []), None)
    else
      var held := if offset == 0 then TakeSnapshot(f, snapshot, turn) else snapshot;
      var len := ChunkLength(offset, total);
      var fromRam := held.Some? && offset + len <= |held.value|;
      if len > 0 && !fromRam && !turn.directReads then
        Served(Response(false, total, 0, []), held)
      else
        var data :=
          if len == 0 then []
          else if fromRam then held.value[offset..offset + len]
          else DirectRead(f, offset, len);
        Served(Response(true, total, len, data), if offset + len >= total then None else held)
  }

  // ---- The loop of doBackup ---------------------------------------------------------------------

  /** Flash and environment as the i-th command finds them; flash may change between commands. */
  type World = nat -> (Image, Turn)

  /** The partitions keep their sizes. */
  ghost predicate Sizes(w: World, nvs: nat, zb: nat) {
    && 0 < nvs + zb && nvs + zb + CHUNK_SIZE < 0x1_0000_0000
    && forall i: nat :: |w(i).0.nvs| == nvs && |w(i).0.zb| == zb
  }

  lemma ResponseReadBack(ok: bool, total: nat, len: nat, data: seq<byte>)
    requires total < 0x1_0000_0000 && len < 0x1_0000_0000 && len == |data|
    ensures var r := Response(ok, total, len, data);
            && r[0] == 0 && r[1] == (if ok then STATUS_OK else STATUS_FAILED)
            && U32(r, 2) == total && U32(r, 6) == len && r[10..10 + len] == data
  {
    hide U32, Le32;
    var head: seq<byte> := [0, if ok then STATUS_OK else STATUS_FAILED];
    var r := Response(ok, total, len, data);
    assert r == head + Le32(total) + (Le32(len) + data);
    U32OfLe32(head, total, Le32(len) + data);
    assert r == (head + Le32(total)) + Le32(len) + data;
    U32OfLe32(head + Le32(total), len, data);
    assert r[10..] == data;
  }

  /** What a command at `offset` serves when nothing fails: from the snapshot if it has one, else from flash. */
  function Data(f: Image, held: Option<seq<byte>>, offset: nat): (s: seq<byte>)
    requires offset <= |Whole(f)| && (held.Some? ==> |held.value| == |Whole(f)|)
    ensures |s| == ChunkLength(offset, |Whole(f)|)
  {
    var len := ChunkLength(offset, |Whole(f)|);
    if held.Some? then held.value[offset..offset + len] else Whole(f)[offset..offset + len]
  }

  predicate Refuses(turn: Turn, offset: nat) {
    !turn.found || (offset == 0 && (!turn.joined || turn.panId == 0xffff))
  }

  lemma ServesReply(f: Image, snapshot: Option<seq<byte>>, turn: Turn, offset: nat)
    requires Fits32(f) && offset < |Whole(f)|
    requires snapshot.Some? && offset != 0 ==> |snapshot.value| == |Whole(f)|
    ensures var s := Serves(f, snapshot, turn, Le32(offset));
            var total := |Whole(f)|;
            var held := if offset == 0 then TakeSnapshot(f, snapshot, turn) else snapshot;
            && s.reply[0] == 0 && s.reply[1] in [0, 24]
            && (s.reply[1] == 0 <==> !Refuses(turn, offset) && (held.Some? || turn.directReads))
            && (s.reply[1] == STATUS_OK ==>
                  && U32(s.reply, 2) == total && U32(s.reply, 6) == ChunkLength(offset, total)
                  && |s.reply| == 10 + ChunkLength(offset, total)
                  && s.reply[10..] == Data(f, held, offset)
                  && s.snapshot == if offset + ChunkLength(offset, total) >= total then None else held)
  {
    hide U32, Le32, Response;
    var total := |Whole(f)|;
    assert [] + Le32(offset) + [] == Le32(offset);
    U32OfLe32([], offset, []);
    var held := if offset == 0 then TakeSnapshot(f, snapshot, turn) else snapshot;
    var len := ChunkLength(offset, total);
    ResponseReadBack(false, 0, 0, []);
    ResponseReadBack(false, total, 0, []);
    ResponseReadBack(true, total, len, Data(f, held, offset));
    var r := Response(true, total, len, Data(f, held, offset));
    assert r[10..10 + len] == r[10..];
  }

  lemma SameOffset(f: Image, snapshot: Option<seq<byte>>, turn: Turn, a: seq<byte>, b: seq<byte>)
    requires Fits32(f) && OffsetOf(a) == OffsetOf(b)
    ensures Serves(f, snapshot, turn, a) == Serves(f, snapshot, turn, b)
  {
    hide U32, Response, DirectRead, TakeSnapshot;
  }

  /** The offset is the first four bytes of the request, little-endian; a shorter request asks for offset 0. */
  lemma OffsetOfInput(f: Image, snapshot: Option<seq<byte>>, turn: Turn, input: seq<byte>)
    requires Fits32(f)
    ensures var offset := if |input| < 4 then 0 else Word32(input, 0);
            Serves(f, snapshot, turn, input) == Serves(f, snapshot, turn, Le32(offset))
  {
    hide Serves;
    var offset := if |input| < 4 then 0 else Word32(input, 0);
    assert [] + Le32(offset) + [] == Le32(offset);
    U32OfLe32([], offset, []);
    SameOffset(f, snapshot, turn, input, Le32(offset));
  }

  /** The chunks received so far, the rest of the Uint8Array zero. */
  function Padded(got: seq<byte>, total: nat): seq<byte> {
    if |got| < total then got + seq(total - |got|, _ => 0) else got
  }

  /** The do-while loop of doBackup from the i-th command on; None when it throws. */
  function Pulls(w: World, nvs: nat, zb: nat, i: nat, snapshot: Option<seq<byte>>, got: seq<byte>): Option<seq<byte>>
    requires Sizes(w, nvs, zb) && |got| < nvs + zb
    requires snapshot.Some? && got != [] ==> |snapshot.value| == nvs + zb
    decreases nvs + zb - |got|
  {
    var (f, turn) := w(i);
    ServesReply(f, snapshot, turn, |got|);
    var s := Serves(f, snapshot, turn, Le32(|got|));
    if s.reply[1] != 0 then
      None
    else
      var totalSize, chunkLen := U32(s.reply, 2), U32(s.reply, 6);
      if chunkLen == 0 then
        Some(Padded(got, totalSize))
      else
        var more := got + s.reply[10..10 + chunkLen];
        if |more| < totalSize then Pulls(w, nvs, zb, i + 1, s.snapshot, more) else Some(Padded(more, totalSize))
  }

  /** One round of the loop that is not refused. */
  lemma PullsStep(w: World, nvs: nat, zb: nat, i: nat, snapshot: Option<seq<byte>>, got: seq<byte>)
    requires Sizes(w, nvs, zb) && |got| < nvs + zb
    requires snapshot.Some? && got != [] ==> |snapshot.value| == nvs + zb
    ensures var (f, turn) := w(i);
            var held := if got == [] then TakeSnapshot(f, snapshot, turn) else snapshot;
            if Refuses(turn, |got|) || (held.None? && !turn.directReads) then
              Pulls(w, nvs, zb, i, snapshot, got) == None
            else
              var more := got + Data(f, held, |got|);
              if |more| < nvs + zb then
                Pulls(w, nvs, zb, i, snapshot, got) == Pulls(w, nvs, zb, i + 1, held, more)
              else
                Pulls(w, nvs, zb, i, snapshot, got) == Some(more)
  {
    hide U32, Serves, TakeSnapshot, Refuses, Data;
    var (f, turn) := w(i);
    ServesReply(f, snapshot, turn, |got|);
    var s := Serves(f, snapshot, turn, Le32(|got|));
    if s.reply[1] == STATUS_OK {
      assert s.reply[10..10 + U32(s.reply, 6)] == s.reply[10..];
    }
  }

  /** doBackup's loop, command by command. */
  method DoBackup(w: World, nvs: nat, zb: nat, stale: Option<seq<byte>>) returns (raw: Option<seq<byte>>)
    requires Sizes(w, nvs, zb)
    ensures raw == Pulls(w, nvs, zb, 0, stale, [])
  {
    hide Pulls, U32, Serves, Refuses, Data;
    var offset: nat, totalSize: nat, i: nat := 0, 0, 0;
    var chunks: seq<byte> := [];
    var snapshot := stale;
    while true
      invariant offset == |chunks| < nvs + zb
      invariant snapshot.Some? && chunks != [] ==> |snapshot.value| == nvs + zb
      invariant Pulls(w, nvs, zb, 0, stale, []) == Pulls(w, nvs, zb, i, snapshot, chunks)
      decreases nvs + zb - offset
    {
      var (f, turn) := w(i);
      ServesReply(f, snapshot, turn, offset);
      PullsStep(w, nvs, zb, i, snapshot, chunks);
      var s := Serves(f, snapshot, turn, Le32(offset));
      if s.reply[1] != 0 {
        return None;
      }
      totalSize := U32(s.reply, 2);
      var chunkLen := U32(s.reply, 6);
      assert s.reply[10..10 + chunkLen] == s.reply[10..];
      if chunkLen > 0 {
        chunks := chunks + s.reply[10..10 + chunkLen];
        offset := offset + chunkLen;
      } else {
        break;
      }
      if offset >= totalSize {
        break;
      }
      i, snapshot := i + 1, s.snapshot;
    }
    return Some(Padded(chunks, totalSize));
  }

  lemma {:induction false} PullsFromSnapshot(w: World, nvs: nat, zb: nat, i: nat, img: seq<byte>, got: seq<byte>)
    requires Sizes(w, nvs, zb) && |img| == nvs + zb && 0 < |got| < nvs + zb && got == img[..|got|]
    requires forall j: nat :: w(j).1.found
    ensures Pulls(w, nvs, zb, i, Some(img), got) == Some(img)
    decreases nvs + zb - |got|
  {
    hide Pulls;
    PullsStep(w, nvs, zb, i, Some(img), got);
    var more := got + Data(w(i).0, Some(img), |got|);
    assert more == img[..|more|] && img[..|img|] == img;
    if |more| < nvs + zb {
      PullsFromSnapshot(w, nvs, zb, i + 1, img, more);
    }
  }

  /** Snapshot taken: the assembled image is what flash held at the first command, even if it changes later. */
  lemma BackupIsSnapshot(w: World, nvs: nat, zb: nat, stale: Option<seq<byte>>)
    requires Sizes(w, nvs, zb) && forall j: nat :: w(j).1.found
    requires var turn := w(0).1; turn.joined && turn.panId != 0xffff && turn.snapshotReads
    requires w(0).1.malloc || (stale.Some? && |stale.value| == nvs + zb)
    ensures Pulls(w, nvs, zb, 0, stale, []) == Some(Whole(w(0).0))
  {
    hide Pulls;
    PullsStep(w, nvs, zb, 0, stale, []);
    var img := Whole(w(0).0);
    var more := [] + Data(w(0).0, Some(img), 0);
    assert more == img[..|more|] && img[..|img|] == img;
    if |more| < nvs + zb {
      PullsFromSnapshot(w, nvs, zb, 1, img, more);
    }
  }

  /** Byte j comes from flash as the command that served it found it. */
  predicate Piecewise(w: World, r: seq<byte>, from: nat) {
    forall j: nat | from <= j < |r| :: j < |Whole(w(j / CHUNK_SIZE).0)| && r[j] == Whole(w(j / CHUNK_SIZE).0)[j]
  }

  lemma {:induction false} PullsDirectly(w: World, nvs: nat, zb: nat, i: nat, got: seq<byte>)
    requires Sizes(w, nvs, zb) && |got| < nvs + zb && |got| == CHUNK_SIZE * i && 0 < i
    requires forall j: nat :: w(j).1.found && w(j).1.directReads
    requires Piecewise(w, got, 0)
    ensures var r := Pulls(w, nvs, zb, i, None, got);
            r.Some? && |r.value| == nvs + zb && Piecewise(w, r.value, 0)
    decreases nvs + zb - |got|
  {
    hide Pulls, Piecewise;
    PullsStep(w, nvs, zb, i, None, got);
    var more := got + Data(w(i).0, None, |got|);
    PiecewiseGrows(w, i, got, more);
    if |more| < nvs + zb {
      PullsDirectly(w, nvs, zb, i + 1, more);
    }
  }

  lemma PiecewiseGrows(w: World, i: nat, got: seq<byte>, more: seq<byte>)
    requires Piecewise(w, got, 0) && |got| == CHUNK_SIZE * i && |got| <= |Whole(w(i).0)|
    requires more == got + Data(w(i).0, None, |got|)
    ensures Piecewise(w, more, 0)
  {
    forall j: nat | j < |more|
      ensures j < |Whole(w(j / CHUNK_SIZE).0)| && more[j] == Whole(w(j / CHUNK_SIZE).0)[j]
    {
      if |got| <= j {
        assert j / CHUNK_SIZE == i;
      } else {
        assert more[j] == got[j];
      }
    }
  }

  /** No snapshot: the image is pieced together from the flash of as many instants as there are chunks. It is what
      flash held at the first command exactly if no chunk changed before it was read. */
  lemma FallbackMayTear(w: World, nvs: nat, zb: nat, stale: Option<seq<byte>>)
    requires Sizes(w, nvs, zb) && forall j: nat :: w(j).1.found && w(j).1.directReads
    requires var turn := w(0).1; turn.joined && turn.panId != 0xffff
    requires !w(0).1.snapshotReads || (!w(0).1.malloc && (stale.None? || |stale.value| != nvs + zb))
    ensures var r := Pulls(w, nvs, zb, 0, stale, []);
            && r.Some?
            && (r.value == Whole(w(0).0) <==>
                  forall j: nat | j < nvs + zb :: Whole(w(j / CHUNK_SIZE).0)[j] == Whole(w(0).0)[j])
  {
    hide Pulls;
    PullsStep(w, nvs, zb, 0, stale, []);
    var more := [] + Data(w(0).0, None, 0);
    PiecewiseGrows(w, 0, [], more);
    if |more| < nvs + zb {
      PullsDirectly(w, nvs, zb, 1, more);
    }
    var r := Pulls(w, nvs, zb, 0, stale, []);
    assert forall j: nat | j < nvs + zb :: r.value[j] == Whole(w(j / CHUNK_SIZE).0)[j];
  }

  /** A coordinator that is not on a network is not backed up at all, and keeps no snapshot. */
  lemma PoisonRefused(f: Image, snapshot: Option<seq<byte>>, turn: Turn, w: World, nvs: nat, zb: nat)
    requires turn.found && (!turn.joined || turn.panId == 0xffff)
    requires Sizes(w, nvs, zb) && w(0) == (f, turn)
    ensures Pulls(w, nvs, zb, 0, snapshot, []) == None
    ensures Serves(f, snapshot, turn, Le32(0)).snapshot == None
  {
    PullsStep(w, nvs, zb, 0, snapshot, []);
  }

  // ---- And back ---------------------------------------------------------------------------------

  /** The chunks doRestore sends. */
  function Split(raw: seq<byte>): (chunks: seq<seq<byte>>)
    ensures Concat(chunks) == raw
    ensures raw != [] ==> chunks != [] && chunks[|chunks| - 1] != []
    ensures forall i: nat | i < |chunks| :: |chunks[i]| <= CHUNK_SIZE
    decreases |raw|
  {
    if raw == [] then
      []
    else
      var n := if |raw| < CHUNK_SIZE then |raw| else CHUNK_SIZE;
      var rest := Split(raw[n..]);
      assert ([raw[..n]] + rest)[1..] == rest;
      [raw[..n]] + rest
  }

  const EXPECTED_RAW_SIZE := 0x6000 + 0x4000

  /** Backing up and restoring is the identity: the image assembled from one coordinator, pushed into another one
      in any state, ends up in its flash, whichever path that takes, unless the gate refuses it; then nothing is
      written and every partition is as it was. */
  lemma BackupThenRestore(w: World, stale: Option<seq<byte>>, d: Device, lucks: nat -> Luck, malloc: bool)
    requires Sizes(w, 0x6000, 0x4000) && forall j: nat :: w(j).1.found
    requires var turn := w(0).1; turn.joined && turn.panId != 0xffff && turn.snapshotReads
    requires w(0).1.malloc || (stale.Some? && |stale.value| == EXPECTED_RAW_SIZE)
    requires WellSized(d) && |d.nvs.bytes| == 0x6000 && |d.zb.bytes| == 0x4000 && Steady(lucks, malloc)
    ensures var raw := Pulls(w, 0x6000, 0x4000, 0, stale, []);
            raw.Some? && |raw.value| == EXPECTED_RAW_SIZE &&
            var r := Pushes(d, lucks, 0, 0, Split(raw.value));
            if !malloc || PassesGate(w(0).0.zb) then
              r.status == GenericOk && r.device.nvs.bytes == w(0).0.nvs && r.device.zb.bytes == w(0).0.zb
            else
              r.status == OperationFailed && r.device.nvs == d.nvs && r.device.zb == d.zb
  {
    hide Pulls, Pushes, PassesGate, Split, AllOnce;
    BackupIsSnapshot(w, 0x6000, 0x4000, stale);
    var f := w(0).0;
    var raw := Whole(f);
    assert raw[0x6000..] == f.zb && raw[..0x6000] == f.nvs;
    assert [] + Concat(Split(raw)) == raw;
    var r := Pushes(d, lucks, 0, 0, Split(raw));
    if malloc {
      BufferedRestore(d, lucks, 0, [], Split(raw));
    } else {
      StreamedRestore(d, lucks, 0, [], Split(raw));
    }
    assert Contents(r.device)[..0x6000] == r.device.nvs.bytes && Contents(r.device)[0x6000..] == r.device.zb.bytes;
  }
}
