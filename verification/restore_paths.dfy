/** A whole restore from its first chunk to its last: the buffered and the streaming path of RESTORE_NETWORK leave
    the same flash. */
module RestorePaths {
  import opened Bytes
  import opened Collections
  import opened Flash
  import opened Restore

  /** Every operation succeeds; `malloc` decides which path the command takes. */
  function Smooth(malloc: bool): Luck {
    Luck(true, malloc, Ok, Ok, Ok, Ok, Ok)
  }

  /** The payload of one RESTORE_NETWORK command. */
  function Input(offset: nat, total: nat, chunk: seq<byte>): (s: seq<byte>)
    requires offset < 0x1_0000_0000 && total < 0x1_0000_0000
    ensures |s| == 8 + |chunk|
  {
    Le32(offset) + Le32(total) + chunk
  }

  lemma InputReadBack(offset: nat, total: nat, chunk: seq<byte>)
    requires offset < 0x1_0000_0000 && total < 0x1_0000_0000
    ensures var s := Input(offset, total, chunk);
            U32(s, 0) == offset && U32(s, 4) == total && s[8..] == chunk
  {
    hide U32, Le32;
    var s := Input(offset, total, chunk);
    assert s == [] + Le32(offset) + (Le32(total) + chunk);
    U32OfLe32([], offset, Le32(total) + chunk);
    U32OfLe32(Le32(offset), total, chunk);
  }

  /** No command meets a failure, and all find the heap in the same condition. */
  ghost predicate Steady(lucks: nat -> Luck, malloc: bool) {
    forall j: nat :: lucks(j) == Smooth(malloc)
  }

  /** The host sends the chunks one after the other and stops at the first refusal; command `n` meets `lucks(n)`. */
  function Pushes(d: Device, lucks: nat -> Luck, n: nat, at: nat, chunks: seq<seq<byte>>): (r: Reply)
    requires WellSized(d) && Capacity(d) < 0x1_0000_0000 && at + |Concat(chunks)| <= Capacity(d)
    ensures SameSizes(d, r.device)
    decreases |chunks|
  {
    if chunks == [] then
      Reply(d, GenericOk)
    else
      var r := Restores(d, lucks(n), Input(at, Capacity(d), chunks[0]));
      if r.status != GenericOk then r else Pushes(r.device, lucks, n + 1, at + |chunks[0]|, chunks[1..])
  }

  /** What it sends is a run of commands, `last` the one that decides. */
  lemma {:induction false} PushesIsRun(d: Device, lucks: nat -> Luck, n: nat, at: nat, chunks: seq<seq<byte>>)
    returns (commands: seq<Command>, last: Command)
    requires WellSized(d) && Capacity(d) < 0x1_0000_0000 && at + |Concat(chunks)| <= Capacity(d) && chunks != []
    ensures |commands| < |chunks| && last.luck == lucks(n + |commands|)
    ensures forall j: nat | j < |commands| :: commands[j].luck == lucks(n + j)
    ensures Pushes(d, lucks, n, at, chunks) == Restores(Runs(d, commands), last.luck, last.input)
    decreases |chunks|
  {
    hide Restores, Input, Runs;
    var input := Input(at, Capacity(d), chunks[0]);
    var r := Restores(d, lucks(n), input);
    NoCommands(d);
    if r.status != GenericOk || chunks[1..] == [] {
      commands, last := [], Command(lucks(n), input);
    } else {
      var more;
      more, last := PushesIsRun(r.device, lucks, n + 1, at + |chunks[0]|, chunks[1..]);
      commands := [Command(lucks(n), input)] + more;
      FirstCommand(d, Command(lucks(n), input), more);
    }
  }

  lemma NoCommands(d: Device)
    requires WellSized(d)
    ensures Runs(d, []) == d
  {
  }

  lemma FirstCommand(d: Device, c: Command, more: seq<Command>)
    requires WellSized(d)
    ensures Runs(d, [c] + more) == Runs(Restores(d, c.luck, c.input).device, more)
  {
    hide Restores;
    assert ([c] + more)[1..] == more;
  }

  /** Whatever fails, and at whichever chunk: a restore that does not go through leaves no session and no image, and
      either the flash of the boot or a pending reboot. */
  lemma FailedRestoreIsSafe(boot: Device, lucks: nat -> Luck, chunks: seq<seq<byte>>)
    requires Booted(boot) && WellSized(boot) && Capacity(boot) < 0x1_0000_0000 && |Concat(chunks)| <= Capacity(boot)
    ensures var r := Pushes(boot, lucks, 0, 0, chunks);
            r.status != GenericOk ==>
              && !r.device.active && r.device.img.None?
              && (r.device.rebootPending || (r.device.nvs == boot.nvs && r.device.zb == boot.zb))
  {
    hide Pushes, Restores, Runs;
    if chunks == [] {
      NothingPushed(boot, lucks);
    } else {
      var commands, last := PushesIsRun(boot, lucks, 0, 0, chunks);
      RestoreSafety(boot, commands, last.luck, last.input);
    }
  }

  lemma NothingPushed(d: Device, lucks: nat -> Luck)
    requires WellSized(d) && Capacity(d) < 0x1_0000_0000
    ensures Pushes(d, lucks, 0, 0, []) == Reply(d, GenericOk)
  {
  }

  /** The bytes of both partitions. */
  function Contents(d: Device): seq<byte> {
    d.nvs.bytes + d.zb.bytes
  }

  predicate AllOnce(p: Partition) {
    forall i: nat | i < |p.programmed| :: p.programmed[i] == 1
  }

  // ---- The streaming path -----------------------------------------------------------------------

  /** Streaming has come to the end of `x`. */
  predicate Streaming(d: Device, x: seq<byte>) {
    && WellSized(d)
    && (x != [] ==> d.active && d.img.None? && d.totalSize == Capacity(d) && d.nextOffset == |x| && Streamed(d, x))
  }

  lemma OpenStreams(d: Device)
    requires WellSized(d)
    ensures var p := Open(d, Smooth(false), Capacity(d));
            && p.ok && Streamed(p.device, []) && p.device.img.None? && p.device.active
            && p.device.totalSize == Capacity(d) && p.device.nextOffset == 0
  {
    hide Blank;
    ErasedIsFilled(d.nvs);
    ErasedIsFilled(d.zb);
  }

  lemma StreamChunk(d: Device, x: seq<byte>, chunk: seq<byte>)
    requires WellSized(d) && Streamed(d, x) && d.active && d.img.None?
    requires d.totalSize == Capacity(d) && d.nextOffset == |x| && |x| + |chunk| <= Capacity(d)
    ensures var r := Chunk(d, Smooth(false), |x|, chunk);
            && r.status == GenericOk && Streamed(r.device, x + chunk)
            && (|x| + |chunk| < Capacity(d) ==>
                  && r.device.active && r.device.img.None?
                  && r.device.totalSize == Capacity(d) && r.device.nextOffset == |x| + |chunk|)
            && (|x| + |chunk| == Capacity(d) ==> !r.device.active && r.device.img.None? && r.device.rebootPending)
  {
    hide Write, Filled;
    StreamingWrites(d, Smooth(false), x, chunk);
  }

  lemma StreamStep(d: Device, x: seq<byte>, chunk: seq<byte>)
    requires Streaming(d, x) && Capacity(d) < 0x1_0000_0000 && |x| + |chunk| <= Capacity(d)
    requires |x| < Capacity(d)
    ensures var r := Restores(d, Smooth(false), Input(|x|, Capacity(d), chunk));
            && r.status == GenericOk
            && (|x| + |chunk| < Capacity(d) ==> Streaming(r.device, x + chunk))
            && (|x| + |chunk| == Capacity(d) ==>
                  && Streamed(r.device, x + chunk) && !r.device.active && r.device.img.None? && r.device.rebootPending)
  {
    hide Streamed, Open, Chunk, Input, Blank, U32;
    InputReadBack(|x|, Capacity(d), chunk);
    if x == [] {
      OpenStreams(d);
      StreamChunk(Open(d, Smooth(false), Capacity(d)).device, [], chunk);
      assert [] + chunk == chunk == x + chunk;
    } else {
      StreamChunk(d, x, chunk);
    }
  }

  lemma FullyStreamed(d: Device, x: seq<byte>)
    requires WellSized(d) && Streamed(d, x) && |x| == Capacity(d)
    ensures Contents(d) == x && AllOnce(d.nvs) && AllOnce(d.zb)
  {
    var n := |d.nvs.bytes|;
    assert x == NvsPart(x, n) + ZbPart(x, n);
    assert Blank(0) == [];
  }

  /** Erase-then-stream: flash holds the image, each byte programmed once. */
  lemma {:induction false} StreamedRestore(d: Device, lucks: nat -> Luck, n: nat, x: seq<byte>,
                                             chunks: seq<seq<byte>>)
    requires Streaming(d, x) && Capacity(d) < 0x1_0000_0000 && Steady(lucks, false)
    requires chunks != [] && chunks[|chunks| - 1] != []
    requires |x| + |Concat(chunks)| == Capacity(d)
    ensures var r := Pushes(d, lucks, n, |x|, chunks);
            && r.status == GenericOk && Contents(r.device) == x + Concat(chunks)
            && AllOnce(r.device.nvs) && AllOnce(r.device.zb)
            && !r.device.active && r.device.img.None? && r.device.rebootPending
    decreases |chunks|
  {
    hide Streamed, Restores, Input, AllOnce;
    TailIsShorter(chunks);
    StreamStep(d, x, chunks[0]);
    var r := Restores(d, Smooth(false), Input(|x|, Capacity(d), chunks[0]));
    assert x + chunks[0] + Concat(chunks[1..]) == x + Concat(chunks);
    if |chunks| == 1 {
      assert Concat(chunks[1..]) == [];
      FullyStreamed(r.device, x + chunks[0]);
    } else {
      StreamedRestore(r.device, lucks, n + 1, x + chunks[0], chunks[1..]);
    }
  }

  lemma TailIsShorter(chunks: seq<seq<byte>>)
    requires chunks != [] && chunks[|chunks| - 1] != []
    ensures Concat(chunks) == chunks[0] + Concat(chunks[1..]) && 0 < |Concat(chunks)|
    ensures |chunks| > 1 ==> chunks[1..] != [] && chunks[1..][|chunks| - 2] != [] && 0 < |Concat(chunks[1..])|
    ensures |chunks| == 1 ==> Concat(chunks[1..]) == []
  {
    if |chunks| > 1 {
      TailIsShorter(chunks[1..]);
    }
  }

  // ---- The buffered path ------------------------------------------------------------------------

  /** Buffering has come to the end of `x`. */
  predicate Buffering(d: Device, x: seq<byte>) {
    && WellSized(d) && |x| <= Capacity(d)
    && (x != [] ==>
          && d.active && d.totalSize == Capacity(d) && d.nextOffset == |x|
          && d.img == Some(x + Blank(Capacity(d) - |x|)))
  }

  predicate SameFlash(d: Device, e: Device) {
    e.nvs == d.nvs && e.zb == d.zb && e.dirty == d.dirty && e.rebootPending == d.rebootPending
  }

  lemma BufferChunk(d: Device, x: seq<byte>, chunk: seq<byte>)
    requires WellSized(d) && |x| + |chunk| <= Capacity(d) && d.img == Some(x + Blank(Capacity(d) - |x|))
    ensures Store(d, Smooth(true), |x|, chunk)
         == Progress(d.(img := Some(x + chunk + Blank(Capacity(d) - |x| - |chunk|))), true)
  {
    var img := x + Blank(Capacity(d) - |x|);
    var grown := x + chunk + Blank(Capacity(d) - |x| - |chunk|);
    assert img[..|x|] + chunk + img[|x| + |chunk|..] == grown;
    assert chunk == [] ==> grown == img;
  }

  /** What the last chunk leads to: the commit, or a refusal that leaves flash alone. */
  predicate Gated(d: Device, image: seq<byte>, r: Reply) {
    if |image| == Capacity(d) && PassesGate(image[|d.nvs.bytes|..]) then
      && r.status == GenericOk && Contents(r.device) == image
      && AllOnce(r.device.nvs) && AllOnce(r.device.zb)
      && !r.device.active && r.device.img.None? && r.device.rebootPending
    else
      && r.status == OperationFailed && r.device.nvs == d.nvs && r.device.zb == d.zb
      && !r.device.active && r.device.img.None? && r.device.dirty == d.dirty
      && r.device.rebootPending == (d.rebootPending || d.dirty)
  }

  lemma CommitWrites(d: Device, image: seq<byte>)
    requires WellSized(d) && d.img == Some(image) && !d.active
    ensures var r := Commit(d, Smooth(true));
            && r.status == GenericOk && Contents(r.device) == image
            && AllOnce(r.device.nvs) && AllOnce(r.device.zb)
            && !r.device.active && r.device.img.None? && r.device.rebootPending
  {
    hide Write, Blank, Erase;
    var n := |d.nvs.bytes|;
    ErasedIsFilled(d.nvs);
    ErasedIsFilled(d.zb);
    WriteFills(Erase(d.nvs, Ok), [], image[..n]);
    WriteFills(Erase(d.zb, Ok), [], image[n..]);
    assert [] + image[..n] == image[..n] && [] + image[n..] == image[n..];
    var r := Commit(d, Smooth(true));
    assert image[..n] + Blank(0) == image[..n] && image[n..] + Blank(0) == image[n..];
    assert image[..n] + image[n..] == image;
  }

  lemma BufferStep(d: Device, x: seq<byte>, chunk: seq<byte>)
    requires Buffering(d, x) && Capacity(d) < 0x1_0000_0000 && |x| + |chunk| <= Capacity(d)
    requires |x| < Capacity(d)
    ensures var r := Restores(d, Smooth(true), Input(|x|, Capacity(d), chunk));
            if |x| + |chunk| < Capacity(d) then
              r.status == GenericOk && Buffering(r.device, x + chunk) && SameFlash(d, r.device)
            else
              Gated(d, x + chunk, r)
  {
    hide Input, U32, Commit, ImageOk, PassesGate, Store, Contents, AllOnce;
    InputReadBack(|x|, Capacity(d), chunk);
    var ready := if x == [] then Open(d, Smooth(true), Capacity(d)).device else d;
    assert [] + Blank(Capacity(d)) == Blank(Capacity(d));
    BufferChunk(ready, x, chunk);
    var image := x + chunk;
    if |image| == Capacity(d) {
      GateOnBytes(image[|d.nvs.bytes|..]);
      assert image + Blank(0) == image;
      var closed := ready.(img := Some(image), nextOffset := |image|, active := false);
      CommitWrites(closed, image);
    }
  }

  /** Buffer-then-commit: the same flash, if the image passes the gate; otherwise flash is as it was, and no
      reboot is caused. */
  lemma {:induction false} BufferedRestore(d: Device, lucks: nat -> Luck, n: nat, x: seq<byte>,
                                             chunks: seq<seq<byte>>)
    requires Buffering(d, x) && Capacity(d) < 0x1_0000_0000 && Steady(lucks, true)
    requires chunks != [] && chunks[|chunks| - 1] != []
    requires |x| + |Concat(chunks)| == Capacity(d)
    ensures Gated(d, x + Concat(chunks), Pushes(d, lucks, n, |x|, chunks))
    decreases |chunks|
  {
    hide Restores, Input, AllOnce, PassesGate, Contents, Blank;
    TailIsShorter(chunks);
    BufferStep(d, x, chunks[0]);
    var r := Restores(d, Smooth(true), Input(|x|, Capacity(d), chunks[0]));
    assert x + chunks[0] + Concat(chunks[1..]) == x + Concat(chunks);
    if |chunks| == 1 {
      assert x + chunks[0] == x + Concat(chunks);
    } else {
      BufferedRestore(r.device, lucks, n + 1, x + chunks[0], chunks[1..]);
    }
  }

  /** An image with a page header and one record put into a page. */
  function WithRecord(img: seq<byte>, page: nat, recordSeq: nat, length: word, kind: word): (r: seq<byte>)
    requires (page + 1) * 0x2000 <= |img| && recordSeq < 0x1_0000_0000
    ensures |r| == |img|
  {
    var at := page * 0x2000;
    Splice(Splice(img, at + 0x04, [0x40, 0x00, 0x1e, 0x00]), at + 0x40, Le32(recordSeq) + Le16(length) + Le16(kind))
  }

  lemma RecordMakesGoodPage(img: seq<byte>, page: nat, recordSeq: nat, length: word, kind: word)
    requires (page + 1) * 0x2000 <= |img| && recordSeq < 0x1_0000_0000
    ensures GoodPage(WithRecord(img, page, recordSeq, length, kind), page * 0x2000)
       <==> recordSeq != 0xffff_ffff && 1 <= length <= 0x2000 && kind < 64
  {
    hide Splice;
    var at := page * 0x2000;
    var header: seq<byte>, record := [0x40, 0x00, 0x1e, 0x00], Le32(recordSeq) + Le16(length) + Le16(kind);
    var once := Splice(img, at + 0x04, header);
    var r := Splice(once, at + 0x40, record);
    SpliceAt(img, at + 0x04, header);
    SpliceAt(once, at + 0x40, record);
    assert r[at + 0x04] == header[0] && r[at + 0x05] == header[1];
    assert r[at + 0x06] == header[2] && r[at + 0x07] == header[3];
    FieldsOfRecord(recordSeq, length, kind);
    SameGoodPage(r, at, record);
  }

  lemma SpliceAt(img: seq<byte>, at: nat, data: seq<byte>)
    requires at + |data| <= |img|
    ensures forall i: nat | i < |img| ::
              Splice(img, at, data)[i] == if at <= i < at + |data| then data[i - at] else img[i]
  {
  }

  lemma FieldsOfRecord(recordSeq: nat, length: word, kind: word)
    requires recordSeq < 0x1_0000_0000
    ensures var record := Le32(recordSeq) + Le16(length) + Le16(kind);
            && (recordSeq == 0xffff_ffff
                <==> record[0] == 0xff && record[1] == 0xff && record[2] == 0xff && record[3] == 0xff)
            && record[4] as nat + 0x100 * (record[5] as nat) == length
            && record[6] as nat + 0x100 * (record[7] as nat) == kind
  {
  }

  lemma SameGoodPage(img: seq<byte>, at: nat, record: seq<byte>)
    requires at + 0x2000 <= |img| && |record| == 8
    requires forall i: nat | i < |img| && at + 0x40 <= i < at + 0x48 :: img[i] == record[i - (at + 0x40)]
    requires img[at + 4] == 0x40 && img[at + 5] == 0x00 && img[at + 6] == 0x1e && img[at + 7] == 0x00
    ensures GoodPage(img, at)
       <==> && !(record[0] == 0xff && record[1] == 0xff && record[2] == 0xff && record[3] == 0xff)
            && 1 <= record[4] as nat + 0x100 * (record[5] as nat) <= 0x2000
            && record[6] as nat + 0x100 * (record[7] as nat) < 64
  {
  }

  /** Whatever else is in it: an image with such a record is restored, in any chunks. */
  lemma ImageWithRecordIsRestored(d: Device, lucks: nat -> Luck, nvs: seq<byte>, zb: seq<byte>, page: nat,
                                  recordSeq: nat, length: word, kind: word, chunks: seq<seq<byte>>)
    requires WellSized(d) && Capacity(d) < 0x1_0000_0000 && Steady(lucks, true)
    requires |nvs| == |d.nvs.bytes| && |zb| == |d.zb.bytes| && (page + 1) * 0x2000 <= |zb|
    requires recordSeq < 0xffff_ffff && 1 <= length <= 0x2000 && kind < 64
    requires chunks != [] && chunks[|chunks| - 1] != []
    requires Concat(chunks) == nvs + WithRecord(zb, page, recordSeq, length, kind)
    ensures var r := Pushes(d, lucks, 0, 0, chunks);
            r.status == GenericOk && Contents(r.device) == Concat(chunks) && r.device.rebootPending
  {
    hide Pushes, WithRecord, GoodPage, Concat;
    var built := WithRecord(zb, page, recordSeq, length, kind);
    RecordMakesGoodPage(zb, page, recordSeq, length, kind);
    assert PassesGate(built);
    assert (nvs + built)[|nvs|..] == built;
    BufferedRestore(d, lucks, 0, [], chunks);
    assert [] + Concat(chunks) == Concat(chunks);
  }

  // ---- Any host ---------------------------------------------------------------------------------

  /** The bytes sent since the last chunk at offset 0, after one more command that was accepted. */
  function Collected(x: seq<byte>, input: seq<byte>): seq<byte>
    requires 8 <= |input|
  {
    if Word32(input, 0) == 0 then input[8..] else x + input[8..]
  }

  /** A session holds these bytes: in its image, 0xff behind them, or already in flash. */
  predicate Holding(d: Device, x: seq<byte>) {
    && d.active && d.totalSize == Capacity(d) && d.nextOffset == |x| <= Capacity(d)
    && (if d.img.Some? then d.img.value == x + Blank(Capacity(d) - |x|) else Streamed(d, x))
  }

  lemma OpenHolds(d: Device, luck: Luck, total: nat)
    requires WellSized(d) && total == Capacity(d)
    ensures var p := Open(d, luck, total); p.ok ==> Holding(p.device, [])
  {
    hide Blank, Filled;
    assert [] + Blank(Capacity(d)) == Blank(Capacity(d));
    if !luck.malloc && luck.eraseNvs.Ok? && luck.eraseZb.Ok? {
      ErasedIsFilled(d.nvs);
      ErasedIsFilled(d.zb);
      assert Streamed(Open(d, luck, total).device, []);
    }
  }

  lemma StoreHolds(d: Device, luck: Luck, x: seq<byte>, chunk: seq<byte>)
    requires WellSized(d) && Holding(d, x) && |x| + |chunk| <= Capacity(d)
    ensures var p := Store(d, luck, |x|, chunk);
            p.ok ==> Holding(p.device.(nextOffset := |x| + |chunk|), x + chunk)
  {
    hide Blank, Filled, Write, Streamed;
    if d.img.Some? {
      BlankTail(x, chunk, Capacity(d));
    } else {
      StreamingWrites(d, luck, x, chunk);
      var p := Store(d, luck, |x|, chunk);
      if p.ok {
        SameFlashStreamed(p.device, p.device.(nextOffset := |x| + |chunk|), x + chunk);
      }
    }
  }

  lemma BlankTail(x: seq<byte>, chunk: seq<byte>, n: nat)
    requires |x| + |chunk| <= n
    ensures Splice(x + Blank(n - |x|), |x|, chunk) == x + chunk + Blank(n - |x| - |chunk|)
    ensures chunk == [] ==> x + chunk == x
  {
  }

  /** A commit that reports success has put the image into flash. */
  lemma CommitHolds(d: Device, luck: Luck)
    requires WellSized(d) && d.img.Some?
    ensures var r := Commit(d, luck);
            && r.device.active == d.active
            && (r.status == GenericOk ==> Contents(r.device) == d.img.value && r.device.rebootPending)
  {
    hide Write, Blank, Erase;
    var n, image := |d.nvs.bytes|, d.img.value;
    if luck.eraseNvs.Ok? && luck.writeNvs.Ok? && luck.eraseZb.Ok? && luck.writeZb.Ok? {
      ErasedIsFilled(d.nvs);
      ErasedIsFilled(d.zb);
      WriteFills(Erase(d.nvs, Ok), [], image[..n]);
      WriteFills(Erase(d.zb, Ok), [], image[n..]);
      assert [] + image[..n] == image[..n] && [] + image[n..] == image[n..];
      assert image[..n] + Blank(0) == image[..n] && image[n..] + Blank(0) == image[n..];
      assert image[..n] + image[n..] == image;
    }
  }

  /** The session goes on with these bytes, or is over and flash holds them. */
  ghost predicate Keeps(d: Device, x: seq<byte>) {
    if d.active then Holding(d, x) else Contents(d) == x && d.rebootPending
  }

  lemma FinishKeeps(d: Device, luck: Luck, x: seq<byte>)
    requires WellSized(d) && Holding(d, x)
    ensures var r := Finish(d, luck); if r.status == GenericOk then Keeps(r.device, x) else !r.device.active
  {
    hide Commit, ImageOk, Streamed, Contents, Blank;
    if d.nextOffset >= d.totalSize {
      assert x + Blank(0) == x;
      if d.img.None? {
        SameFlashStreamed(d, d.(active := false, rebootPending := true), x);
        FullyStreamed(d.(active := false, rebootPending := true), x);
      } else {
        CommitHolds(d.(active := false), luck);
      }
    }
  }

  lemma ChunkKeeps(d: Device, luck: Luck, x: seq<byte>, chunk: seq<byte>)
    requires WellSized(d) && Holding(d, x) && |x| + |chunk| <= Capacity(d)
    ensures var r := Chunk(d, luck, |x|, chunk);
            if r.status == GenericOk then Keeps(r.device, x + chunk) else !r.device.active
  {
    hide Store, Finish, Holding, Keeps;
    StoreHolds(d, luck, x, chunk);
    var stored := Store(d, luck, |x|, chunk);
    if stored.ok {
      FinishKeeps(stored.device.(nextOffset := |x| + |chunk|), luck, x + chunk);
    }
  }

  lemma CommandKeeps(d: Device, luck: Luck, input: seq<byte>, x: seq<byte>)
    requires WellSized(d) && (d.active ==> Holding(d, x))
    ensures var r := Restores(d, luck, input);
            r.status == GenericOk ==> 8 <= |input| && Keeps(r.device, Collected(x, input))
    ensures var r := Restores(d, luck, input); r.status != GenericOk ==> !r.device.active
  {
    hide Open, Chunk, Holding, Keeps;
    if 8 <= |input| {
      var offset, total, chunk := U32(input, 0), U32(input, 4), input[8..];
      if total == Capacity(d) && offset + |chunk| <= Capacity(d) {
        if offset == 0 {
          OpenHolds(d, luck, total);
          var begun := Open(d, luck, total);
          if begun.ok {
            ChunkKeeps(begun.device, luck, [], chunk);
            assert [] + chunk == chunk;
          }
        } else if d.active && offset == d.nextOffset {
          HoldingOffset(d, x);
          ChunkKeeps(d, luck, x, chunk);
        }
      }
    }
  }

  lemma HoldingOffset(d: Device, x: seq<byte>)
    requires Holding(d, x)
    ensures d.nextOffset == |x|
  {
  }

  /** The data of the commands since the last one at offset 0, behind `x` if there is none. */
  function Gathered(x: seq<byte>, commands: seq<Command>): seq<byte>
    decreases |commands|
  {
    if commands == [] then
      x
    else
      var input := commands[0].input;
      Gathered(if |input| < 8 then x else Collected(x, input), commands[1..])
  }

  lemma {:induction false} RunHolds(d: Device, commands: seq<Command>, x: seq<byte>)
    requires WellSized(d) && (d.active ==> Holding(d, x))
    ensures var e := Runs(d, commands); e.active ==> Holding(e, Gathered(x, commands))
    decreases |commands|
  {
    hide Restores, Holding, Collected, Contents;
    if commands != [] {
      var input := commands[0].input;
      CommandKeeps(d, commands[0].luck, input, x);
      RunHolds(Restores(d, commands[0].luck, input).device, commands[1..],
               if |input| < 8 then x else Collected(x, input));
    }
  }

  /** Whatever the host sends and whatever fails: a restore that ends with success has put exactly the data of the
      commands since the last one at offset 0 into flash, in their order, on either path. */
  lemma RestoredIsWhatWasSent(boot: Device, commands: seq<Command>, luck: Luck, input: seq<byte>)
    requires Booted(boot)
    ensures var r := Restores(Runs(boot, commands), luck, input);
            r.status == GenericOk && !r.device.active ==>
              8 <= |input| && Contents(r.device) == Collected(Gathered([], commands), input) && r.device.rebootPending
  {
    hide Restores, Holding, Collected, Contents, Runs, Gathered;
    RunHolds(boot, commands, []);
    CommandKeeps(Runs(boot, commands), luck, input, Gathered([], commands));
  }

  // ---- Both -------------------------------------------------------------------------------------

  /** From any state, however the image is cut into chunks: if it passes the gate, both paths end with the same
      flash, which is the image, each byte programmed once, and with a reboot pending. */
  lemma TwoPathsOneResult(d: Device, rich: nat -> Luck, poor: nat -> Luck, chunks: seq<seq<byte>>,
                          others: seq<seq<byte>>)
    requires WellSized(d) && Capacity(d) < 0x1_0000_0000
    requires chunks != [] && chunks[|chunks| - 1] != [] && others != [] && others[|others| - 1] != []
    requires Concat(chunks) == Concat(others) && |Concat(chunks)| == Capacity(d)
    requires PassesGate(Concat(chunks)[|d.nvs.bytes|..]) && Steady(rich, true) && Steady(poor, false)
    ensures var a := Pushes(d, rich, 0, 0, chunks);
            var b := Pushes(d, poor, 0, 0, others);
            && a.status == GenericOk && b.status == GenericOk
            && a.device.nvs == b.device.nvs && a.device.zb == b.device.zb
            && Contents(a.device) == Concat(chunks)
            && AllOnce(a.device.nvs) && AllOnce(a.device.zb)
            && a.device.rebootPending && b.device.rebootPending
  {
    hide Pushes, PassesGate, Concat;
    BufferedRestore(d, rich, 0, [], chunks);
    StreamedRestore(d, poor, 0, [], others);
    assert [] + Concat(chunks) == Concat(chunks) && [] + Concat(others) == Concat(others);
    var a := Pushes(d, rich, 0, 0, chunks).device;
    var b := Pushes(d, poor, 0, 0, others).device;
    var n := |d.nvs.bytes|;
    assert Contents(a)[..n] == a.nvs.bytes && Contents(a)[n..] == a.zb.bytes;
    assert Contents(b)[..n] == b.nvs.bytes && Contents(b)[n..] == b.zb.bytes;
    assert a.nvs.programmed == b.nvs.programmed && a.zb.programmed == b.zb.programmed;
  }
}
