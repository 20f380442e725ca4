/** RESTORE_NETWORK of main/commands_impl.h: a session machine that rewrites two flash partitions from chunks. With
    enough heap the image is collected in RAM, gated and committed at the end; without, flash is erased first and
    the chunks are streamed into it. */
module Restore {
  import opened Bytes
  import opened Collections
  import opened Flash

  datatype Status = GenericOk | InvalidParameter | OperationFailed | InvalidState

  // ---- The gate ---------------------------------------------------------------------------------

  const ZB_NVRAM_PAGE_SZ := 0x2000
  const ZB_NVRAM_PAGE_MAGIC := 0x001e_0040

  /** zb_nvram_page_class: 0 garbage, 1 an empty page, 2 a page with a well-formed record. The page's version
      fields are read but never refused. */
  function PageClass(p: seq<byte>): (c: nat)
    requires |p| == ZB_NVRAM_PAGE_SZ
    ensures c <= 2
  {
    if U32(p, 0x04) != ZB_NVRAM_PAGE_MAGIC then
      0
    else
      var recordSeq, rlen, rtype := U32(p, 0x40), U16(p, 0x44), U16(p, 0x46);
      if recordSeq == 0xffff_ffff || rlen == 0xffff then 1
      else if rlen == 0 || rlen > ZB_NVRAM_PAGE_SZ then 0
      else if rtype >= 64 then 0
      else 2
  }

  predicate HasRecord(img: seq<byte>, page: nat) {
    (page + 1) * ZB_NVRAM_PAGE_SZ <= |img| &&
    PageClass(img[page * ZB_NVRAM_PAGE_SZ..(page + 1) * ZB_NVRAM_PAGE_SZ]) == 2
  }

  /** zb_storage_image_ok: some whole page holds a well-formed record. */
  predicate ImageOk(img: seq<byte>) {
    exists page: nat :: page < |img| / ZB_NVRAM_PAGE_SZ && HasRecord(img, page)
  }

  /** Byte by byte: at `at` begins a whole page with the magic 40 00 1e 00, a written sequence number, a record length
      from 1 to 0x2000 and a type below 64. */
  predicate GoodPage(img: seq<byte>, at: nat) {
    && at + 0x2000 <= |img|
    && img[at + 4] == 0x40 && img[at + 5] == 0x00 && img[at + 6] == 0x1e && img[at + 7] == 0x00
    && !(img[at + 0x40] == 0xff && img[at + 0x41] == 0xff && img[at + 0x42] == 0xff && img[at + 0x43] == 0xff)
    && 1 <= (img[at + 0x44] as nat) + 0x100 * (img[at + 0x45] as nat) <= 0x2000
    && (img[at + 0x46] as nat) + 0x100 * (img[at + 0x47] as nat) < 64
  }

  /** What an image must have to be restored. */
  predicate PassesGate(img: seq<byte>) {
    exists page: nat :: page < |img| && GoodPage(img, page * 0x2000)
  }

  lemma PageIsGood(img: seq<byte>, page: nat)
    ensures HasRecord(img, page) <==> GoodPage(img, page * 0x2000)
  {
    if (page + 1) * ZB_NVRAM_PAGE_SZ <= |img| {
      var p := img[page * ZB_NVRAM_PAGE_SZ..(page + 1) * ZB_NVRAM_PAGE_SZ];
      assert forall i: nat | i < 0x2000 :: p[i] == img[page * 0x2000 + i];
    }
  }

  /** The loop over the pages accepts exactly these images. */
  lemma GateOnBytes(img: seq<byte>)
    ensures ImageOk(img) <==> PassesGate(img)
  {
    hide HasRecord, GoodPage;
    if ImageOk(img) {
      var page: nat :| page < |img| / ZB_NVRAM_PAGE_SZ && HasRecord(img, page);
      PageIsGood(img, page);
    }
    if PassesGate(img) {
      var page: nat :| page < |img| && GoodPage(img, page * 0x2000);
      PageIsGood(img, page);
      WholePage(img, page);
    }
  }

  lemma WholePage(img: seq<byte>, page: nat)
    requires GoodPage(img, page * 0x2000)
    ensures page < |img| / ZB_NVRAM_PAGE_SZ
  {
  }

  method CheckImage(img: seq<byte>) returns (ok: bool)
    ensures ok == ImageOk(img) && ok == PassesGate(img)
  {
    GateOnBytes(img);
    ok := false;
    var off: nat, page: nat := 0, 0;
    while off + ZB_NVRAM_PAGE_SZ <= |img|
      invariant off == page * ZB_NVRAM_PAGE_SZ && off <= |img|
      invariant ok == exists p: nat :: p < page && HasRecord(img, p)
    {
      if PageClass(img[off..off + ZB_NVRAM_PAGE_SZ]) >= 2 {
        assert HasRecord(img, page);
        ok := true;
      }
      off, page := off + ZB_NVRAM_PAGE_SZ, page + 1;
    }
  }

  /** Erased flash and an all-zero upload are refused, whatever their size. */
  lemma UniformImageRefused(img: seq<byte>, b: byte)
    requires b == 0x00 || b == 0xff
    requires forall i: nat | i < |img| :: img[i] == b
    ensures !PassesGate(img)
  {
    GateOnBytes(img);
    forall page: nat | page < |img| / ZB_NVRAM_PAGE_SZ
      ensures !HasRecord(img, page)
    {
      if (page + 1) * ZB_NVRAM_PAGE_SZ <= |img| {
        var p := img[page * ZB_NVRAM_PAGE_SZ..(page + 1) * ZB_NVRAM_PAGE_SZ];
        assert p[4] == b && p[5] == b && p[6] == b && p[7] == b;
      }
    }
  }

  // ---- The session machine ----------------------------------------------------------------------

  /** The two partitions and the static state of the command. */
  datatype Device = Device(nvs: Partition, zb: Partition, active: bool, nextOffset: nat, totalSize: nat,
                           img: Option<seq<byte>>, dirty: bool, rebootPending: bool)

  /** What the environment decides for one command: whether the partitions are found, whether the image buffer can
      be allocated, how each flash operation ends. */
  datatype Luck = Luck(found: bool, malloc: bool, eraseNvs: Op, eraseZb: Op, writeNvs: Op, writeZb: Op, eraseAgain: Op)

  datatype Reply = Reply(device: Device, status: Status)

  /** The device, and whether the command goes on. */
  datatype Progress = Progress(device: Device, ok: bool)

  predicate WellSized(d: Device) {
    && Sized(d.nvs, |d.nvs.bytes|) && Sized(d.zb, |d.zb.bytes|)
    && (d.img.Some? ==> |d.img.value| == |d.nvs.bytes| + |d.zb.bytes|)
  }

  predicate SameSizes(d: Device, e: Device) {
    |d.nvs.bytes| == |e.nvs.bytes| && |d.zb.bytes| == |e.zb.bytes| && WellSized(e)
  }

  function Capacity(d: Device): nat {
    |d.nvs.bytes| + |d.zb.bytes|
  }

  /** restore_fail. */
  function Abort(d: Device, status: Status): Reply {
    Reply(d.(img := None, active := false, rebootPending := d.rebootPending || d.dirty), status)
  }

  /** The chunk at offset 0 opens a session, dropping any other. */
  function Open(d: Device, luck: Luck, total: nat): (p: Progress)
    requires WellSized(d)
    ensures SameSizes(d, p.device)
  {
    var open := d.(active := true, totalSize := total, nextOffset := 0);
    if luck.malloc then
      Progress(open.(img := Some(Blank(Capacity(d)))), true)
    else
      var nvs, zb := Erase(d.nvs, luck.eraseNvs), Erase(d.zb, luck.eraseZb);
      if luck.eraseNvs.Ok? && luck.eraseZb.Ok? then
        Progress(open.(img := None, dirty := true, nvs := nvs, zb := zb), true)
      else
        Progress(d.(img := None, dirty := true, nvs := nvs, zb := zb), false)
  }

  function Splice(img: seq<byte>, at: nat, chunk: seq<byte>): (r: seq<byte>)
    requires at + |chunk| <= |img|
    ensures |r| == |img|
  {
    img[..at] + chunk + img[at + |chunk|..]
  }

  /** The chunk goes into the RAM image, or to flash, split at the boundary of the two partitions. */
  function Store(d: Device, luck: Luck, offset: nat, chunk: seq<byte>): (p: Progress)
    requires WellSized(d) && offset + |chunk| <= Capacity(d)
    ensures SameSizes(d, p.device)
  {
    var n := |d.nvs.bytes|;
    if chunk == [] then
      Progress(d, true)
    else if d.img.Some? then
      Progress(d.(img := Some(Splice(d.img.value, offset, chunk))), true)
    else if offset < n then
      var split := if offset + |chunk| > n then n - offset else |chunk|;
      var e := d.(nvs := Write(d.nvs, offset, chunk[..split], luck.writeNvs));
      if luck.writeNvs.Ok? && split < |chunk| then
        Progress(e.(zb := Write(d.zb, 0, chunk[split..], luck.writeZb)), luck.writeZb.Ok?)
      else
        Progress(e, luck.writeNvs.Ok?)
    else
      Progress(d.(zb := Write(d.zb, offset - n, chunk, luck.writeZb)), luck.writeZb.Ok?)
  }

  /** The gated image replaces both partitions; a half that cannot be erased is not written, and after any failure
      zb_storage is erased once more. */
  function Commit(d: Device, luck: Luck): (r: Reply)
    requires WellSized(d) && d.img.Some?
    ensures SameSizes(d, r.device)
  {
    var n := |d.nvs.bytes|;
    var nvs := Erase(d.nvs, luck.eraseNvs);
    var zb := Erase(d.zb, luck.eraseZb);
    var written := if luck.eraseNvs.Ok? then Write(nvs, 0, d.img.value[..n], luck.writeNvs) else nvs;
    var writtenZb := if luck.eraseZb.Ok? then Write(zb, 0, d.img.value[n..], luck.writeZb) else zb;
    var done := d.(img := None, dirty := true, rebootPending := true, nvs := written, zb := writtenZb);
    if luck.eraseNvs.Ok? && luck.writeNvs.Ok? && luck.eraseZb.Ok? && luck.writeZb.Ok? then
      Reply(done, GenericOk)
    else
      Reply(done.(zb := Erase(writtenZb, luck.eraseAgain)), OperationFailed)
  }

  function Finish(d: Device, luck: Luck): (r: Reply)
    requires WellSized(d)
    ensures SameSizes(d, r.device)
  {
    if d.nextOffset < d.totalSize then
      Reply(d, GenericOk)
    else
      var closed := d.(active := false);
      if d.img.None? then
        Reply(closed.(rebootPending := true), GenericOk)
      else if !ImageOk(d.img.value[|d.nvs.bytes|..]) then
        Abort(closed, OperationFailed)
      else
        Commit(closed, luck)
  }

  function Chunk(d: Device, luck: Luck, offset: nat, chunk: seq<byte>): (r: Reply)
    requires WellSized(d) && offset + |chunk| <= Capacity(d)
    ensures SameSizes(d, r.device)
  {
    var stored := Store(d, luck, offset, chunk);
    if !stored.ok then
      Abort(stored.device, OperationFailed)
    else
      Finish(stored.device.(nextOffset := offset + |chunk|), luck)
  }

  /** process_immediate of RESTORE_NETWORK. */
  function Restores(d: Device, luck: Luck, input: seq<byte>): (r: Reply)
    requires WellSized(d)
    ensures SameSizes(d, r.device)
  {
    if |input| < 8 then
      Abort(d, InvalidParameter)
    else
      var offset, total, chunk := U32(input, 0), U32(input, 4), input[8..];
      if !luck.found then
        Abort(d, OperationFailed)
      else if total != Capacity(d) then
        Abort(d, InvalidParameter)
      else if offset > Capacity(d) || |chunk| > Capacity(d) - offset then
        Abort(d, InvalidParameter)
      else if offset == 0 then
        var begun := Open(d, luck, total);
        if begun.ok then Chunk(begun.device, luck, 0, chunk) else Abort(begun.device, OperationFailed)
      else if !d.active then
        Abort(d, InvalidState)
      else if offset != d.nextOffset then
        Abort(d, InvalidParameter)
      else
        Chunk(d, luck, offset, chunk)
  }

  // ---- Which commands are refused ---------------------------------------------------------------

  /** The command ends with this status, flash untouched: the session and the image are gone, and the device reboots
      only if flash was touched before. */
  predicate Refused(d: Device, r: Reply, status: Status) {
    && r.status == status && r.device.nvs == d.nvs && r.device.zb == d.zb && r.device.dirty == d.dirty
    && !r.device.active && r.device.img.None? && (r.device.rebootPending <==> d.rebootPending || d.dirty)
  }

  /** Four little-endian bytes. */
  function Word32(s: seq<byte>, at: nat): nat
    requires at + 4 <= |s|
  {
    s[at] as nat + 0x100 * (s[at + 1] as nat) + 0x1_0000 * (s[at + 2] as nat) + 0x100_0000 * (s[at + 3] as nat)
  }

  /** What is refused before anything is stored, in this order: a short frame, a missing partition, another size, a
      chunk that leaves the image, and behind offset 0 a chunk without a session or not at the offset that is due. */
  lemma RefusedFirst(d: Device, luck: Luck, input: seq<byte>)
    requires WellSized(d)
    ensures var r := Restores(d, luck, input);
            if |input| < 8 then
              Refused(d, r, InvalidParameter)
            else if !luck.found then
              Refused(d, r, OperationFailed)
            else
              var offset, total, size := Word32(input, 0), Word32(input, 4), |input| - 8;
              if total != |d.nvs.bytes| + |d.zb.bytes| || total < offset + size then
                Refused(d, r, InvalidParameter)
              else
                && (offset != 0 && !d.active ==> Refused(d, r, InvalidState))
                && (offset != 0 && d.active && offset != d.nextOffset ==> Refused(d, r, InvalidParameter))
  {
    hide Open, Chunk;
  }

  /** A commit in which an erase or a write fails is refused, reboots, and leaves no half-written network: zb_storage
      is blank if its last erase succeeds. */
  lemma FailedCommitBlanks(d: Device, luck: Luck)
    requires WellSized(d) && d.img.Some?
    ensures var r := Commit(d, luck);
            && (r.status == GenericOk
                <==> luck.eraseNvs == Ok && luck.writeNvs == Ok && luck.eraseZb == Ok && luck.writeZb == Ok)
            && r.device.rebootPending && r.device.dirty && r.device.img == None
            && (r.status != GenericOk ==>
                  && r.status == OperationFailed
                  && (luck.eraseAgain == Ok ==>
                        forall i: nat | i < |r.device.zb.bytes| :: r.device.zb.bytes[i] == 0xff))
  {
    hide Write;
  }

  // ---- Safety over all command runs -------------------------------------------------------------

  /** The part of both partitions that a streaming session has filled so far. */
  function NvsPart(x: seq<byte>, n: nat): seq<byte> {
    if |x| <= n then x else x[..n]
  }

  function ZbPart(x: seq<byte>, n: nat): seq<byte> {
    if |x| <= n then [] else x[n..]
  }

  predicate Streamed(d: Device, x: seq<byte>) {
    && |x| <= Capacity(d)
    && Filled(d.nvs, NvsPart(x, |d.nvs.bytes|)) && Filled(d.zb, ZbPart(x, |d.nvs.bytes|))
  }

  /** `boot` is the device at boot. A clear latch means untouched flash; no byte is ever programmed twice without
      an erase in between. */
  predicate FlashSafe(boot: Device, d: Device) {
    && WellSized(boot) && SameSizes(boot, d)
    && (!d.dirty ==> d.nvs == boot.nvs && d.zb == boot.zb)
    && (d.rebootPending ==> d.dirty)
    && ProgrammedOnce(d.nvs) && ProgrammedOnce(d.zb)
  }

  /** A session without RAM image has streamed the bytes before nextOffset. */
  ghost predicate InSession(d: Device) {
    && d.active && d.totalSize == Capacity(d) && d.nextOffset <= d.totalSize
    && (d.img.None? ==> d.dirty && exists x: seq<byte> :: |x| == d.nextOffset && Streamed(d, x))
  }

  /** Besides, a set latch means a session or a pending reboot, and a RAM image lives only in a session. */
  ghost predicate Safe(boot: Device, d: Device) {
    && FlashSafe(boot, d)
    && (d.dirty ==> d.active || d.rebootPending)
    && (d.img.Some? ==> d.active)
    && (d.active ==> InSession(d))
  }

  /** Right after boot: no session, and nothing is known of the flash but that no byte has been programmed twice. */
  predicate Booted(d: Device) {
    && WellSized(d) && ProgrammedOnce(d.nvs) && ProgrammedOnce(d.zb)
    && !d.active && d.img.None? && !d.dirty && !d.rebootPending
  }

  /** How a command may end: a refusal leaves no session and no image, and a reboot is under way if flash was
      touched. */
  ghost predicate GoodReply(boot: Device, r: Reply) {
    && Safe(boot, r.device)
    && (r.status != GenericOk ==> !r.device.active && r.device.img.None? && (r.device.dirty ==> r.device.rebootPending))
  }

  lemma AbortIsGood(boot: Device, d: Device, status: Status)
    requires FlashSafe(boot, d)
    ensures GoodReply(boot, Abort(d, status))
  {
  }

  lemma OpenIsGood(boot: Device, d: Device, luck: Luck, total: nat)
    requires FlashSafe(boot, d) && total == Capacity(d)
    ensures var p := Open(d, luck, total);
            FlashSafe(boot, p.device) && (p.ok ==> InSession(p.device) && p.device.nextOffset == 0)
  {
    hide And, Blank;
    if !luck.malloc && luck.eraseNvs.Ok? && luck.eraseZb.Ok? {
      ErasedIsFilled(d.nvs);
      ErasedIsFilled(d.zb);
      assert Streamed(Open(d, luck, total).device, []);
    }
  }

  lemma StreamingWrites(d: Device, luck: Luck, x: seq<byte>, chunk: seq<byte>)
    requires WellSized(d) && d.img.None? && Streamed(d, x) && |x| + |chunk| <= Capacity(d)
    ensures var p := Store(d, luck, |x|, chunk);
            && ProgrammedOnce(p.device.nvs) && ProgrammedOnce(p.device.zb)
            && (p.ok ==> Streamed(p.device, x + chunk))
            && (luck.writeNvs.Ok? && luck.writeZb.Ok? ==> p.ok)
  {
    hide And, Blank, Filled, Write;
    var n := |d.nvs.bytes|;
    FilledOnce(d.nvs, NvsPart(x, n));
    FilledOnce(d.zb, ZbPart(x, n));
    if chunk == [] {
      assert x + chunk == x;
    } else if |x| < n {
      var split := if |x| + |chunk| > n then n - |x| else |chunk|;
      WriteOnce(d.nvs, x, chunk[..split], luck.writeNvs);
      assert NvsPart(x + chunk, n) == x + chunk[..split];
      assert ZbPart(x + chunk, n) == [] + chunk[split..];
      if luck.writeNvs.Ok? {
        WriteFills(d.nvs, x, chunk[..split]);
        if split < |chunk| {
          WriteOnce(d.zb, [], chunk[split..], luck.writeZb);
          if luck.writeZb.Ok? {
            WriteFills(d.zb, [], chunk[split..]);
          }
        }
      }
    } else {
      assert |ZbPart(x, n)| == |x| - n;
      WriteOnce(d.zb, ZbPart(x, n), chunk, luck.writeZb);
      assert NvsPart(x + chunk, n) == NvsPart(x, n);
      assert ZbPart(x + chunk, n) == ZbPart(x, n) + chunk;
      if luck.writeZb.Ok? {
        WriteFills(d.zb, ZbPart(x, n), chunk);
      }
    }
  }

  lemma FilledOnce(p: Partition, x: seq<byte>)
    requires Filled(p, x)
    ensures ProgrammedOnce(p)
  {
  }

  lemma CommitIsGood(boot: Device, d: Device, luck: Luck)
    requires FlashSafe(boot, d) && d.img.Some? && !d.active
    ensures GoodReply(boot, Commit(d, luck))
  {
    hide And, Blank, Filled, Write, Erase;
    var n := |d.nvs.bytes|;
    var nvs, zb := Erase(d.nvs, luck.eraseNvs), Erase(d.zb, luck.eraseZb);
    if luck.eraseNvs.Ok? {
      ErasedIsFilled(d.nvs);
      WriteOnce(nvs, [], d.img.value[..n], luck.writeNvs);
    }
    if luck.eraseZb.Ok? {
      ErasedIsFilled(d.zb);
      WriteOnce(zb, [], d.img.value[n..], luck.writeZb);
    }
  }

  lemma FinishIsGood(boot: Device, d: Device, luck: Luck)
    requires FlashSafe(boot, d) && InSession(d)
    ensures GoodReply(boot, Finish(d, luck))
  {
    hide Commit, ImageOk, Streamed, ProgrammedOnce;
    if d.nextOffset >= d.totalSize && d.img.Some? {
      AbortIsGood(boot, d.(active := false), OperationFailed);
      CommitIsGood(boot, d.(active := false), luck);
    }
  }

  lemma ChunkIsGood(boot: Device, d: Device, luck: Luck, offset: nat, chunk: seq<byte>)
    requires FlashSafe(boot, d) && InSession(d) && d.nextOffset == offset && offset + |chunk| <= Capacity(d)
    ensures GoodReply(boot, Chunk(d, luck, offset, chunk))
  {
    hide Streamed, Finish, ProgrammedOnce, Write, Splice;
    var stored := Store(d, luck, offset, chunk);
    if d.img.None? {
      var x: seq<byte> :| |x| == offset && Streamed(d, x);
      StreamingWrites(d, luck, x, chunk);
      if stored.ok {
        SameFlashStreamed(stored.device, stored.device.(nextOffset := offset + |chunk|), x + chunk);
      }
    }
    if stored.ok {
      FinishIsGood(boot, stored.device.(nextOffset := offset + |chunk|), luck);
    } else {
      AbortIsGood(boot, stored.device, OperationFailed);
    }
  }

  lemma SameFlashStreamed(d: Device, e: Device, x: seq<byte>)
    requires Streamed(d, x) && e.nvs == d.nvs && e.zb == d.zb
    ensures Streamed(e, x)
  {
  }

  /** Whatever the host sends and however flash and heap behave, every command keeps the device safe. */
  lemma CommandIsGood(boot: Device, d: Device, luck: Luck, input: seq<byte>)
    requires Safe(boot, d)
    ensures GoodReply(boot, Restores(d, luck, input))
  {
    hide InSession, FlashSafe, GoodReply, Open, Chunk;
    AbortIsGood(boot, d, InvalidParameter);
    AbortIsGood(boot, d, OperationFailed);
    AbortIsGood(boot, d, InvalidState);
    SafeSizes(boot, d);
    if 8 <= |input| {
      var offset, total, chunk := U32(input, 0), U32(input, 4), input[8..];
      if total == Capacity(d) && offset + |chunk| <= Capacity(d) {
        if offset == 0 {
          OpenIsGood(boot, d, luck, total);
          var begun := Open(d, luck, total);
          AbortIsGood(boot, begun.device, OperationFailed);
          if begun.ok {
            ChunkIsGood(boot, begun.device, luck, 0, chunk);
          }
        } else if d.active && offset == d.nextOffset {
          ChunkIsGood(boot, d, luck, offset, chunk);
        }
      }
    }
  }

  lemma SafeSizes(boot: Device, d: Device)
    requires Safe(boot, d)
    ensures FlashSafe(boot, d) && WellSized(d)
  {
  }

  datatype Command = Command(luck: Luck, input: seq<byte>)

  /** The device after some commands, until the reboot. */
  function Runs(d: Device, commands: seq<Command>): (e: Device)
    requires WellSized(d)
    ensures SameSizes(d, e)
    decreases |commands|
  {
    if commands == [] then d else Runs(Restores(d, commands[0].luck, commands[0].input).device, commands[1..])
  }

  lemma {:induction false} RunsAreSafe(boot: Device, d: Device, commands: seq<Command>)
    requires Safe(boot, d)
    ensures WellSized(d) && Safe(boot, Runs(d, commands))
    decreases |commands|
  {
    hide InSession, FlashSafe, Restores;
    SafeSizes(boot, d);
    if commands != [] {
      CommandIsGood(boot, d, commands[0].luck, commands[0].input);
      RunsAreSafe(boot, Restores(d, commands[0].luck, commands[0].input).device, commands[1..]);
    }
  }

  /** Over every run of commands since boot: untouched flash while the latch is clear; a session or a pending reboot
      once it is set; the RAM image only in a session; every byte programmed at most once per erase; and a last
      command that was refused leaves a pending reboot unless flash is untouched. */
  lemma RestoreSafety(boot: Device, commands: seq<Command>, luck: Luck, input: seq<byte>)
    requires Booted(boot)
    ensures var d := Runs(boot, commands);
            var r := Restores(d, luck, input);
            var e := r.device;
            && (!e.dirty ==> e.nvs == boot.nvs && e.zb == boot.zb)
            && (e.dirty ==> e.active || e.rebootPending)
            && (e.img.Some? ==> e.active)
            && ProgrammedOnce(e.nvs) && ProgrammedOnce(e.zb)
            && (r.status != GenericOk ==> !e.active && e.img.None? && (e.dirty ==> e.rebootPending))
  {
    hide InSession, Restores, Runs, ProgrammedOnce;
    RunsAreSafe(boot, boot, commands);
    CommandIsGood(boot, Runs(boot, commands), luck, input);
  }
}
