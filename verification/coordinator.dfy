/** The code of the two raw-flash commands and of the page's loops over them, which update the command's static
    variables and the flash in place. */
module Coordinators {
  import opened Bytes
  import opened Collections
  import opened Flash
  import opened Restore
  import opened RestorePaths
  import opened Backup

  class Coordinator {
    var nvs: Partition
    var zb: Partition
    var active: bool
    var nextOffset: nat
    var totalSize: nat
    var img: Option<seq<byte>>
    var dirty: bool
    var rebootPending: bool
    var snapshot: Option<seq<byte>>

    ghost function State(): Device
      reads this
    {
      Device(nvs, zb, active, nextOffset, totalSize, img, dirty, rebootPending)
    }

    ghost predicate Valid()
      reads this
    {
      WellSized(State()) && Fits32(Image(nvs.bytes, zb.bytes))
    }

    /** The statics as the C++ runtime initialises them. */
    constructor (nvs: Partition, zb: Partition)
      requires Sized(nvs, |nvs.bytes|) && Sized(zb, |zb.bytes|) && Fits32(Image(nvs.bytes, zb.bytes))
      requires ProgrammedOnce(nvs) && ProgrammedOnce(zb)
      ensures Valid() && Booted(State()) && this.nvs == nvs && this.zb == zb && snapshot == None
    {
      this.nvs, this.zb := nvs, zb;
      active, nextOffset, totalSize := false, 0, 0;
      img, dirty, rebootPending, snapshot := None, false, false, None;
    }

    /** restore_fail. */
    method RestoreFail(status: Status) returns (s: Status)
      requires Valid()
      modifies this`img, this`active, this`rebootPending
      ensures Valid() && Reply(State(), s) == Abort(old(State()), status)
    {
      img := None;
      active := false;
      if dirty {
        rebootPending := true;
      }
      return status;
    }

    /** The offset-0 branch; false when an erase failed. */
    method OpenSession(luck: Luck, total: nat) returns (ok: bool)
      requires Valid()
      modifies this
      ensures Valid() && Progress(State(), ok) == Open(old(State()), luck, total)
      ensures snapshot == old(snapshot) && |nvs.bytes| == |old(nvs).bytes| && |zb.bytes| == |old(zb).bytes|
    {
      img := None;
      if luck.malloc {
        img := Some(Blank(|nvs.bytes| + |zb.bytes|));
      } else {
        dirty := true;
        nvs := Erase(nvs, luck.eraseNvs);
        zb := Erase(zb, luck.eraseZb);
        if !luck.eraseNvs.Ok? || !luck.eraseZb.Ok? {
          return false;
        }
      }
      active := true;
      totalSize := total;
      nextOffset := 0;
      return true;
    }

    /** Accumulates the chunk in RAM or writes it to flash; false when a write failed. */
    method StoreChunk(luck: Luck, offset: nat, chunk: seq<byte>) returns (ok: bool)
      requires Valid() && offset + |chunk| <= |nvs.bytes| + |zb.bytes|
      modifies this`img, this`nvs, this`zb
      ensures Valid() && Progress(State(), ok) == Store(old(State()), luck, offset, chunk)
      ensures |nvs.bytes| == |old(nvs).bytes| && |zb.bytes| == |old(zb).bytes|
    {
      hide Write, Splice, Blank;
      if |chunk| == 0 {
        return true;
      }
      if img.Some? {
        img := Some(Splice(img.value, offset, chunk));
        return true;
      }
      if offset < |nvs.bytes| {
        var writeLen := |chunk|;
        if offset + writeLen > |nvs.bytes| {
          writeLen := |nvs.bytes| - offset;
        }
        nvs := Write(nvs, offset, chunk[..writeLen], luck.writeNvs);
        if luck.writeNvs.Ok? && writeLen < |chunk| {
          zb := Write(zb, 0, chunk[writeLen..], luck.writeZb);
          return luck.writeZb.Ok?;
        }
        return luck.writeNvs.Ok?;
      }
      zb := Write(zb, offset - |nvs.bytes|, chunk, luck.writeZb);
      return luck.writeZb.Ok?;
    }

    /** The commit of a gated image. */
    method CommitImage(luck: Luck) returns (status: Status)
      requires Valid() && img.Some?
      modifies this`nvs, this`zb, this`img, this`dirty, this`rebootPending
      ensures Valid() && Reply(State(), status) == Commit(old(State()), luck)
    {
      dirty := true;
      var n := |nvs.bytes|;
      nvs := Erase(nvs, luck.eraseNvs);
      zb := Erase(zb, luck.eraseZb);
      if luck.eraseNvs.Ok? {
        nvs := Write(nvs, 0, img.value[..n], luck.writeNvs);
      }
      if luck.eraseZb.Ok? {
        zb := Write(zb, 0, img.value[n..], luck.writeZb);
      }
      var ok := luck.eraseNvs.Ok? && luck.writeNvs.Ok? && luck.eraseZb.Ok? && luck.writeZb.Ok?;
      if !ok {
        zb := Erase(zb, luck.eraseAgain);
      }
      img := None;
      rebootPending := true;
      return if ok then GenericOk else OperationFailed;
    }

    /** process_immediate of RESTORE_NETWORK. */
    method RestoreNetwork(luck: Luck, input: seq<byte>) returns (status: Status)
      requires Valid()
      modifies this
      ensures Valid() && Reply(State(), status) == Restores(old(State()), luck, input)
      ensures snapshot == old(snapshot)
    {
      hide Write, Erase, Splice, ImageOk, U32, Blank, Sized;
      if |input| < 8 {
        status := RestoreFail(InvalidParameter);
        return;
      }
      var offset, total, chunk := U32(input, 0), U32(input, 4), input[8..];
      var capacity := |nvs.bytes| + |zb.bytes|;
      if !luck.found {
        status := RestoreFail(OperationFailed);
        return;
      }
      if total != capacity || offset > capacity || |chunk| > capacity - offset {
        status := RestoreFail(InvalidParameter);
        return;
      }
      if offset == 0 {
        var begun := OpenSession(luck, total);
        if !begun {
          status := RestoreFail(OperationFailed);
          return;
        }
      } else {
        if !active {
          status := RestoreFail(InvalidState);
          return;
        }
        if offset != nextOffset {
          status := RestoreFail(InvalidParameter);
          return;
        }
      }
      status := TakeChunk(luck, offset, chunk);
    }

    /** RESTORE_NETWORK from the stored chunk to the reply. */
    method TakeChunk(luck: Luck, offset: nat, chunk: seq<byte>) returns (status: Status)
      requires Valid() && offset + |chunk| <= |nvs.bytes| + |zb.bytes|
      modifies this
      ensures Valid() && Reply(State(), status) == Chunk(old(State()), luck, offset, chunk)
      ensures snapshot == old(snapshot)
    {
      hide Write, Erase, Splice, ImageOk, Blank, Sized;
      var stored := StoreChunk(luck, offset, chunk);
      if !stored {
        status := RestoreFail(OperationFailed);
        return;
      }
      nextOffset := offset + |chunk|;
      if nextOffset >= totalSize {
        active := false;
        if img.Some? {
          var ok := CheckImage(img.value[|nvs.bytes|..]);
          if ok {
            status := CommitImage(luck);
          } else {
            status := RestoreFail(OperationFailed);
          }
          return;
        }
        rebootPending := true;
      }
      return GenericOk;
    }

    /** (Re)builds the RAM snapshot; without heap or after a failed read there is none. */
    method BuildSnapshot(turn: Turn)
      modifies this`snapshot
      ensures snapshot == TakeSnapshot(Image(nvs.bytes, zb.bytes), old(snapshot), turn)
    {
      var total := |nvs.bytes| + |zb.bytes|;
      if snapshot.Some? && |snapshot.value| != total {
        snapshot := None;
      }
      if snapshot.None? && turn.malloc {
        snapshot := Some(Blank(total));
      }
      if snapshot.Some? {
        snapshot := if turn.snapshotReads then Some(nvs.bytes + zb.bytes) else None;
      }
    }

    /** process_immediate of GET_NETWORK_BACKUP. */
    method GetNetworkBackup(turn: Turn, input: seq<byte>) returns (reply: seq<byte>)
      requires Valid()
      modifies this`snapshot
      ensures Served(reply, snapshot) == Serves(Image(nvs.bytes, zb.bytes), old(snapshot), turn, input)
    {
      hide U32, Response, TakeSnapshot, DirectRead, Sized;
      var offset := 0;
      if |input| >= 4 {
        offset := U32(input, 0);
      }
      if !turn.found {
        return Response(false, 0, 0, []);
      }
      var total := |nvs.bytes| + |zb.bytes|;
      if offset == 0 {
        if !turn.joined || turn.panId == 0xffff {
          snapshot := None;
          return Response(false, 0, 0, []);
        }
        BuildSnapshot(turn);
      }
      var len := CHUNK_SIZE;
      if offset >= total {
        len := 0;
      } else if offset + len > total {
        len := total - offset;
      }
      var data: seq<byte> := [];
      if len > 0 {
        if snapshot.Some? && offset + len <= |snapshot.value| {
          data := snapshot.value[offset..offset + len];
        } else {
          if !turn.directReads {
            return Response(false, total, 0, []);
          }
          data := DirectRead(Image(nvs.bytes, zb.bytes), offset, len);
        }
      }
      if offset + len >= total {
        snapshot := None;
      }
      return Response(true, total, len, data);
    }

    /** The loop of doRestore, after its check of the image size; false when it throws. */
    method DoRestore(lucks: nat -> Luck, raw: seq<byte>) returns (done: bool)
      requires Valid() && |raw| == |nvs.bytes| + |zb.bytes|
      modifies this
      ensures Valid()
      ensures var r := Pushes(old(State()), lucks, 0, 0, Split(raw));
              State() == r.device && (done <==> r.status == GenericOk)
    {
      hide Restores, Input, Sized, Pushes, Split;
      ghost var start := State();
      var offset, n: nat := 0, 0;
      assert raw[0..] == raw;
      while offset < |raw|
        invariant Valid() && 0 <= offset <= |raw| == |nvs.bytes| + |zb.bytes|
        invariant Pushes(start, lucks, 0, 0, Split(raw)) == Pushes(State(), lucks, n, offset, Split(raw[offset..]))
      {
        ghost var rest := raw[offset..];
        var end := if offset + CHUNK_SIZE < |raw| then offset + CHUNK_SIZE else |raw|;
        var chunk := raw[offset..end];
        SplitStep(raw, offset, end);
        PushesStep(State(), lucks, n, offset, Split(rest));
        var status := RestoreNetwork(lucks(n), Input(offset, |raw|, chunk));
        if status != GenericOk {
          return false;
        }
        offset, n := offset + |chunk|, n + 1;
      }
      SplitNothing();
      PushesDone(State(), lucks, n, offset, Split(raw[offset..]));
      return true;
    }
  }

  lemma PushesStep(d: Device, lucks: nat -> Luck, n: nat, at: nat, chunks: seq<seq<byte>>)
    requires WellSized(d) && Capacity(d) < 0x1_0000_0000 && at + |Concat(chunks)| <= Capacity(d) && chunks != []
    ensures Concat(chunks) == chunks[0] + Concat(chunks[1..])
    ensures var r := Restores(d, lucks(n), Input(at, Capacity(d), chunks[0]));
            Pushes(d, lucks, n, at, chunks)
              == if r.status != GenericOk then r else Pushes(r.device, lucks, n + 1, at + |chunks[0]|, chunks[1..])
  {
    hide Restores, Input;
  }

  lemma PushesDone(d: Device, lucks: nat -> Luck, n: nat, at: nat, chunks: seq<seq<byte>>)
    requires WellSized(d) && Capacity(d) < 0x1_0000_0000 && at == Capacity(d) && Concat(chunks) == []
    requires chunks == []
    ensures Pushes(d, lucks, n, at, chunks) == Reply(d, GenericOk)
  {
  }

  lemma SplitNothing()
    ensures Split([]) == []
  {
  }

  lemma SplitStep(raw: seq<byte>, offset: nat, end: nat)
    requires offset < |raw| && end == if offset + CHUNK_SIZE < |raw| then offset + CHUNK_SIZE else |raw|
    ensures var chunks := Split(raw[offset..]);
            chunks != [] && chunks[0] == raw[offset..end] && chunks[1..] == Split(raw[end..])
  {
    var rest := raw[offset..];
    var n := end - offset;
    assert rest[..n] == raw[offset..end] && rest[n..] == raw[end..];
    assert Split(rest) == [rest[..n]] + Split(rest[n..]);
  }
}
