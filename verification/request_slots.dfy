/** The table of requests in flight, request_cmd_resolver of main/commands_helpers.h: sixteen slots shared by the
    application task and the ZBOSS task, each method one critical section under the resolver mutex. */
module RequestSlots {
  import opened Collections

  const MAX_PARALLEL_REQUESTS := 16
  const SIZE_MAX := 0xffff_ffff

  datatype SlotState = Free | Allocation | Exec

  /** `cmd` is the header of the host's request, `number` the `old` field: the number of the allocation. */
  datatype Slot = Slot(state: SlotState, cmd: nat, number: nat, tExec: nat, tsn: nat)

  // ---- Which slot a new request gets ------------------------------------------------------------

  /** The first free slot at or after `i`. */
  function FreeFrom(slots: seq<Slot>, i: nat): (r: Option<nat>)
    requires i <= |slots|
    ensures r.None? <==> forall j | i <= j < |slots| :: slots[j].state != Free
    ensures r.Some? ==> i <= r.value < |slots| && slots[r.value].state == Free
    ensures r.Some? ==> forall j | i <= j < r.value :: slots[j].state != Free
    decreases |slots| - i
  {
    if i == |slots| then None else if slots[i].state == Free then Some(i) else FreeFrom(slots, i + 1)
  }

  function Age(slots: seq<Slot>, r: Option<nat>): (n: nat)
    requires r.Some? ==> r.value < |slots|
  {
    if r.None? then SIZE_MAX else slots[r.value].number
  }

  /** Among the first `n` slots, the executing one with the smallest allocation number below SIZE_MAX. */
  function OldestOf(slots: seq<Slot>, n: nat): (r: Option<nat>)
    requires n <= |slots|
    ensures r.None? <==> forall j | 0 <= j < n :: slots[j].state == Exec ==> SIZE_MAX <= slots[j].number
    ensures r.Some? ==> r.value < n && slots[r.value].state == Exec && slots[r.value].number < SIZE_MAX
    ensures forall j | 0 <= j < n :: slots[j].state == Exec ==> Age(slots, r) <= slots[j].number
  {
    if n == 0 then
      None
    else
      var r := OldestOf(slots, n - 1);
      if slots[n - 1].state == Exec && slots[n - 1].number < Age(slots, r) then Some(n - 1) else r
  }

  /** The slot start_resolve claims. */
  function Choose(slots: seq<Slot>): (r: Option<nat>)
    ensures r.Some? ==> r.value < |slots| && slots[r.value].state != Allocation
  {
    var free := FreeFrom(slots, 0);
    if free.Some? then free else OldestOf(slots, |slots|)
  }

  function Claimed(slots: seq<Slot>, i: nat, cmd: nat, number: nat): (r: seq<Slot>)
    requires i < |slots|
    ensures |r| == |slots|
  {
    slots[i := slots[i].(cmd := cmd, number := number, state := Allocation)]
  }

  /** A request is refused only when every slot is being allocated; a running request is overridden only when no
      slot is free, and then it is the one with the smallest allocation number. */
  lemma ChoiceIsOldest(slots: seq<Slot>)
    requires forall i | 0 <= i < |slots| && slots[i].state == Exec :: slots[i].number < SIZE_MAX
    ensures Choose(slots).None? <==> forall i | 0 <= i < |slots| :: slots[i].state == Allocation
    ensures var r := Choose(slots);
            r.Some? && slots[r.value].state == Exec ==>
              && (forall i | 0 <= i < |slots| :: slots[i].state != Free)
              && (forall i | 0 <= i < |slots| && slots[i].state == Exec :: slots[r.value].number <= slots[i].number)
    ensures var r := Choose(slots);
            r.Some? && slots[r.value].state == Free ==> forall i | 0 <= i < r.value :: slots[i].state != Free
  {
    var free := FreeFrom(slots, 0);
    if free.None? {
      var r := OldestOf(slots, |slots|);
      assert forall i | 0 <= i < |slots| :: slots[i].state != Free;
    }
  }

  // ---- Which slot an answer belongs to ----------------------------------------------------------

  /** The first executing slot with this sequence number, at or after `i`. */
  function ByTsnFrom(slots: seq<Slot>, tsn: nat, i: nat): (r: Option<nat>)
    requires i <= |slots|
    ensures r.None? <==> forall j | i <= j < |slots| :: !(slots[j].state == Exec && slots[j].tsn == tsn)
    ensures r.Some? ==> i <= r.value < |slots| && slots[r.value].state == Exec && slots[r.value].tsn == tsn
    ensures r.Some? ==> forall j | i <= j < r.value :: !(slots[j].state == Exec && slots[j].tsn == tsn)
    decreases |slots| - i
  {
    if i == |slots| then
      None
    else if slots[i].state == Exec && slots[i].tsn == tsn then
      Some(i)
    else
      ByTsnFrom(slots, tsn, i + 1)
  }

  predicate Carries(slots: seq<Slot>, idx: nat, number: nat) {
    idx < |slots| && slots[idx].state == Exec && slots[idx].number == number
  }

  function Freed(slots: seq<Slot>, i: nat): (r: seq<Slot>)
    requires i < |slots|
    ensures |r| == |slots|
  {
    slots[i := slots[i].(state := Free)]
  }

  /** The table after do_request: slot `idx` executes under its sequence number since `now`, or is free again when
      sending failed. */
  function Published(slots: seq<Slot>, idx: nat, tsn: Option<nat>, now: nat): (r: seq<Slot>)
    requires idx < |slots|
    ensures |r| == |slots|
  {
    slots[idx := if tsn.Some? then slots[idx].(tsn := tsn.value, tExec := now, state := Exec)
                 else slots[idx].(state := Free)]
  }

  // ---- The watchdog -----------------------------------------------------------------------------

  /** Elapsed ticks on a 32-bit tick counter. */
  function Elapsed(now: nat, since: nat): (t: nat)
    ensures t < 0x1_0000_0000
  {
    (now - since) % 0x1_0000_0000
  }

  predicate Stale(s: Slot, now: nat, timeout: nat) {
    s.state == Exec && timeout <= Elapsed(now, s.tExec)
  }

  function Swept(slots: seq<Slot>, now: nat, timeout: nat): (r: seq<Slot>)
    ensures |r| == |slots|
    ensures forall i: nat | i < |slots| ::
              r[i] == if Stale(slots[i], now, timeout) then slots[i].(state := Free) else slots[i]
  {
    seq(|slots|, i requires 0 <= i < |slots| =>
      if Stale(slots[i], now, timeout) then slots[i].(state := Free) else slots[i])
  }

  /** What publishing is for. A published slot is found under its own allocation number and no other, under its
      sequence number unless an earlier slot executes under the same one, and by the watchdog from the timeout on;
      after a failed send it is what the next request gets unless an earlier slot is free. No other slot changes. */
  lemma PublishedIsTaken(slots: seq<Slot>, idx: nat, tsn: Option<nat>, now: nat, number: nat, at: nat, timeout: nat)
    requires idx < |slots| && slots[idx].state == Allocation
    ensures var r := Published(slots, idx, tsn, now);
            && (Carries(r, idx, number) <==> tsn.Some? && number == slots[idx].number)
            && (Stale(r[idx], at, timeout) <==> tsn.Some? && timeout <= Elapsed(at, now))
            && (forall j: nat | j < |slots| && j != idx :: r[j] == slots[j])
    ensures tsn.Some? ==>
              (ByTsnFrom(Published(slots, idx, tsn, now), tsn.value, 0) == Some(idx)
               <==> forall j: nat | j < idx :: !(slots[j].state == Exec && slots[j].tsn == tsn.value))
    ensures tsn.None? ==>
              (Choose(Published(slots, idx, tsn, now)) == Some(idx)
               <==> forall j: nat | j < idx :: slots[j].state != Free)
  {
    var r := Published(slots, idx, tsn, now);
    assert forall j: nat | j < idx :: r[j] == slots[j];
  }

  /** The commands of the slots the sweep frees, in slot order. */
  function StaleCmds(slots: seq<Slot>, now: nat, timeout: nat): (r: seq<nat>)
    ensures |r| <= |slots|
  {
    if slots == [] then
      []
    else
      var n := |slots| - 1;
      StaleCmds(slots[..n], now, timeout) + (if Stale(slots[n], now, timeout) then [slots[n].cmd] else [])
  }

  lemma NoStaleCmds(now: nat, timeout: nat)
    ensures StaleCmds([], now, timeout) == []
  {
  }

  lemma StaleCmdsStep(slots: seq<Slot>, i: nat, now: nat, timeout: nat)
    requires i < |slots|
    ensures StaleCmds(slots[..i + 1], now, timeout)
         == StaleCmds(slots[..i], now, timeout) + (if Stale(slots[i], now, timeout) then [slots[i].cmd] else [])
    ensures slots[..|slots|] == slots
  {
    assert slots[..i + 1][..i] == slots[..i];
  }

  // ---- The code ---------------------------------------------------------------------------------

  class Resolver {
    const storage: array<Slot>
    var oldCntr: nat

    ghost predicate Valid()
      reads this
    {
      storage.Length == MAX_PARALLEL_REQUESTS && oldCntr <= SIZE_MAX
    }

    constructor ()
      ensures Valid() && fresh(storage) && oldCntr == 0
      ensures forall i | 0 <= i < storage.Length :: storage[i] == Slot(Free, 0, 0, 0, 0)
    {
      storage := new Slot[MAX_PARALLEL_REQUESTS](_ => Slot(Free, 0, 0, 0, 0));
      oldCntr := 0;
    }

    /** start_resolve; None for nullptr. */
    method StartResolve(cmd: nat) returns (res: Option<nat>)
      requires Valid()
      modifies this, storage
      ensures Valid() && res == Choose(old(storage[..]))
      ensures res.None? ==> storage[..] == old(storage[..]) && oldCntr == old(oldCntr)
      ensures res.Some? ==> storage[..] == Claimed(old(storage[..]), res.value, cmd, old(oldCntr))
      ensures res.Some? ==> oldCntr == (old(oldCntr) + 1) % 0x1_0000_0000
    {
      ghost var slots := storage[..];
      res := None;
      var i: nat := 0;
      while i < storage.Length
        invariant i <= storage.Length && res.None?
        invariant FreeFrom(slots, 0) == FreeFrom(slots, i)
      {
        if storage[i].state == Free {
          res := Some(i);
          break;
        }
        i := i + 1;
      }
      if res.None? {
        var oldest: nat := SIZE_MAX;
        i := 0;
        while i < storage.Length
          invariant i <= storage.Length
          invariant res == OldestOf(slots, i) && oldest == Age(slots, res)
        {
          if storage[i].state == Exec && storage[i].number < oldest {
            oldest := storage[i].number;
            res := Some(i);
          }
          i := i + 1;
        }
      }
      if res.Some? {
        storage[res.value] := storage[res.value].(cmd := cmd, number := oldCntr, state := Allocation);
        oldCntr := (oldCntr + 1) % 0x1_0000_0000;
      }
    }

    /** resolve_take. */
    method ResolveTake(tsn: nat) returns (out: Option<Slot>)
      requires Valid()
      modifies storage
      ensures var r := ByTsnFrom(old(storage[..]), tsn, 0);
              if r.Some? then
                out == Some(old(storage[..])[r.value]) && storage[..] == Freed(old(storage[..]), r.value)
              else
                out == None && storage[..] == old(storage[..])
    {
      ghost var slots := storage[..];
      var i: nat := 0;
      while i < storage.Length
        invariant i <= storage.Length && storage[..] == slots
        invariant ByTsnFrom(slots, tsn, 0) == ByTsnFrom(slots, tsn, i)
      {
        if storage[i].state == Exec && storage[i].tsn == tsn {
          out := Some(storage[i]);
          storage[i] := storage[i].(state := Free);
          return;
        }
        i := i + 1;
      }
      return None;
    }

    /** resolve_take_at. */
    method ResolveTakeAt(idx: nat, allocation: nat) returns (out: Option<Slot>)
      requires Valid()
      modifies storage
      ensures if Carries(old(storage[..]), idx, allocation) then
                out == Some(old(storage[..])[idx]) && storage[..] == Freed(old(storage[..]), idx)
              else
                out == None && storage[..] == old(storage[..])
    {
      if idx >= MAX_PARALLEL_REQUESTS {
        return None;
      }
      if storage[idx].state != Exec || storage[idx].number != allocation {
        return None;
      }
      out := Some(storage[idx]);
      storage[idx] := storage[idx].(state := Free);
    }

    /** reclaim_stale: `out` keeps at most `cap` commands, every stale slot is freed. */
    method ReclaimStale(now: nat, timeout: nat, cap: nat) returns (out: seq<nat>)
      requires Valid()
      modifies storage
      ensures storage[..] == Swept(old(storage[..]), now, timeout)
      ensures var all := StaleCmds(old(storage[..]), now, timeout);
              out == if |all| <= cap then all else all[..cap]
    {
      hide StaleCmds;
      ghost var slots := storage[..];
      out := [];
      NoStaleCmds(now, timeout);
      assert slots[..0] == [];
      var i: nat := 0;
      while i < storage.Length
        invariant i <= storage.Length
        invariant forall j: nat | j < i :: storage[j] == Swept(slots, now, timeout)[j]
        invariant forall j: nat | i <= j < storage.Length :: storage[j] == slots[j]
        invariant var all := StaleCmds(slots[..i], now, timeout); out == if |all| <= cap then all else all[..cap]
      {
        StaleCmdsStep(slots, i, now, timeout);
        if storage[i].state == Exec && Elapsed(now, storage[i].tExec) >= timeout {
          if |out| < cap {
            out := out + [storage[i].cmd];
          }
          storage[i] := storage[i].(state := Free);
        }
        i := i + 1;
      }
      assert slots[..i] == slots;
    }

    /** The critical section at the end of do_request: the slot is published or, when sending failed, freed. */
    method Publish(idx: nat, tsn: Option<nat>, now: nat)
      requires Valid() && idx < MAX_PARALLEL_REQUESTS
      modifies storage
      ensures storage[..] == Published(old(storage[..]), idx, tsn, now)
    {
      if tsn.None? {
        storage[idx] := storage[idx].(state := Free);
      } else {
        storage[idx] := storage[idx].(tsn := tsn.value, tExec := now, state := Exec);
      }
    }
  }
}
