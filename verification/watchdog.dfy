/** How soon a slot whose confirm never comes is freed (request_watchdog_tick in main/zb_ncp.cpp, called from the
    event pump of main/app.cpp): 32-bit tick arithmetic against real time. The tick counter is read before the
    resolver mutex is taken, so the other task may publish a slot in between. */
module Watchdog {
  import opened Collections
  import opened RequestSlots

  const WRAP := 0x1_0000_0000

  /** APSDE_WATCHDOG_TIMEOUT_MS and the rate limit, in ticks of `hz` a second. */
  function Ticks(ms: nat, hz: nat): nat {
    ms * hz / 1000
  }

  /** The static s_last, the tick count a call under way has read, and the slot table. */
  datatype Watch = Watch(last: nat, sampled: Option<nat>, slots: seq<Slot>)

  /** The two halves of a call of request_watchdog_tick, the first at a real time of which the tick counter shows
      the low 32 bits, and what the tasks do to the table in between and otherwise. */
  datatype Event =
    | Sample(at: nat)
    | Sweep
    | Elsewhere(slots: seq<Slot>)

  /** What one event does; a call that comes within the rate limit of the last one is over at once. */
  function After(w: Watch, event: Event, timeout: nat, rate: nat): (v: Watch)
    requires event.Sweep? ==> w.sampled.Some?
  {
    match event
    case Sample(at) =>
      var now := at % WRAP;
      if Elapsed(now, w.last) < rate then w else w.(last := now, sampled := Some(now))
    case Sweep => w.(sampled := None, slots := Swept(w.slots, w.sampled.value, timeout))
    case Elsewhere(slots) => w.(slots := slots)
  }

  /** Slot `i` is left to the watchdog: its confirm is lost. */
  predicate Enabled(w: Watch, event: Event, i: nat) {
    match event
    case Sample(_) => w.sampled.None?
    case Sweep => w.sampled.Some?
    case Elsewhere(slots) => i < |w.slots| == |slots| && slots[i] == w.slots[i]
  }

  predicate Possible(w: Watch, events: seq<Event>, timeout: nat, rate: nat, i: nat)
    decreases |events|
  {
    || events == []
    || (Enabled(w, events[0], i) && Possible(After(w, events[0], timeout, rate), events[1..], timeout, rate, i))
  }

  function Outcome(w: Watch, events: seq<Event>, timeout: nat, rate: nat, i: nat): (v: Watch)
    requires Possible(w, events, timeout, rate, i)
    decreases |events|
  {
    if events == [] then w else Outcome(After(w, events[0], timeout, rate), events[1..], timeout, rate, i)
  }

  /** Elapsed is the real distance of two instants less than 2^32 ticks apart. */
  lemma ElapsedIsReal(now: nat, since: nat)
    requires since <= now < since + WRAP
    ensures Elapsed(now % WRAP, since % WRAP) == now - since
  {
    var a, b := now / WRAP, since / WRAP;
    assert now % WRAP - since % WRAP == now - since - WRAP * (a - b);
    ModuloShift(now - since, a - b);
  }

  /** Of an instant in the future it is the distance to the next wrap-around. */
  lemma ElapsedOfFuture(now: nat, since: nat)
    requires now < since <= now + WRAP
    ensures Elapsed(now % WRAP, since % WRAP) == now + WRAP - since
  {
    var a, b := now / WRAP, since / WRAP;
    assert now % WRAP - since % WRAP == now + WRAP - since - WRAP * (a - b + 1);
    ModuloShift(now + WRAP - since, a - b + 1);
  }

  lemma ModuloShift(x: int, q: int)
    requires 0 <= x < WRAP
    ensures (x - WRAP * q) % WRAP == x
  {
    var y := x - WRAP * q;
    assert WRAP * q + (y - x) == 0;
  }

  class RequestWatchdog {
    var last: nat
    const table: Resolver

    ghost predicate Valid()
      reads this, table
    {
      table.Valid() && last < WRAP
    }

    constructor (table: Resolver)
      requires table.Valid()
      ensures Valid() && last == 0 && this.table == table
    {
      last := 0;
      this.table := table;
    }

    /** The first half of request_watchdog_tick: the rate limit. */
    method Sampling(now: nat, timeout: nat, rate: nat) returns (due: bool)
      requires Valid() && now < WRAP
      modifies this`last
      ensures Valid()
      ensures Watch(last, if due then Some(now) else None, table.storage[..])
           == After(old(Watch(last, None, table.storage[..])), Sample(now), timeout, rate)
    {
      if Elapsed(now, last) < rate {
        return false;
      }
      last := now;
      return true;
    }

    /** The second half: the sweep of the table as it is by then. */
    method Sweeping(now: nat, timeout: nat, rate: nat) returns (stale: seq<nat>)
      requires Valid() && now < WRAP
      modifies table.storage
      ensures Valid()
      ensures Watch(last, None, table.storage[..])
           == After(old(Watch(last, Some(now), table.storage[..])), Sweep, timeout, rate)
    {
      stale := table.ReclaimStale(now, timeout, MAX_PARALLEL_REQUESTS);
    }

    /** request_watchdog_tick when nothing comes in between: the freed requests are reported to nobody. */
    method OnTick(now: nat, timeout: nat, rate: nat) returns (stale: seq<nat>)
      requires Valid() && now < WRAP
      modifies this`last, table.storage
      ensures Valid()
      ensures var sampled := After(old(Watch(last, None, table.storage[..])), Sample(now), timeout, rate);
              Watch(last, None, table.storage[..])
                == if sampled.sampled.Some? then After(sampled, Sweep, timeout, rate) else sampled
    {
      stale := [];
      var due := Sampling(now, timeout, rate);
      if due {
        stale := Sweeping(now, timeout, rate);
      }
    }
  }

  // ---- What one sweep does ----------------------------------------------------------------------

  /** Slot `i` has waited for its confirm since real time `since`. */
  predicate Waits(w: Watch, i: nat, since: nat) {
    i < |w.slots| && w.slots[i].state == Exec && w.slots[i].tExec == since % WRAP
  }

  /** A sweep that works with the tick count of real time `sampled` frees a slot if and only if the slot is past its
      timeout, or was published after the tick counter was read. */
  lemma SweepFrees(w: Watch, i: nat, since: nat, sampled: nat, timeout: nat, rate: nat)
    requires Waits(w, i, since) && w.sampled == Some(sampled % WRAP)
    requires sampled < since + WRAP && since + timeout <= sampled + WRAP
    ensures var v := After(w, Sweep, timeout, rate);
            if sampled < since || since + timeout <= sampled then
              i < |v.slots| && v.slots[i].state == Free
            else
              Waits(v, i, since)
  {
    if sampled < since {
      ElapsedOfFuture(sampled, since);
    } else {
      ElapsedIsReal(sampled, since);
    }
  }

  /** A call reads the tick counter, the other task publishes slot `i` one tick later, the call sweeps: the slot is
      freed at once, its 20 seconds unused. Whenever a call is due this can happen. */
  lemma FreshSlotFreed(w: Watch, at: nat, i: nat, tsn: nat, timeout: nat, rate: nat)
    requires w.sampled.None? && i < |w.slots| && rate <= Elapsed(at % WRAP, w.last) && timeout < WRAP
    ensures var sampled := After(w, Sample(at), timeout, rate);
            var published := Published(w.slots, i, Some(tsn), (at + 1) % WRAP);
            var waiting := After(sampled, Elsewhere(published), timeout, rate);
            && Waits(waiting, i, at + 1) && waiting.sampled.Some?
            && After(waiting, Sweep, timeout, rate).slots[i].state == Free
  {
    ElapsedOfFuture(at, at + 1);
  }

  // ---- Never too early, but for that ------------------------------------------------------------

  /** All calls read the tick counter within these real times. */
  predicate Within(events: seq<Event>, from: nat, to: nat) {
    forall k: nat | k < |events| && events[k].Sample? :: from <= events[k].at < to
  }

  lemma WithinTail(events: seq<Event>, from: nat, to: nat)
    requires Within(events, from, to) && events != []
    ensures Within(events[1..], from, to)
  {
  }

  predicate IsFree(w: Watch, i: nat) {
    i < |w.slots| && w.slots[i].state == Free
  }

  lemma {:induction false} StaysFree(w: Watch, events: seq<Event>, timeout: nat, rate: nat, i: nat)
    requires Possible(w, events, timeout, rate, i) && IsFree(w, i)
    ensures IsFree(Outcome(w, events, timeout, rate, i), i)
    decreases |events|
  {
    if events != [] {
      StaysFree(After(w, events[0], timeout, rate), events[1..], timeout, rate, i);
    }
  }

  /** The tick count in use, if any, is the one of real time `pending`. */
  predicate Pending(w: Watch, pending: nat) {
    w.sampled.Some? ==> w.sampled.value == pending % WRAP
  }

  /** Before its timeout a slot is freed if and only if a call that had read the tick counter before the slot was
      published sweeps after that; the calls that begin later never free it, however often they come. */
  lemma {:induction false} NeverTooEarly(w: Watch, events: seq<Event>, timeout: nat, rate: nat,
                                         i: nat, since: nat, pending: nat)
    requires Possible(w, events, timeout, rate, i) && Within(events, since, since + timeout)
    requires Waits(w, i, since) && timeout <= WRAP
    requires Pending(w, pending) && pending < since + timeout <= pending + WRAP
    ensures if w.sampled.Some? && pending < since && Sweep in events then
              IsFree(Outcome(w, events, timeout, rate, i), i)
            else
              Waits(Outcome(w, events, timeout, rate, i), i, since)
    decreases |events|
  {
    if events != [] {
      var v, rest := After(w, events[0], timeout, rate), events[1..];
      WithinTail(events, since, since + timeout);
      assert Sweep in events <==> events[0] == Sweep || Sweep in rest;
      if events[0] == Sweep {
        SweepFrees(w, i, since, pending, timeout, rate);
        if pending < since {
          StaysFree(v, rest, timeout, rate, i);
        } else {
          NeverTooEarly(v, rest, timeout, rate, i, since, since);
        }
      } else {
        var p := if events[0].Sample? then events[0].at else pending;
        NeverTooEarly(v, rest, timeout, rate, i, since, p);
      }
    }
  }

  // ---- Never too late ---------------------------------------------------------------------------

  /** Calls begin at most `d` apart, the first one at most `d` after `prev`. */
  predicate Paced(prev: nat, events: seq<Event>, d: nat)
    decreases |events|
  {
    if events == [] then
      true
    else if events[0].Sample? then
      prev <= events[0].at <= prev + d && Paced(events[0].at, events[1..], d)
    else
      Paced(prev, events[1..], d)
  }

  /** When the last call began. */
  function LastCall(prev: nat, events: seq<Event>): nat
    decreases |events|
  {
    if events == [] then
      prev
    else
      LastCall(if events[0].Sample? then events[0].at else prev, events[1..])
  }

  /** Event `k` is the sweep that frees slot `i`, of the call that began at `began`. */
  predicate FreedBy(w: Watch, events: seq<Event>, timeout: nat, rate: nat, i: nat, since: nat, k: nat, began: nat)
    requires Possible(w, events, timeout, rate, i)
    decreases |events|
  {
    if k == 0 then
      && events != [] && events[0] == Sweep
      && Waits(w, i, since) && w.sampled == Some(began % WRAP)
      && IsFree(After(w, Sweep, timeout, rate), i)
    else
      events != [] && FreedBy(After(w, events[0], timeout, rate), events[1..], timeout, rate, i, since, k - 1, began)
  }

  /** The last call began at `prev`, the last one that was due at `swept`; one under way is the last. */
  predicate Called(w: Watch, swept: nat, prev: nat, rate: nat) {
    && w.last == swept % WRAP && swept <= prev && (prev == swept || prev < swept + rate)
    && (w.sampled.Some? ==> w.sampled.value == swept % WRAP && prev == swept)
  }

  lemma CalledKeeps(w: Watch, swept: nat, prev: nat, at: nat, timeout: nat, rate: nat, d: nat)
    requires Called(w, swept, prev, rate) && w.sampled.None? && prev <= at <= prev + d && rate + d < WRAP
    ensures var v := After(w, Sample(at), timeout, rate);
            if swept + rate <= at then
              v.sampled.Some? && Called(v, at, at, rate)
            else
              v.sampled.None? && Called(v, swept, at, rate)
    ensures After(w, Sample(at), timeout, rate).slots == w.slots
  {
    ElapsedIsReal(at, swept);
  }

  predicate NotBefore(events: seq<Event>, from: nat) {
    forall k: nat | k < |events| && events[k].Sample? :: from <= events[k].at
  }

  lemma NotBeforeTail(events: seq<Event>, from: nat)
    requires NotBefore(events, from) && events != []
    ensures NotBefore(events[1..], from) && (events[0].Sample? ==> from <= events[0].at)
  {
  }

  /** A call that begins at `began` may free a slot waiting since `since` then, in good time. */
  predicate InTime(since: nat, began: nat, timeout: nat, rate: nat, d: nat) {
    since + timeout <= began < since + timeout + rate + d
  }

  /** The proof carries on from any instant while the slot waits. */
  lemma {:induction false} FreedFrom(w: Watch, events: seq<Event>, timeout: nat, rate: nat, d: nat,
                                     i: nat, since: nat, swept: nat, prev: nat)
    returns (k: nat, began: nat)
    requires Possible(w, events, timeout, rate, i) && Waits(w, i, since) && Called(w, swept, prev, rate)
    requires Paced(prev, events, d) && NotBefore(events, since) && 0 < timeout && timeout + rate + d <= WRAP
    requires since <= prev + d && swept < since + timeout + if w.sampled.Some? then rate + d else 0
    requires Outcome(w, events, timeout, rate, i).sampled.None?
    requires since + timeout + rate <= LastCall(prev, events)
    ensures FreedBy(w, events, timeout, rate, i, since, k, began)
    ensures if w.sampled.Some? && swept < since then began == swept else InTime(since, began, timeout, rate, d)
    decreases |events|
  {
    assert events != [];
    var v, rest := After(w, events[0], timeout, rate), events[1..];
    NotBeforeTail(events, since);
    match events[0] {
      case Sample(at) =>
        CalledKeeps(w, swept, prev, at, timeout, rate, d);
        var last := if swept + rate <= at then at else swept;
        k, began := FreedFrom(v, rest, timeout, rate, d, i, since, last, at);
        k := k + 1;
      case Sweep =>
        SweepFrees(w, i, since, swept, timeout, rate);
        if swept < since || since + timeout <= swept {
          k, began := 0, swept;
        } else {
          k, began := FreedFrom(v, rest, timeout, rate, d, i, since, swept, prev);
          k := k + 1;
        }
      case Elsewhere(_) =>
        k, began := FreedFrom(v, rest, timeout, rate, d, i, since, swept, prev);
        k := k + 1;
    }
  }

  /** A slot published at `since`, after the call at `prev` and before the next, whose confirm is lost: a call that
      is under way and read the tick counter before frees it at once. Otherwise it is freed by a call that begins no
      earlier than the timeout and within rate limit and pump period of it. In the end no call is under way. */
  lemma FreedInTime(w: Watch, events: seq<Event>, timeout: nat, rate: nat, d: nat, i: nat, since: nat,
                    swept: nat, prev: nat)
    returns (k: nat, began: nat)
    requires Possible(w, events, timeout, rate, i) && Waits(w, i, since) && Called(w, swept, prev, rate)
    requires Paced(prev, events, d) && NotBefore(events, since) && 0 < timeout && timeout + rate + d <= WRAP
    requires prev <= since <= prev + d && Outcome(w, events, timeout, rate, i).sampled.None?
    requires since + timeout + rate <= LastCall(prev, events)
    ensures FreedBy(w, events, timeout, rate, i, since, k, began)
    ensures if w.sampled.Some? && prev < since then began == prev else InTime(since, began, timeout, rate, d)
  {
    k, began := FreedFrom(w, events, timeout, rate, d, i, since, swept, prev);
  }

  /** With the firmware's constants, at any tick rate: if calls begin at most `d` ticks apart, a lost confirm holds
      its slot until a call that begins after 20 s and before 22 s + d, or not at all. */
  lemma LostConfirmFreed(w: Watch, events: seq<Event>, d: nat, hz: nat, i: nat, since: nat, swept: nat, prev: nat)
    returns (k: nat, began: nat)
    requires var timeout, rate := Ticks(20000, hz), Ticks(2000, hz);
             && Possible(w, events, timeout, rate, i) && Called(w, swept, prev, rate)
             && 0 < hz && 22 * hz + d <= WRAP && since + 22 * hz <= LastCall(prev, events)
             && Outcome(w, events, timeout, rate, i).sampled.None?
    requires Waits(w, i, since) && prev <= since <= prev + d && Paced(prev, events, d) && NotBefore(events, since)
    ensures var timeout, rate := Ticks(20000, hz), Ticks(2000, hz);
            FreedBy(w, events, timeout, rate, i, since, k, began)
    ensures if w.sampled.Some? && prev < since then began == prev else since + 20 * hz <= began < since + 22 * hz + d
  {
    hide FreedBy, Possible, Outcome, LastCall, Paced, NotBefore;
    var timeout, rate := Ticks(20000, hz), Ticks(2000, hz);
    assert timeout == 20 * hz && rate == 2 * hz;
    k, began := FreedInTime(w, events, timeout, rate, d, i, since, swept, prev);
  }
}
