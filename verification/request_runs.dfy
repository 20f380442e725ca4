/** Every run of the two tasks that share the request table (main/commands_impl.h, main/commands_helpers.h): the
    application task accepts requests and runs the watchdog, the ZBOSS task sends them and takes the answers.
    Each step is one critical section or one piece of code between two points where the other task can run. */
module RequestRuns {
  import opened Collections
  import opened RequestSlots
  import Watchdog

  const BUFFERS := 256

  /** An entry of s_apsde_sent: the slot and the allocation a buffer was sent for. */
  datatype Record = Record(number: nat, idx: nat, valid: bool)

  /** Between start_resolve and the end of process; between reading the tick counter in request_watchdog_tick and
      the critical section of reclaim_stale. */
  datatype AppTask = AppIdle | Allocating(idx: nat) | Sampled(now: nat)

  /** Inside do_request: before the send, and between the send and publishing the slot. */
  datatype ZbossTask = ZbossIdle | Sending(idx: nat, buf: nat) | Publishing(idx: nat)

  datatype Fate = Answered | Failed | Overridden | Reclaimed

  datatype Outcome = Outcome(id: nat, fate: Fate)

  /** Requests are numbered in the order they are accepted; `submitted` is their count, `allocs` says which
      request got the n-th allocation, `sends` for which request a buffer was last sent, `jobs` the do_request
      calls that wait for a buffer. */
  datatype State = State(slots: seq<Slot>, counter: nat, app: AppTask, jobs: multiset<nat>, zboss: ZbossTask,
                         sent: seq<Record>, submitted: nat, allocs: seq<nat>, sends: map<nat, nat>,
                         outcomes: seq<Outcome>)

  predicate Booted(s: State) {
    && |s.slots| == MAX_PARALLEL_REQUESTS && (forall i: nat | i < |s.slots| :: s.slots[i].state == Free)
    && |s.sent| == BUFFERS && (forall b: nat | b < |s.sent| :: !s.sent[b].valid)
    && s.counter == 0 && s.app == AppIdle && s.jobs == multiset{} && s.zboss == ZbossIdle
    && s.submitted == 0 && s.allocs == [] && s.sends == map[] && s.outcomes == []
  }

  datatype Step =
    | Start
    | AppAlloc(ok: bool)
    | JobStart(idx: nat, buf: nat)
    | SendDone(ok: bool)
    | Publish(tsn: nat, now: nat)
    | Confirm(buf: nat, ok: bool)
    | Response(tsn: nat, ok: bool)
    | Sample(now: nat)
    | Sweep(timeout: nat)

  /** The ZBOSS task is one task: it takes answers only outside do_request. Buffers, sequence numbers, time and
      success are the environment's choice. */
  predicate Enabled(s: State, step: Step) {
    && |s.slots| == MAX_PARALLEL_REQUESTS && |s.sent| == BUFFERS
    && match step
       case Start => s.app == AppIdle
       case AppAlloc(_) => s.app.Allocating? && s.app.idx < |s.slots|
       case JobStart(idx, buf) => s.zboss == ZbossIdle && idx in s.jobs && buf < BUFFERS
       case SendDone(_) => s.zboss.Sending? && s.zboss.idx < |s.slots| && s.zboss.buf < BUFFERS
       case Publish(_, _) => s.zboss.Publishing? && s.zboss.idx < |s.slots|
       case Confirm(buf, _) => s.zboss == ZbossIdle && 0 < buf < BUFFERS
       case Response(_, _) => s.zboss == ZbossIdle
       case Sample(_) => s.app == AppIdle
       case Sweep(_) => s.app.Sampled?
  }

  function Ends(s: State, idx: nat, fate: Fate): State
    requires idx < |s.slots|
  {
    s.(slots := Freed(s.slots, idx), outcomes := s.outcomes + [Outcome(s.slots[idx].cmd, fate)])
  }

  function Reclaims(cmds: seq<nat>): (r: seq<Outcome>)
    ensures |r| == |cmds|
    ensures forall i: nat | i < |cmds| :: r[i] == Outcome(cmds[i], Reclaimed)
  {
    seq(|cmds|, i requires 0 <= i < |cmds| => Outcome(cmds[i], Reclaimed))
  }

  /** process: start_resolve claims a slot, overriding what runs there, or the request is refused. */
  function Starts(s: State): State
    requires |s.slots| == MAX_PARALLEL_REQUESTS
  {
    var id := s.submitted;
    var r := Choose(s.slots);
    var accepted := s.(submitted := id + 1);
    if r.None? then
      accepted.(outcomes := s.outcomes + [Outcome(id, Failed)])
    else
      var over := if s.slots[r.value].state == Exec then [Outcome(s.slots[r.value].cmd, Overridden)] else [];
      accepted.(slots := Claimed(s.slots, r.value, id, s.counter),
                counter := (s.counter + 1) % 0x1_0000_0000,
                allocs := s.allocs + [id],
                app := Allocating(r.value),
                outcomes := s.outcomes + over)
  }

  function Next(s: State, step: Step): State
    requires Enabled(s, step)
  {
    match step
    case Start => Starts(s)
    case AppAlloc(ok) =>
      if ok then
        s.(app := AppIdle, jobs := s.jobs + multiset{s.app.idx})
      else
        Ends(s, s.app.idx, Failed).(app := AppIdle)
    case JobStart(idx, buf) => s.(jobs := s.jobs - multiset{idx}, zboss := Sending(idx, buf))
    case SendDone(ok) =>
      var idx, buf := s.zboss.idx, s.zboss.buf;
      if ok then
        s.(sent := s.sent[buf := Record(s.slots[idx].number, idx, true)],
           sends := s.sends[buf := s.slots[idx].cmd],
           zboss := Publishing(idx))
      else
        Ends(s, idx, Failed).(zboss := ZbossIdle)
    case Publish(tsn, now) =>
      var idx := s.zboss.idx;
      s.(slots := Published(s.slots, idx, Some(tsn), now), zboss := ZbossIdle)
    case Confirm(buf, ok) =>
      var record := s.sent[buf];
      var t := s.(sent := s.sent[buf := record.(valid := false)]);
      if record.valid && Carries(s.slots, record.idx, record.number) then
        Ends(t, record.idx, if ok then Answered else Failed)
      else
        t
    case Response(tsn, ok) =>
      var r := ByTsnFrom(s.slots, tsn, 0);
      if r.Some? then Ends(s, r.value, if ok then Answered else Failed) else s
    case Sample(now) => s.(app := Sampled(now))
    case Sweep(timeout) =>
      var now := s.app.now;
      s.(slots := Swept(s.slots, now, timeout),
         outcomes := s.outcomes + Reclaims(StaleCmds(s.slots, now, timeout)),
         app := AppIdle)
  }

  // ---- The invariant ----------------------------------------------------------------------------

  predicate Live(slots: seq<Slot>, i: nat) {
    i < |slots| && slots[i].state != Free
  }

  /** Live slots carry distinct allocation numbers below the counter, each given to the slot's own request. */
  ghost predicate Numbered(s: State) {
    && |s.slots| == MAX_PARALLEL_REQUESTS && |s.sent| == BUFFERS
    && s.counter == |s.allocs| <= SIZE_MAX
    && (forall i: nat | Live(s.slots, i) ::
          s.slots[i].number < |s.allocs| && s.slots[i].cmd == s.allocs[s.slots[i].number])
    && (forall i: nat, j: nat | Live(s.slots, i) && Live(s.slots, j) && i != j ::
          s.slots[i].number != s.slots[j].number)
    && (forall n: nat | n < |s.allocs| :: s.allocs[n] < s.submitted)
    && (forall m: nat, n: nat | m < n < |s.allocs| :: s.allocs[m] < s.allocs[n])
  }

  /** Who is responsible for the slots in allocation. */
  function Owners(s: State): multiset<nat> {
    s.jobs + (if s.app.Allocating? then multiset{s.app.idx} else multiset{})
           + (if s.zboss == ZbossIdle then multiset{} else multiset{s.zboss.idx})
  }

  ghost predicate Owned(s: State) {
    && (forall i: nat | i < |s.slots| :: Owners(s)[i] == if s.slots[i].state == Allocation then 1 else 0)
    && (forall i: nat | i in Owners(s) :: i < |s.slots|)
  }

  predicate Pending(slots: seq<Slot>, id: nat) {
    exists i: nat :: i < |slots| && Live(slots, i) && slots[i].cmd == id
  }

  predicate Settled(outcomes: seq<Outcome>, id: nat) {
    exists k: nat :: k < |outcomes| && outcomes[k].id == id
  }

  /** Every accepted request is pending or has one outcome, never both, never two. */
  ghost predicate Accounted(s: State) {
    && (forall id: nat | id < s.submitted :: Pending(s.slots, id) <==> !Settled(s.outcomes, id))
    && (forall k: nat | k < |s.outcomes| :: s.outcomes[k].id < s.submitted)
    && (forall k: nat, l: nat | k < l < |s.outcomes| :: s.outcomes[k].id != s.outcomes[l].id)
  }

  /** While the allocation of a record is live, it is in the recorded slot. */
  predicate InPlace(slots: seq<Slot>, r: Record) {
    forall i: nat | i < |slots| && slots[i].state != Free && slots[i].number == r.number :: i == r.idx
  }

  /** A valid record names the allocation, and the slot, of the request its buffer was last sent for. */
  ghost predicate Recorded(s: State) {
    forall b: nat | b < |s.sent| && s.sent[b].valid ::
      && s.sent[b].number < |s.allocs| && s.sent[b].idx < |s.slots|
      && b in s.sends && s.sends[b] == s.allocs[s.sent[b].number]
      && InPlace(s.slots, s.sent[b])
  }

  ghost predicate Inv(s: State) {
    Numbered(s) && Owned(s) && Accounted(s) && Recorded(s)
  }

  // ---- Requests settle --------------------------------------------------------------------------

  ghost predicate DistinctCmds(slots: seq<Slot>) {
    forall i: nat, j: nat | Live(slots, i) && Live(slots, j) && i != j :: slots[i].cmd != slots[j].cmd
  }

  lemma CmdsAreDistinct(s: State)
    requires Numbered(s)
    ensures DistinctCmds(s.slots)
    ensures forall i: nat | Live(s.slots, i) :: s.slots[i].cmd < s.submitted
  {
  }

  lemma SettledAppend(a: seq<Outcome>, b: seq<Outcome>, id: nat)
    ensures Settled(a + b, id) <==> Settled(a, id) || Settled(b, id)
  {
    if Settled(a, id) {
      var k: nat :| k < |a| && a[k].id == id;
      assert (a + b)[k].id == id;
    }
    if Settled(b, id) {
      var k: nat :| k < |b| && b[k].id == id;
      assert (a + b)[|a| + k].id == id;
    }
  }

  /** Freeing a live slot makes its request, and only its request, no longer pending. */
  lemma FreedIsNotPending(slots: seq<Slot>, idx: nat, id: nat)
    requires Live(slots, idx) && DistinctCmds(slots)
    ensures Pending(Freed(slots, idx), id) <==> Pending(slots, id) && id != slots[idx].cmd
  {
    var freed := Freed(slots, idx);
    if Pending(freed, id) {
      var i: nat :| i < |freed| && Live(freed, i) && freed[i].cmd == id;
      assert Live(slots, i);
    }
    if Pending(slots, id) && id != slots[idx].cmd {
      var i: nat :| i < |slots| && Live(slots, i) && slots[i].cmd == id;
      assert Live(freed, i);
    }
  }

  lemma EndsAccounted(s: State, idx: nat, fate: Fate)
    requires Numbered(s) && Accounted(s) && Live(s.slots, idx)
    ensures Accounted(Ends(s, idx, fate)) && Numbered(Ends(s, idx, fate))
  {
    hide Pending, Settled;
    CmdsAreDistinct(s);
    var t := Ends(s, idx, fate);
    var cmd := s.slots[idx].cmd;
    assert forall i: nat | Live(t.slots, i) :: Live(s.slots, i) && t.slots[i] == s.slots[i];
    IsPending(s.slots, idx);
    forall id: nat | id < s.submitted
      ensures Pending(t.slots, id) <==> !Settled(t.outcomes, id)
    {
      FreedIsNotPending(s.slots, idx, id);
      SettledAppend(s.outcomes, [Outcome(cmd, fate)], id);
      OneSettled(Outcome(cmd, fate), id);
    }
    NotYetSettled(s.outcomes, cmd);
  }

  lemma IsPending(slots: seq<Slot>, idx: nat)
    requires Live(slots, idx)
    ensures Pending(slots, slots[idx].cmd)
  {
  }

  lemma OneSettled(o: Outcome, id: nat)
    ensures Settled([o], id) <==> o.id == id
  {
    assert [o][0] == o;
  }

  lemma NotYetSettled(outcomes: seq<Outcome>, id: nat)
    requires !Settled(outcomes, id)
    ensures forall k: nat | k < |outcomes| :: outcomes[k].id != id
  {
  }

  /** Nothing about pending requests changes when live slots keep their state's liveness, command and number. */
  predicate SameRequests(a: seq<Slot>, b: seq<Slot>) {
    && |a| == |b|
    && forall i: nat | i < |a| ::
         && (a[i].state == Free <==> b[i].state == Free) && a[i].cmd == b[i].cmd && a[i].number == b[i].number
  }

  lemma SamePending(a: seq<Slot>, b: seq<Slot>, id: nat)
    requires SameRequests(a, b)
    ensures Pending(a, id) <==> Pending(b, id)
  {
    if Pending(a, id) {
      var i: nat :| i < |a| && Live(a, i) && a[i].cmd == id;
      assert Live(b, i);
    }
    if Pending(b, id) {
      var i: nat :| i < |b| && Live(b, i) && b[i].cmd == id;
      assert Live(a, i);
    }
  }

  lemma SameKeeps(s: State, t: State)
    requires Numbered(s) && Accounted(s)
    requires SameRequests(s.slots, t.slots) && |t.sent| == BUFFERS && t.counter == s.counter && t.allocs == s.allocs
    requires t.submitted == s.submitted && t.outcomes == s.outcomes
    ensures Numbered(t) && Accounted(t)
  {
    hide Pending, Settled;
    assert forall i: nat :: Live(t.slots, i) <==> Live(s.slots, i);
    forall id: nat
      ensures Pending(t.slots, id) <==> Pending(s.slots, id)
    {
      SamePending(s.slots, t.slots, id);
    }
  }

  /** Allocations older than `n` that are live in `b` were live, in the same slot, in `a`. */
  predicate NoneMoved(a: seq<Slot>, b: seq<Slot>, n: nat) {
    && |a| == |b|
    && forall i: nat | i < |b| && b[i].state != Free && b[i].number < n ::
         a[i].state != Free && a[i].number == b[i].number
  }

  lemma RecordsKept(s: State, t: State)
    requires Recorded(s) && s.allocs <= t.allocs && NoneMoved(s.slots, t.slots, |s.allocs|) && t.sends == s.sends
    requires |t.sent| == |s.sent|
    requires forall b: nat | b < |s.sent| && t.sent[b].valid :: t.sent[b] == s.sent[b]
    ensures Recorded(t)
  {
  }

  // ---- Every step keeps the invariant -----------------------------------------------------------

  lemma EndsKeeps(s: State, t: State, idx: nat, fate: Fate)
    requires Inv(s) && Live(s.slots, idx)
    requires var e := Ends(s, idx, fate);
             && t.slots == e.slots && t.outcomes == e.outcomes && t.submitted == s.submitted
             && t.counter == s.counter && t.allocs == s.allocs && t.sends == s.sends && |t.sent| == |s.sent|
             && (forall b: nat | b < |s.sent| && t.sent[b].valid :: t.sent[b] == s.sent[b])
    requires Owners(t) == Owners(s) - (if s.slots[idx].state == Allocation then multiset{idx} else multiset{})
    ensures Inv(t)
  {
    hide Accounted, Owners, Owned, Recorded, Numbered;
    EndsAccounted(s, idx, fate);
    SameAccounted(Ends(s, idx, fate), t);
    SameNumbered(Ends(s, idx, fate), t);
    OneOwnedLess(s, t, idx);
    RecordsKept(s, t);
  }

  lemma SameNumbered(s: State, t: State)
    requires Numbered(s) && t.slots == s.slots && |t.sent| == |s.sent|
    requires t.counter == s.counter && t.allocs == s.allocs && t.submitted == s.submitted
    ensures Numbered(t)
  {
  }

  /** A slot that leaves allocation, if it was in it, leaves its owner. */
  lemma OneOwnedLess(s: State, t: State, idx: nat)
    requires Owned(s) && idx < |s.slots| == |t.slots| && t.slots[idx].state != Allocation
    requires forall i: nat | i < |s.slots| && i != idx :: t.slots[i] == s.slots[i]
    requires Owners(t) == Owners(s) - (if s.slots[idx].state == Allocation then multiset{idx} else multiset{})
    ensures Owned(t)
  {
    hide Owners;
    forall i: nat | i < |t.slots|
      ensures Owners(t)[i] == if t.slots[i].state == Allocation then 1 else 0
    {
      assert Owners(s)[i] == if s.slots[i].state == Allocation then 1 else 0;
    }
  }

  lemma SameAccounted(s: State, t: State)
    requires Accounted(s) && t.slots == s.slots && t.outcomes == s.outcomes && t.submitted == s.submitted
    ensures Accounted(t)
  {
    hide Pending, Settled;
  }

  /** A new request takes a slot that is free. */
  function Claims(s: State, i: nat): State
    requires i < |s.slots|
  {
    s.(submitted := s.submitted + 1, slots := Claimed(s.slots, i, s.submitted, s.counter),
       counter := (s.counter + 1) % 0x1_0000_0000, allocs := s.allocs + [s.submitted], app := Allocating(i))
  }

  lemma ClaimNumbered(s: State, i: nat)
    requires Numbered(s) && i < |s.slots| && s.slots[i].state == Free && |s.allocs| < SIZE_MAX
    ensures Numbered(Claims(s, i))
  {
    var t := Claims(s, i);
    assert forall j: nat | j != i :: Live(t.slots, j) <==> Live(s.slots, j);
    assert forall n: nat | n < |s.allocs| :: t.allocs[n] == s.allocs[n];
  }

  lemma ClaimOwned(s: State, i: nat)
    requires Owned(s) && i < |s.slots| && s.slots[i].state == Free && s.app == AppIdle
    ensures Owned(Claims(s, i))
  {
    var t := Claims(s, i);
    assert Owners(t) == Owners(s) + multiset{i};
    hide Owners;
    assert Owners(s)[i] == 0;
    assert forall j: nat | j < |s.slots| && j != i :: t.slots[j] == s.slots[j];
  }

  lemma ClaimKeeps(s: State, i: nat)
    requires Inv(s) && i < |s.slots| && s.slots[i].state == Free && s.app == AppIdle
    requires |s.allocs| < SIZE_MAX
    ensures Inv(Claims(s, i))
  {
    hide Pending, Settled, Numbered, Owned;
    var t := Claims(s, i);
    ClaimNumbered(s, i);
    ClaimOwned(s, i);
    ClaimedPending(s.slots, i, s.submitted, s.counter);
    ClaimAccounted(s, t, i);
    RecordsKept(s, t);
  }

  lemma ClaimedPending(slots: seq<Slot>, i: nat, id: nat, number: nat)
    requires i < |slots| && slots[i].state == Free
    ensures forall x: nat :: Pending(Claimed(slots, i, id, number), x) <==> Pending(slots, x) || x == id
  {
    var t := Claimed(slots, i, id, number);
    forall x: nat
      ensures Pending(t, x) <==> Pending(slots, x) || x == id
    {
      if Pending(t, x) {
        var j: nat :| j < |t| && Live(t, j) && t[j].cmd == x;
        assert j != i ==> Live(slots, j);
      }
      if Pending(slots, x) {
        var j: nat :| j < |slots| && Live(slots, j) && slots[j].cmd == x;
        assert Live(t, j) && t[j] == slots[j];
      }
      assert Live(t, i);
    }
  }

  lemma ClaimAccounted(s: State, t: State, i: nat)
    requires Accounted(s)
    requires t.submitted == s.submitted + 1 && t.outcomes == s.outcomes
    requires forall x: nat :: Pending(t.slots, x) <==> Pending(s.slots, x) || x == s.submitted
    ensures Accounted(t)
  {
    hide Pending;
  }

  lemma RefuseKeeps(s: State)
    requires Inv(s)
    ensures Inv(s.(submitted := s.submitted + 1, outcomes := s.outcomes + [Outcome(s.submitted, Failed)]))
  {
    hide Settled, Numbered, Accounted, Owned;
    var id := s.submitted;
    var t := s.(submitted := id + 1, outcomes := s.outcomes + [Outcome(id, Failed)]);
    NotPendingBeyond(s);
    RefuseNumbered(s, t);
    SameOwned(s, t);
    forall x: nat
      ensures Settled(t.outcomes, x) <==> Settled(s.outcomes, x) || x == id
    {
      SettledAppend(s.outcomes, [Outcome(id, Failed)], x);
      OneSettled(Outcome(id, Failed), x);
    }
    RefuseAccounted(s, t);
    RecordsKept(s, t);
  }

  lemma RefuseNumbered(s: State, t: State)
    requires Numbered(s) && t.slots == s.slots && t.sent == s.sent && t.counter == s.counter && t.allocs == s.allocs
    requires t.submitted == s.submitted + 1
    ensures Numbered(t)
  {
  }

  lemma NotPendingBeyond(s: State)
    requires Numbered(s)
    ensures !Pending(s.slots, s.submitted)
  {
  }

  lemma RefuseAccounted(s: State, t: State)
    requires Accounted(s) && !Pending(s.slots, s.submitted)
    requires t.submitted == s.submitted + 1 && t.slots == s.slots
    requires t.outcomes == s.outcomes + [Outcome(s.submitted, Failed)]
    requires forall x: nat :: Settled(t.outcomes, x) <==> Settled(s.outcomes, x) || x == s.submitted
    ensures Accounted(t)
  {
    hide Pending, Settled;
    assert forall k: nat | k < |s.outcomes| :: t.outcomes[k] == s.outcomes[k];
  }

  lemma StartKeeps(s: State)
    requires Inv(s) && Enabled(s, Start) && |Starts(s).allocs| <= SIZE_MAX
    ensures Inv(Starts(s))
  {
    hide Inv, Choose;
    RefuseKeeps(s);
    var r := Choose(s.slots);
    if r.Some? {
      if s.slots[r.value].state == Exec {
        var e := Ends(s, r.value, Overridden);
        EndsKeeps(s, e, r.value, Overridden);
        ClaimKeeps(e, r.value);
        assert Claimed(e.slots, r.value, s.submitted, s.counter) == Claimed(s.slots, r.value, s.submitted, s.counter);
      } else {
        ClaimKeeps(s, r.value);
        assert s.outcomes + [] == s.outcomes;
      }
    }
  }

  lemma OwnedIsAllocation(s: State, idx: nat)
    requires Owned(s) && idx in Owners(s)
    ensures idx < |s.slots| && s.slots[idx].state == Allocation
  {
  }

  lemma AppAllocKeeps(s: State, ok: bool)
    requires Inv(s) && Enabled(s, AppAlloc(ok))
    ensures Inv(Next(s, AppAlloc(ok)))
  {
    hide Accounted, Numbered, Owned, Recorded;
    var t := Next(s, AppAlloc(ok));
    OwnedIsAllocation(s, s.app.idx);
    if ok {
      SameSlotsKeeps(s, t);
    } else {
      EndsKeeps(s, t, s.app.idx, Failed);
    }
  }

  lemma JobStartKeeps(s: State, idx: nat, buf: nat)
    requires Inv(s) && Enabled(s, JobStart(idx, buf))
    ensures Inv(Next(s, JobStart(idx, buf)))
  {
    hide Accounted, Numbered, Owned, Recorded;
    var t := Next(s, JobStart(idx, buf));
    SameSlotsKeeps(s, t);
  }

  lemma SameSlotsKeeps(s: State, t: State)
    requires Inv(s) && t.slots == s.slots && t.sent == s.sent && |s.sent| == BUFFERS && Owners(t) == Owners(s)
    requires t == s.(app := t.app, jobs := t.jobs, zboss := t.zboss)
    ensures Inv(t)
  {
    hide Accounted, Numbered, Owned, Recorded, Owners;
    SameOwned(s, t);
    SameKeeps(s, t);
    RecordsKept(s, t);
  }

  lemma SendDoneKeeps(s: State, ok: bool)
    requires Inv(s) && Enabled(s, SendDone(ok))
    ensures Inv(Next(s, SendDone(ok)))
  {
    hide Accounted, Numbered, Recorded, Owned;
    var t := Next(s, SendDone(ok));
    OwnedIsAllocation(s, s.zboss.idx);
    if ok {
      SameKeeps(s, t);
      SameOwned(s, t);
      SendRecorded(s, t, s.zboss.idx, s.zboss.buf);
    } else {
      EndsKeeps(s, t, s.zboss.idx, Failed);
    }
  }

  lemma SameOwned(s: State, t: State)
    requires Owned(s) && t.slots == s.slots && Owners(t) == Owners(s)
    ensures Owned(t)
  {
    hide Owners;
  }

  lemma SendRecorded(s: State, t: State, idx: nat, buf: nat)
    requires Recorded(s) && Numbered(s) && Live(s.slots, idx) && buf < BUFFERS
    requires t.slots == s.slots && t.allocs == s.allocs
    requires t.sent == s.sent[buf := Record(s.slots[idx].number, idx, true)]
    requires t.sends == s.sends[buf := s.slots[idx].cmd]
    ensures Recorded(t)
  {
    hide Accounted;
    forall b: nat | b < |t.sent| && t.sent[b].valid
      ensures t.sent[b].number < |t.allocs| && t.sent[b].idx < |t.slots|
      ensures b in t.sends && t.sends[b] == t.allocs[t.sent[b].number]
      ensures InPlace(t.slots, t.sent[b])
    {
      if b != buf {
        assert t.sent[b] == s.sent[b];
      } else {
        assert forall i: nat | i < |s.slots| && s.slots[i].state != Free :: Live(s.slots, i);
      }
    }
  }

  lemma PublishKeeps(s: State, tsn: nat, now: nat)
    requires Inv(s) && Enabled(s, Publish(tsn, now))
    ensures Inv(Next(s, Publish(tsn, now)))
  {
    hide Accounted, Numbered, Owned, Recorded;
    var t := Next(s, Publish(tsn, now));
    var idx := s.zboss.idx;
    OwnedIsAllocation(s, idx);
    assert Owners(t) == Owners(s) - multiset{idx};
    assert forall i: nat | i < |s.slots| && i != idx :: t.slots[i] == s.slots[i];
    SameKeeps(s, t);
    OneOwnedLess(s, t, idx);
    RecordsKept(s, t);
  }

  lemma ConfirmKeeps(s: State, buf: nat, ok: bool)
    requires Inv(s) && Enabled(s, Confirm(buf, ok))
    ensures Inv(Next(s, Confirm(buf, ok)))
  {
    hide Accounted, Numbered, Owned;
    var t := Next(s, Confirm(buf, ok));
    var record := s.sent[buf];
    assert Owners(t) == Owners(s);
    if record.valid && Carries(s.slots, record.idx, record.number) {
      EndsKeeps(s, t, record.idx, if ok then Answered else Failed);
    } else {
      SameKeeps(s, t);
      SameOwned(s, t);
    }
  }

  lemma ResponseKeeps(s: State, tsn: nat, ok: bool)
    requires Inv(s) && Enabled(s, Response(tsn, ok))
    ensures Inv(Next(s, Response(tsn, ok)))
  {
    hide Accounted, Numbered, Owned, Recorded;
    var r := ByTsnFrom(s.slots, tsn, 0);
    if r.Some? {
      var t := Next(s, Response(tsn, ok));
      assert Owners(t) == Owners(s);
      EndsKeeps(s, t, r.value, if ok then Answered else Failed);
    }
  }

  // ---- The watchdog frees several at once -------------------------------------------------------

  /** The sweep, one slot after the other. */
  function SweepTo(s: State, n: nat, now: nat, timeout: nat): (t: State)
    requires n <= |s.slots|
    ensures |t.slots| == |s.slots|
    ensures forall i: nat | i < |s.slots| ::
              t.slots[i] == if i < n && Stale(s.slots[i], now, timeout) then s.slots[i].(state := Free) else s.slots[i]
    ensures t == s.(slots := t.slots, outcomes := t.outcomes)
  {
    if n == 0 then
      s
    else
      var t := SweepTo(s, n - 1, now, timeout);
      if Stale(s.slots[n - 1], now, timeout) then Ends(t, n - 1, Reclaimed) else t
  }

  lemma {:induction false} SweepToOutcomes(s: State, n: nat, now: nat, timeout: nat)
    requires n <= |s.slots|
    ensures SweepTo(s, n, now, timeout).outcomes == s.outcomes + Reclaims(StaleCmds(s.slots[..n], now, timeout))
  {
    hide StaleCmds;
    if n == 0 {
      NoStaleCmds(now, timeout);
      assert s.slots[..0] == [];
      assert Reclaims([]) == [];
    } else {
      SweepToOutcomes(s, n - 1, now, timeout);
      StaleCmdsStep(s.slots, n - 1, now, timeout);
      var cmds := StaleCmds(s.slots[..n - 1], now, timeout);
      var cmd := s.slots[n - 1].cmd;
      assert Reclaims(cmds + [cmd]) == Reclaims(cmds) + [Outcome(cmd, Reclaimed)];
    }
  }

  lemma {:induction false} SweepToKeeps(s: State, n: nat, now: nat, timeout: nat)
    requires Inv(s) && n <= |s.slots|
    ensures Inv(SweepTo(s, n, now, timeout))
  {
    hide Inv;
    if n > 0 {
      var t := SweepTo(s, n - 1, now, timeout);
      SweepToKeeps(s, n - 1, now, timeout);
      if Stale(s.slots[n - 1], now, timeout) {
        EndsKeeps(t, Ends(t, n - 1, Reclaimed), n - 1, Reclaimed);
      }
    }
  }

  /** Reading the tick counter, and being done with it, changes no slot and no owner. */
  lemma TickKeeps(s: State, app: AppTask)
    requires Inv(s) && !s.app.Allocating? && !app.Allocating? && |s.sent| == BUFFERS
    ensures Inv(s.(app := app))
  {
    hide Accounted, Numbered, Owned, Recorded;
    SameSlotsKeeps(s, s.(app := app));
  }

  lemma SweepKeeps(s: State, timeout: nat)
    requires Inv(s) && Enabled(s, Sweep(timeout))
    ensures Inv(Next(s, Sweep(timeout)))
  {
    hide Inv, StaleCmds, Numbered;
    var n, now := |s.slots|, s.app.now;
    SweepToKeeps(s, n, now, timeout);
    SweepToOutcomes(s, n, now, timeout);
    assert s.slots[..n] == s.slots;
    assert SweepTo(s, n, now, timeout).slots == Swept(s.slots, now, timeout);
    TickKeeps(SweepTo(s, n, now, timeout), AppIdle);
  }

  // ---- Whole runs -------------------------------------------------------------------------------

  lemma StepKeeps(s: State, step: Step)
    requires Inv(s) && Enabled(s, step) && |Next(s, step).allocs| <= SIZE_MAX
    ensures Inv(Next(s, step))
  {
    hide Inv;
    match step
    case Start => StartKeeps(s);
    case AppAlloc(ok) => AppAllocKeeps(s, ok);
    case JobStart(idx, buf) => JobStartKeeps(s, idx, buf);
    case SendDone(ok) => SendDoneKeeps(s, ok);
    case Publish(tsn, now) => PublishKeeps(s, tsn, now);
    case Confirm(buf, ok) => ConfirmKeeps(s, buf, ok);
    case Response(tsn, ok) => ResponseKeeps(s, tsn, ok);
    case Sample(now) => TickKeeps(s, Sampled(now));
    case Sweep(timeout) => SweepKeeps(s, timeout);
  }

  ghost predicate Run(s: State, steps: seq<Step>, t: State)
    decreases |steps|
  {
    if steps == [] then s == t else Enabled(s, steps[0]) && Run(Next(s, steps[0]), steps[1..], t)
  }

  lemma {:induction false} AllocsGrow(s: State, steps: seq<Step>, t: State)
    requires Run(s, steps, t)
    ensures |s.allocs| <= |t.allocs|
    decreases |steps|
  {
    hide Enabled;
    if steps != [] {
      NextGrows(s, steps[0]);
      AllocsGrow(Next(s, steps[0]), steps[1..], t);
    }
  }

  lemma NextGrows(s: State, step: Step)
    requires Enabled(s, step)
    ensures |s.allocs| <= |Next(s, step).allocs|
  {
  }

  lemma {:induction false} RunKeeps(s: State, steps: seq<Step>, t: State)
    requires Inv(s) && Run(s, steps, t) && |t.allocs| <= SIZE_MAX
    ensures Inv(t)
    decreases |steps|
  {
    hide Inv, Enabled, Next;
    if steps != [] {
      AllocsGrow(Next(s, steps[0]), steps[1..], t);
      StepKeeps(s, steps[0]);
      RunKeeps(Next(s, steps[0]), steps[1..], t);
    }
  }

  lemma BootInv(s: State)
    requires Booted(s)
    ensures Inv(s)
  {
  }

  /** In every interleaving with fewer than 2^32 starts: each accepted request is pending or has exactly one
      outcome; live slots carry distinct allocation numbers below the counter; every slot in allocation has
      exactly one owner among the two tasks and the waiting jobs. */
  lemma EveryRequestAccounted(s: State, steps: seq<Step>, t: State)
    requires Booted(s) && Run(s, steps, t) && |t.allocs| <= SIZE_MAX
    ensures Accounted(t) && Numbered(t) && Owned(t) && Recorded(t)
  {
    hide Run, Booted;
    BootInv(s);
    RunKeeps(s, steps, t);
  }

  // ---- What single steps may do -----------------------------------------------------------------

  /** The request has been sent and waits for its confirm. */
  predicate Executing(slots: seq<Slot>, id: nat) {
    exists i: nat :: i < |slots| && slots[i].state == Exec && slots[i].cmd == id
  }

  lemma CarriesMeansExecuting(s: State, buf: nat)
    requires Numbered(s) && Recorded(s) && buf < BUFFERS && s.sent[buf].valid
    ensures buf in s.sends
    ensures Carries(s.slots, s.sent[buf].idx, s.sent[buf].number) <==> Executing(s.slots, s.sends[buf])
    ensures Carries(s.slots, s.sent[buf].idx, s.sent[buf].number) ==> s.slots[s.sent[buf].idx].cmd == s.sends[buf]
  {
    var record := s.sent[buf];
    if Carries(s.slots, record.idx, record.number) {
      assert Live(s.slots, record.idx);
    }
    if Executing(s.slots, s.sends[buf]) {
      var i: nat :| i < |s.slots| && s.slots[i].state == Exec && s.slots[i].cmd == s.sends[buf];
      assert Live(s.slots, i);
      assert s.allocs[s.slots[i].number] == s.allocs[record.number];
      assert s.slots[i].number == record.number;
    }
  }

  /** A confirm on a buffer ends a request if and only if none has been taken since the buffer was last sent and the
      request it was sent for still waits; then it ends that one. Otherwise nothing ends. */
  lemma ConfirmEndsItsOwn(s: State, buf: nat, ok: bool)
    requires Inv(s) && Enabled(s, Confirm(buf, ok))
    ensures s.sent[buf].valid ==> buf in s.sends
    ensures var t := Next(s, Confirm(buf, ok));
            if s.sent[buf].valid && Executing(s.slots, s.sends[buf]) then
              && !Settled(s.outcomes, s.sends[buf])
              && t.outcomes == s.outcomes + [Outcome(s.sends[buf], if ok then Answered else Failed)]
              && (forall id: nat :: Pending(t.slots, id) <==> Pending(s.slots, id) && id != s.sends[buf])
            else
              t.outcomes == s.outcomes && t.slots == s.slots
  {
    hide Pending, Settled, Executing;
    var record := s.sent[buf];
    if record.valid {
      CarriesMeansExecuting(s, buf);
      if Carries(s.slots, record.idx, record.number) {
        CmdsAreDistinct(s);
        IsPending(s.slots, record.idx);
        forall id: nat
          ensures Pending(Freed(s.slots, record.idx), id) <==> Pending(s.slots, id) && id != s.slots[record.idx].cmd
        {
          FreedIsNotPending(s.slots, record.idx, id);
        }
      }
    }
  }

  /** The step sends on the buffer again, or takes a confirm on it. */
  predicate Touches(s: State, step: Step, buf: nat) {
    || (step == SendDone(true) && s.zboss.Sending? && s.zboss.buf == buf)
    || (step.Confirm? && step.buf == buf)
  }

  /** A run that leaves the buffer alone. */
  ghost predicate RunAside(s: State, steps: seq<Step>, buf: nat, t: State)
    decreases |steps|
  {
    if steps == [] then
      s == t
    else
      Enabled(s, steps[0]) && !Touches(s, steps[0], buf) && RunAside(Next(s, steps[0]), steps[1..], buf, t)
  }

  lemma StepAside(s: State, step: Step, buf: nat)
    requires Enabled(s, step) && !Touches(s, step, buf) && buf < BUFFERS && buf in s.sends
    ensures var t := Next(s, step);
            && |t.sent| == |s.sent| && t.sent[buf] == s.sent[buf] && buf in t.sends && t.sends[buf] == s.sends[buf]
  {
    hide Choose, ByTsnFrom, Carries, Swept, StaleCmds;
  }

  lemma {:induction false} RecordSurvives(s: State, steps: seq<Step>, buf: nat, t: State)
    requires RunAside(s, steps, buf, t) && buf < BUFFERS && buf in s.sends && |s.sent| == BUFFERS
    ensures Run(s, steps, t)
    ensures |t.sent| == BUFFERS && t.sent[buf] == s.sent[buf] && buf in t.sends && t.sends[buf] == s.sends[buf]
    decreases |steps|
  {
    hide Enabled, Next, Touches;
    if steps != [] {
      StepAside(s, steps[0], buf);
      RecordSurvives(Next(s, steps[0]), steps[1..], buf, t);
    }
  }

  /** From a send to its confirm, whatever happens in between on other buffers, starts, overrides, answers and
      watchdog sweeps included: the confirm ends the request that was sent if and only if it still waits for it. */
  lemma ConfirmFindsItsRequest(s: State, steps: seq<Step>, t: State, ok: bool)
    requires Inv(s) && Enabled(s, SendDone(true))
    requires RunAside(Next(s, SendDone(true)), steps, s.zboss.buf, t) && |t.allocs| <= SIZE_MAX
    requires Enabled(t, Confirm(s.zboss.buf, ok))
    ensures var id := s.slots[s.zboss.idx].cmd;
            Next(t, Confirm(s.zboss.buf, ok)).outcomes
              == t.outcomes + if Executing(t.slots, id) then [Outcome(id, if ok then Answered else Failed)] else []
  {
    hide Run, RunAside, Executing, Inv;
    var buf := s.zboss.buf;
    var sent := Next(s, SendDone(true));
    SendDoneKeeps(s, true);
    RecordSurvives(sent, steps, buf, t);
    RunKeeps(sent, steps, t);
    ConfirmEndsItsOwn(t, buf, ok);
    assert t.outcomes + [] == t.outcomes;
  }

  // ---- Which request a response ends ------------------------------------------------------------

  predicate Waits(slot: Slot, tsn: nat) {
    slot.state == Exec && slot.tsn == tsn
  }

  /** Slot `i` is the first whose request waits under this sequence number. */
  predicate FirstWaiting(slots: seq<Slot>, tsn: nat, i: nat) {
    i < |slots| && Waits(slots[i], tsn) && forall j: nat | j < i :: !Waits(slots[j], tsn)
  }

  /** This request and no other stops pending, with this outcome. */
  ghost predicate EndsOnly(s: State, t: State, id: nat, fate: Fate) {
    && !Settled(s.outcomes, id) && t.outcomes == s.outcomes + [Outcome(id, fate)]
    && forall x: nat :: Pending(t.slots, x) <==> Pending(s.slots, x) && x != id
  }

  lemma EndsOnlyItself(s: State, idx: nat, fate: Fate)
    requires Numbered(s) && Accounted(s) && Live(s.slots, idx)
    ensures EndsOnly(s, Ends(s, idx, fate), s.slots[idx].cmd, fate)
  {
    hide Pending, Settled;
    CmdsAreDistinct(s);
    IsPending(s.slots, idx);
    forall x: nat
      ensures Pending(Freed(s.slots, idx), x) <==> Pending(s.slots, x) && x != s.slots[idx].cmd
    {
      FreedIsNotPending(s.slots, idx, x);
    }
  }

  lemma FirstIs(slots: seq<Slot>, tsn: nat, i: nat)
    requires FirstWaiting(slots, tsn, i)
    ensures ByTsnFrom(slots, tsn, 0) == Some(i)
  {
    hide ByTsnFrom;
  }

  /** A response ends the request of the first slot that waits under its sequence number, and no other; with no such
      slot nothing changes. */
  lemma ResponseEndsItsOwn(s: State, tsn: nat, ok: bool)
    requires Inv(s) && Enabled(s, Response(tsn, ok))
    ensures var t := Next(s, Response(tsn, ok));
            && (forall i: nat | FirstWaiting(s.slots, tsn, i) ::
                  EndsOnly(s, t, s.slots[i].cmd, if ok then Answered else Failed))
            && ((forall i: nat | i < |s.slots| :: !Waits(s.slots[i], tsn)) ==> t == s)
  {
    hide Owned, Recorded, Numbered, Accounted, EndsOnly;
    var r := ByTsnFrom(s.slots, tsn, 0);
    forall i: nat | FirstWaiting(s.slots, tsn, i)
      ensures r == Some(i)
    {
      FirstIs(s.slots, tsn, i);
    }
    if r.Some? {
      EndsOnlyItself(s, r.value, if ok then Answered else Failed);
    }
  }

  /** Wherever this request is live, it waits in this slot under this sequence number. */
  ghost predicate WaitsIn(s: State, id: nat, idx: nat, tsn: nat) {
    && id < s.submitted
    && forall i: nat | Live(s.slots, i) && s.slots[i].cmd == id :: i == idx && Waits(s.slots[i], tsn)
  }

  lemma LivePublished(s: State, step: Step, i: nat)
    requires Inv(s) && Enabled(s, step) && step.Publish? && Live(Next(s, step).slots, i)
    ensures var t := Next(s, step);
            && Live(s.slots, i) && t.slots[i].cmd == s.slots[i].cmd
            && (t.slots[i] == s.slots[i] || (i == s.zboss.idx && s.slots[i].state == Allocation))
  {
    hide Accounted, Numbered, Recorded, Owned;
    OwnedIsAllocation(s, s.zboss.idx);
  }

  lemma LiveStarted(s: State, i: nat)
    requires |s.slots| == MAX_PARALLEL_REQUESTS && Live(Starts(s).slots, i)
    ensures Starts(s).slots[i].cmd == s.submitted || (Live(s.slots, i) && Starts(s).slots[i] == s.slots[i])
  {
    hide Choose;
  }

  /** A live slot is as it was before the step, or was just claimed, or just published. */
  lemma LiveBefore(s: State, step: Step, i: nat)
    requires Inv(s) && Enabled(s, step) && Live(Next(s, step).slots, i)
    ensures var t := Next(s, step);
            || (Live(s.slots, i) && t.slots[i] == s.slots[i])
            || (step.Start? && t.slots[i].cmd == s.submitted)
            || (step.Publish? && i == s.zboss.idx && Live(s.slots, i) && s.slots[i].state == Allocation
                && t.slots[i].cmd == s.slots[i].cmd)
  {
    hide Inv, Starts, Published, ByTsnFrom, StaleCmds, Carries, Reclaims;
    match step
    case Start => LiveStarted(s, i);
    case Publish(_, _) => LivePublished(s, step, i);
    case _ =>
  }

  lemma SubmittedGrows(s: State, step: Step)
    requires Enabled(s, step)
    ensures s.submitted <= Next(s, step).submitted
  {
  }

  lemma StepKeepsWaiting(s: State, step: Step, id: nat, idx: nat, tsn: nat)
    requires Inv(s) && Enabled(s, step) && WaitsIn(s, id, idx, tsn)
    ensures WaitsIn(Next(s, step), id, idx, tsn)
  {
    hide Inv, Enabled, Next;
    var t := Next(s, step);
    SubmittedGrows(s, step);
    forall i: nat | Live(t.slots, i) && t.slots[i].cmd == id
      ensures i == idx && Waits(t.slots[i], tsn)
    {
      LiveBefore(s, step, i);
    }
  }

  lemma {:induction false} RunKeepsWaiting(s: State, steps: seq<Step>, t: State, id: nat, idx: nat, tsn: nat)
    requires Inv(s) && Run(s, steps, t) && |t.allocs| <= SIZE_MAX && WaitsIn(s, id, idx, tsn)
    ensures Inv(t) && WaitsIn(t, id, idx, tsn)
    decreases |steps|
  {
    hide Inv, Enabled, Next, WaitsIn;
    if steps != [] {
      AllocsGrow(Next(s, steps[0]), steps[1..], t);
      StepKeeps(s, steps[0]);
      StepKeepsWaiting(s, steps[0], id, idx, tsn);
      RunKeepsWaiting(Next(s, steps[0]), steps[1..], t, id, idx, tsn);
    }
  }

  lemma PublishedWaits(s: State, tsn: nat, now: nat)
    requires Inv(s) && Enabled(s, Publish(tsn, now))
    ensures WaitsIn(Next(s, Publish(tsn, now)), s.slots[s.zboss.idx].cmd, s.zboss.idx, tsn)
  {
    hide Accounted, Recorded, Numbered;
    var idx := s.zboss.idx;
    OwnedIsAllocation(s, idx);
    CmdsAreDistinct(s);
    var t := Next(s, Publish(tsn, now));
    assert Live(s.slots, idx);
    assert forall i: nat | Live(t.slots, i) :: Live(s.slots, i) && t.slots[i].cmd == s.slots[i].cmd;
  }

  /** From the moment a request is published under a sequence number, through any run: a response with this number
      ends that request if and only if it still waits and no earlier slot waits under the same number. */
  lemma ResponseFindsItsRequest(s: State, tsn: nat, now: nat, steps: seq<Step>, t: State, ok: bool)
    requires Inv(s) && Enabled(s, Publish(tsn, now)) && Run(Next(s, Publish(tsn, now)), steps, t)
    requires |t.allocs| <= SIZE_MAX && Enabled(t, Response(tsn, ok))
    ensures var id := s.slots[s.zboss.idx].cmd;
            EndsOnly(t, Next(t, Response(tsn, ok)), id, if ok then Answered else Failed)
            <==> Executing(t.slots, id) && forall j: nat | j < s.zboss.idx < |t.slots| :: !Waits(t.slots[j], tsn)
  {
    hide Run, Inv, Next, EndsOnly, Executing;
    var idx, fate := s.zboss.idx, if ok then Answered else Failed;
    var id := s.slots[idx].cmd;
    var published := Next(s, Publish(tsn, now));
    PublishKeeps(s, tsn, now);
    PublishedWaits(s, tsn, now);
    RunKeepsWaiting(published, steps, t, id, idx, tsn);
    ResponseEndsItsOwn(t, tsn, ok);
    WaitingEnds(t, Next(t, Response(tsn, ok)), id, idx, tsn, fate);
  }

  lemma WaitingEnds(s: State, t: State, id: nat, idx: nat, tsn: nat, fate: Fate)
    requires Inv(s) && WaitsIn(s, id, idx, tsn) && idx < |s.slots|
    requires forall i: nat | FirstWaiting(s.slots, tsn, i) :: EndsOnly(s, t, s.slots[i].cmd, fate)
    requires (forall i: nat | i < |s.slots| :: !Waits(s.slots[i], tsn)) ==> t == s
    ensures EndsOnly(s, t, id, fate)
       <==> Executing(s.slots, id) && forall j: nat | j < idx < |s.slots| :: !Waits(s.slots[j], tsn)
  {
    hide Accounted, Owned, Recorded, Numbered, Pending, Settled;
    CmdsAreDistinct(s);
    var r := ByTsnFrom(s.slots, tsn, 0);
    if r.None? {
      assert t == s;
      assert !Executing(s.slots, id);
    } else {
      var i := r.value;
      assert FirstWaiting(s.slots, tsn, i) && Live(s.slots, i);
      assert (s.outcomes + [Outcome(s.slots[i].cmd, fate)])[|s.outcomes|].id == s.slots[i].cmd;
      assert EndsOnly(s, t, s.slots[i].cmd, fate);
      assert EndsOnly(s, t, id, fate) <==> s.slots[i].cmd == id;
      if Executing(s.slots, id) {
        var e: nat :| e < |s.slots| && s.slots[e].state == Exec && s.slots[e].cmd == id;
        assert Live(s.slots, e) && e == idx;
      }
    }
  }

  // ---- How the other steps end requests ---------------------------------------------------------

  /** A job that cannot be queued, or a send that fails, ends the request of its own slot as failed. */
  lemma FailureEndsItsOwn(s: State, step: Step)
    requires Inv(s) && Enabled(s, step) && (step == AppAlloc(false) || step == SendDone(false))
    ensures var idx := if step.AppAlloc? then s.app.idx else s.zboss.idx;
            EndsOnly(s, Next(s, step), s.slots[idx].cmd, Failed)
  {
    hide Accounted, Recorded, Numbered, Pending, Settled;
    var idx := if step.AppAlloc? then s.app.idx else s.zboss.idx;
    OwnedIsAllocation(s, idx);
    EndsOnlyItself(s, idx, Failed);
  }

  /** The sweep ends the requests that have waited for the timeout, and no other, as reclaimed. */
  lemma SweepEndsStale(s: State, timeout: nat)
    requires Inv(s) && Enabled(s, Sweep(timeout))
    ensures var t := Next(s, Sweep(timeout));
            && s.outcomes <= t.outcomes
            && (forall o | o in t.outcomes[|s.outcomes|..] :: o.fate == Reclaimed)
            && (forall i: nat | Live(s.slots, i) ::
                  Outcome(s.slots[i].cmd, Reclaimed) in t.outcomes[|s.outcomes|..]
                  <==> s.slots[i].state == Exec && timeout <= Elapsed(s.app.now, s.slots[i].tExec))
            && (forall i: nat | Live(s.slots, i) ::
                  Pending(t.slots, s.slots[i].cmd)
                  <==> !(s.slots[i].state == Exec && timeout <= Elapsed(s.app.now, s.slots[i].tExec)))
  {
    hide Accounted, Recorded, Numbered, Owned, Settled, StaleCmds, Pending;
    CmdsAreDistinct(s);
    var now := s.app.now;
    var cmds := StaleCmds(s.slots, now, timeout);
    var t := Next(s, Sweep(timeout));
    assert t.outcomes[|s.outcomes|..] == Reclaims(cmds);
    forall i: nat | Live(s.slots, i)
      ensures s.slots[i].cmd in cmds <==> Stale(s.slots[i], now, timeout)
      ensures Outcome(s.slots[i].cmd, Reclaimed) in Reclaims(cmds) <==> s.slots[i].cmd in cmds
      ensures Pending(t.slots, s.slots[i].cmd) <==> !Stale(s.slots[i], now, timeout)
    {
      StaleCmdsAre(s.slots, now, timeout, s.slots[i].cmd);
      InReclaims(cmds, s.slots[i].cmd);
      StillPending(s.slots, i);
    }
  }

  lemma InReclaims(cmds: seq<nat>, cmd: nat)
    ensures Outcome(cmd, Reclaimed) in Reclaims(cmds) <==> cmd in cmds
  {
    if cmd in cmds {
      var i: nat :| i < |cmds| && cmds[i] == cmd;
      assert Reclaims(cmds)[i] == Outcome(cmd, Reclaimed);
    }
  }

  lemma {:induction false} StaleCmdsAre(slots: seq<Slot>, now: nat, timeout: nat, cmd: nat)
    ensures cmd in StaleCmds(slots, now, timeout)
       <==> exists i: nat :: i < |slots| && Stale(slots[i], now, timeout) && slots[i].cmd == cmd
  {
    if slots != [] {
      var n := |slots| - 1;
      hide Stale;
      StaleCmdsAre(slots[..n], now, timeout, cmd);
      if exists i: nat :: i < n && Stale(slots[..n][i], now, timeout) && slots[..n][i].cmd == cmd {
        var i: nat :| i < n && Stale(slots[..n][i], now, timeout) && slots[..n][i].cmd == cmd;
        assert Stale(slots[i], now, timeout) && slots[i].cmd == cmd;
      }
      if exists i: nat :: i < |slots| && Stale(slots[i], now, timeout) && slots[i].cmd == cmd {
        var i: nat :| i < |slots| && Stale(slots[i], now, timeout) && slots[i].cmd == cmd;
        assert i < n ==> Stale(slots[..n][i], now, timeout) && slots[..n][i].cmd == cmd;
      }
    }
  }

  /** The other steps end nothing. */
  lemma OtherStepsEndNothing(s: State, step: Step)
    requires Inv(s) && Enabled(s, step)
    requires step.JobStart? || step.Publish? || step.Sample? || step == AppAlloc(true) || step == SendDone(true)
    ensures var t := Next(s, step);
            t.outcomes == s.outcomes && t.submitted == s.submitted
            && forall id: nat :: Pending(t.slots, id) <==> Pending(s.slots, id)
  {
    hide Accounted, Recorded, Numbered, Pending, Settled;
    var t := Next(s, step);
    if step.Publish? {
      OwnedIsAllocation(s, s.zboss.idx);
    }
    forall id: nat
      ensures Pending(t.slots, id) <==> Pending(s.slots, id)
    {
      SamePending(s.slots, t.slots, id);
    }
  }

  /** A slot in allocation changes only in the steps of its own request: the end of process, and do_request. */
  lemma AllocationIsPrivate(s: State, step: Step, i: nat)
    requires Inv(s) && Enabled(s, step) && i < |s.slots| && s.slots[i].state == Allocation
    requires !(step.AppAlloc? && s.app == Allocating(i))
    requires !((step.SendDone? || step.Publish?) && s.zboss.idx == i)
    ensures Next(s, step).slots[i] == s.slots[i]
  {
    hide Numbered, Accounted, Recorded;
    match step
    case Sweep(timeout) => assert !Stale(s.slots[i], s.app.now, timeout);
    case _ =>
  }

  /** A new request overrides a running one only when no slot is free, and then the one started first. */
  lemma OverrideIsOldest(s: State)
    requires Inv(s) && Enabled(s, Start)
    ensures var r := Choose(s.slots);
            if r.None? then
              && (forall i: nat | i < |s.slots| :: s.slots[i].state == Allocation)
              && Starts(s).outcomes == s.outcomes + [Outcome(s.submitted, Failed)]
            else if s.slots[r.value].state == Exec then
              && (forall i: nat | i < |s.slots| :: s.slots[i].state != Free)
              && Starts(s).outcomes == s.outcomes + [Outcome(s.slots[r.value].cmd, Overridden)]
              && (forall i: nat | i < |s.slots| && s.slots[i].state == Exec :: s.slots[r.value].cmd <= s.slots[i].cmd)
            else
              Starts(s).outcomes == s.outcomes
  {
    hide Owned, Accounted, Recorded, Choose;
    ChoiceIsOldest(s.slots);
    assert forall i: nat | i < |s.slots| && s.slots[i].state == Exec :: Live(s.slots, i);
  }

  // ---- A tick count read too early --------------------------------------------------------------

  lemma {:induction false} RunOfThree(s: State, a: Step, b: Step, c: Step)
    requires Enabled(s, a) && Enabled(Next(s, a), b) && Enabled(Next(Next(s, a), b), c)
    ensures Run(s, [a, b, c], Next(Next(Next(s, a), b), c))
  {
    hide Enabled, Next;
    var t := Next(Next(Next(s, a), b), c);
    assert Run(t, [], t);
    assert [c][1..] == [] && [b, c][1..] == [c] && [a, b, c][1..] == [b, c];
    assert Run(Next(Next(s, a), b), [c], t);
    assert Run(Next(s, a), [b, c], t);
  }

  lemma StillPending(slots: seq<Slot>, i: nat)
    requires DistinctCmds(slots) && Live(slots, i)
    ensures forall now: nat, timeout: nat ::
              Pending(Swept(slots, now, timeout), slots[i].cmd) <==> !Stale(slots[i], now, timeout)
  {
    forall now: nat, timeout: nat
      ensures Pending(Swept(slots, now, timeout), slots[i].cmd) <==> !Stale(slots[i], now, timeout)
    {
      var r := Swept(slots, now, timeout);
      assert forall j: nat | Live(r, j) :: Live(slots, j);
      assert Live(r, i) <==> !Stale(slots[i], now, timeout);
    }
  }

  /** The watchdog reads the tick counter, the ZBOSS task publishes a request it has just sent, the watchdog sweeps:
      the request is reclaimed if and only if a tick went by in between, and then its confirm ends nothing. */
  lemma SampledBeforePublished(s: State, now: nat, at: nat, tsn: nat, timeout: nat) returns (t: State)
    requires Inv(s) && Enabled(s, Sample(now % Watchdog.WRAP)) && Enabled(s, Publish(tsn, at % Watchdog.WRAP))
    requires now <= at && 0 < timeout && at + timeout <= now + Watchdog.WRAP
    ensures Run(s, [Sample(now % Watchdog.WRAP), Publish(tsn, at % Watchdog.WRAP), Sweep(timeout)], t)
    ensures var id := s.slots[s.zboss.idx].cmd;
            && (Outcome(id, Reclaimed) in t.outcomes <==> now < at)
            && (now < at ==> forall buf: nat, ok: bool | Enabled(t, Confirm(buf, ok)) && t.sent[buf].valid ::
                  buf in t.sends && (t.sends[buf] == id ==> Next(t, Confirm(buf, ok)).outcomes == t.outcomes))
  {
    hide Inv, Pending, Settled, Choose, StaleCmds, Executing, Run;
    WithinBounds(s);
    var idx := s.zboss.idx;
    var a := Next(s, Sample(now % Watchdog.WRAP));
    var b := Next(a, Publish(tsn, at % Watchdog.WRAP));
    t := Next(b, Sweep(timeout));
    RunOfThree(s, Sample(now % Watchdog.WRAP), Publish(tsn, at % Watchdog.WRAP), Sweep(timeout));
    StepKeeps(s, Sample(now % Watchdog.WRAP));
    StepKeeps(a, Publish(tsn, at % Watchdog.WRAP));
    StepKeeps(b, Sweep(timeout));
    ReclaimedHere(s, b, t, idx, now, at, timeout);
    if now < at {
      forall buf: nat, ok: bool | Enabled(t, Confirm(buf, ok)) && t.sent[buf].valid
        ensures buf in t.sends
        ensures t.sends[buf] == s.slots[idx].cmd ==> Next(t, Confirm(buf, ok)).outcomes == t.outcomes
      {
        ConfirmEndsItsOwn(t, buf, ok);
        if Executing(t.slots, s.slots[idx].cmd) {
          ExecutingIsPending(t.slots, s.slots[idx].cmd);
        }
      }
    }
  }

  lemma ExecutingIsPending(slots: seq<Slot>, id: nat)
    requires Executing(slots, id)
    ensures Pending(slots, id)
  {
    var i: nat :| i < |slots| && slots[i].state == Exec && slots[i].cmd == id;
    IsPending(slots, i);
  }

  lemma WithinBounds(s: State)
    requires Inv(s)
    ensures |s.slots| == MAX_PARALLEL_REQUESTS && |s.sent| == BUFFERS && |s.allocs| <= SIZE_MAX
    ensures s.zboss.Publishing? ==> s.zboss.idx < |s.slots| && s.slots[s.zboss.idx].state == Allocation
  {
    if s.zboss.Publishing? {
      OwnedIsAllocation(s, s.zboss.idx);
    }
  }

  lemma ReclaimedHere(s: State, b: State, t: State, idx: nat, now: nat, at: nat, timeout: nat)
    requires Inv(s) && Inv(b) && Inv(t) && idx < |s.slots| && |b.slots| == |s.slots| && s.slots[idx].state != Free
    requires b.slots[idx] == s.slots[idx].(state := Exec, tsn := b.slots[idx].tsn, tExec := at % Watchdog.WRAP)
    requires t.slots == Swept(b.slots, now % Watchdog.WRAP, timeout) && t.submitted == s.submitted
    requires exists cmds: seq<nat> :: t.outcomes == s.outcomes + Reclaims(cmds)
    requires now <= at && 0 < timeout && at + timeout <= now + Watchdog.WRAP
    ensures Outcome(s.slots[idx].cmd, Reclaimed) in t.outcomes <==> now < at
    ensures Pending(t.slots, s.slots[idx].cmd) <==> now == at
  {
    hide Owned, Recorded, Pending, Settled, StaleCmds;
    var id := s.slots[idx].cmd;
    CmdsAreDistinct(s);
    CmdsAreDistinct(b);
    assert Live(b.slots, idx);
    assert Live(s.slots, idx);
    IsPending(s.slots, idx);
    StillPending(b.slots, idx);
    if now < at {
      Watchdog.ElapsedOfFuture(now, at);
    } else {
      Watchdog.ElapsedIsReal(now, at);
    }
    SettledReclaimed(s.outcomes, t.outcomes, id);
  }

  lemma SettledReclaimed(a: seq<Outcome>, b: seq<Outcome>, id: nat)
    requires !Settled(a, id) && exists cmds: seq<nat> :: b == a + Reclaims(cmds)
    ensures Settled(b, id) <==> Outcome(id, Reclaimed) in b
  {
    if Settled(b, id) {
      var k: nat :| k < |b| && b[k].id == id;
      NotYetSettled(a, id);
      assert |a| <= k;
    }
  }
}
