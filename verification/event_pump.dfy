/** The byte and event plumbing between the tasks of the firmware (main/transport.cpp, main/app.cpp): two stream
    buffers and one event queue that says how many bytes to take next. Writers commit bytes first and post
    their event later, so events can be posted in another order than the bytes, or be lost when the queue is full. */
module EventPump {
  import opened Bytes
  import opened Collections
  import opened Framing

  const RINGBUF_SIZE := 20480
  const BUF_SIZE := 1024
  const BUFFER_SIZE := 2048
  const MAX_FRAME_SIZE := 2048
  const EVENT_QUEUE_LEN := 60

  /** EVENT_INPUT carries frames to the host, EVENT_OUTPUT bytes from the host. */
  datatype Direction = ToHost | FromHost

  datatype Event = Event(dir: Direction, size: nat)

  /** A stream buffer: `bytes` it holds, everything ever committed to it, everything taken out of it, the sizes
      committed whose event is not posted yet, and the bytes whose event was refused by the full queue, or came too
      late. */
  datatype Pipe = Pipe(bytes: seq<byte>, committed: seq<byte>, taken: seq<byte>, owed: seq<nat>, orphaned: nat)

  const EMPTY := Pipe([], [], [], [], 0)

  /** `sending` is the frame of the writer that holds m_input_sem and has seen enough space, empty if none;
      `frames` are the frames committed towards the host, `wire` the bytes handed to write_int, `chunks` what
      protocol::on_rx was called with; `failures` counts receives that came back short, short sends and oversize
      events. */
  datatype System = System(toHost: Pipe, fromHost: Pipe, queue: seq<Event>, sending: seq<byte>,
                           frames: seq<seq<byte>>, wire: seq<byte>, chunks: seq<seq<byte>>, failures: nat)

  predicate Booted(s: System) {
    s == System(EMPTY, EMPTY, [], [], [], [], [], 0)
  }

  function PipeOf(s: System, d: Direction): Pipe {
    if d == ToHost then s.toHost else s.fromHost
  }

  function WithPipe(s: System, d: Direction, p: Pipe): System {
    if d == ToHost then s.(toHost := p) else s.(fromHost := p)
  }

  const TICK_WRAP := 0x1_0000_0000

  /** Real times, in ticks, at which process_input reads the tick counter: to set its deadline `wait` ticks ahead, and
      before its first receive. The counter shows their low 32 bits. */
  datatype Clock = Clock(start: nat, first: nat, wait: nat)

  /** now >= deadline: the loop of process_input gives up before it has received anything. */
  predicate Late(c: Clock) {
    (c.start + c.wait) % TICK_WRAP <= c.first % TICK_WRAP
  }

  datatype Step =
    | Reserve(frame: seq<byte>)
    | Send
    | Pump(data: seq<byte>)
    | Post(dir: Direction, at: nat)
    | Drop(dir: Direction, at: nat)
    | Process(clock: Clock)

  function Space(p: Pipe): nat {
    if |p.bytes| <= RINGBUF_SIZE then RINGBUF_SIZE - |p.bytes| else 0
  }

  function Min(a: nat, b: nat): nat { if a <= b then a else b }

  /** Reserve and Send are the two halves of send_int under its lock: first the wait for space, then the
      commit; the reader may run in between. Pump is one xStreamBufferSend of rx_pump. Post and Drop are the event
      that follows a commit, refused only by a full queue. */
  predicate Enabled(s: System, step: Step) {
    match step
    case Reserve(frame) => s.sending == [] && 0 < |frame| <= MAX_FRAME_SIZE && |frame| <= Space(s.toHost)
    case Send => s.sending != []
    case Pump(data) => 0 < |data| <= BUF_SIZE && 0 < Space(s.fromHost)
    case Post(d, at) => at < |PipeOf(s, d).owed| && |s.queue| < EVENT_QUEUE_LEN
    case Drop(d, at) => at < |PipeOf(s, d).owed| && |s.queue| == EVENT_QUEUE_LEN
    case Process(_) => s.queue != []
  }

  /** xStreamBufferSend: what does not fit is not taken. */
  function Commit(p: Pipe, data: seq<byte>): Pipe {
    var sent := data[..Min(|data|, Space(p))];
    p.(bytes := p.bytes + sent, committed := p.committed + sent, owed := p.owed + [|sent|])
  }

  /** xStreamBufferReceive: at most `n` bytes, fewer when the buffer holds fewer. */
  function Take(p: Pipe, n: nat): Pipe {
    var got := Min(n, |p.bytes|);
    p.(bytes := p.bytes[got..], taken := p.taken + p.bytes[..got])
  }

  function Next(s: System, step: Step): System
    requires Enabled(s, step)
  {
    match step
    case Reserve(frame) =>
      s.(sending := frame)
    case Send =>
      var p := Commit(s.toHost, s.sending);
      s.(toHost := p, sending := [], frames := s.frames + [s.sending],
         failures := s.failures + if p.owed[|p.owed| - 1] != |s.sending| then 1 else 0)
    case Pump(data) =>
      s.(fromHost := Commit(s.fromHost, data))
    case Post(d, at) =>
      var p := PipeOf(s, d);
      WithPipe(s, d, p.(owed := Without(p.owed, at))).(queue := s.queue + [Event(d, p.owed[at])])
    case Drop(d, at) =>
      var p := PipeOf(s, d);
      WithPipe(s, d, p.(owed := Without(p.owed, at), orphaned := p.orphaned + p.owed[at]))
    case Process(clock) =>
      Processed(s.(queue := s.queue[1..]), s.queue[0], clock)
  }

  /** The event is consumed, its bytes stay in the buffer. */
  function Stranded(s: System, e: Event): System {
    var p := PipeOf(s, e.dir);
    WithPipe(s, e.dir, p.(orphaned := p.orphaned + e.size)).(failures := s.failures + 1)
  }

  /** process_event. Bytes of a short receive are gone. */
  function Processed(s: System, e: Event, clock: Clock): System {
    var p := PipeOf(s, e.dir);
    if e.size > BUFFER_SIZE || (e.dir == ToHost && Late(clock)) then
      Stranded(s, e)
    else
      var q := WithPipe(s, e.dir, Take(p, e.size));
      if |p.bytes| < e.size then
        q.(failures := s.failures + 1)
      else if e.dir == ToHost then
        q.(wire := s.wire + p.bytes[..e.size])
      else
        q.(chunks := s.chunks + [p.bytes[..e.size]])
  }

  /** The counter has wrapped around equally often at both times. */
  predicate SameRound(a: nat, b: nat) {
    a / TICK_WRAP == b / TICK_WRAP
  }

  /** When the deadline is missed, in real time: exactly when it has passed, if the counter does not wrap around between
      deadline and receive; exactly when it has not passed, if it does. */
  lemma LateInRealTime(c: Clock)
    requires c.wait <= TICK_WRAP && c.start <= c.first < c.start + c.wait + TICK_WRAP
    ensures var deadline := c.start + c.wait;
            Late(c) <==> (SameRound(deadline, c.first) <==> deadline <= c.first)
  {
    var deadline := c.start + c.wait;
    var a, b := deadline / TICK_WRAP, c.first / TICK_WRAP;
    assert deadline == TICK_WRAP * a + deadline % TICK_WRAP;
    assert c.first == TICK_WRAP * b + c.first % TICK_WRAP;
    if b < a {
      assert TICK_WRAP * b + TICK_WRAP <= TICK_WRAP * a;
    } else if a < b {
      assert TICK_WRAP * a + TICK_WRAP <= TICK_WRAP * b;
    }
  }

  // ---- The invariant ----------------------------------------------------------------------------

  function Sum(sizes: seq<nat>): (n: nat) {
    if sizes == [] then 0 else sizes[0] + Sum(sizes[1..])
  }

  /** Bytes announced to the event pump in one direction. */
  function Queued(queue: seq<Event>, d: Direction): (n: nat) {
    if queue == [] then 0 else (if queue[0].dir == d then queue[0].size else 0) + Queued(queue[1..], d)
  }

  function Limit(d: Direction): nat {
    if d == ToHost then MAX_FRAME_SIZE else BUF_SIZE
  }

  /** Every byte in the buffer is announced, about to be announced, or orphaned; nothing is announced twice. */
  predicate Paired(p: Pipe, queue: seq<Event>, d: Direction) {
    && |p.bytes| == Queued(queue, d) + Sum(p.owed) + p.orphaned
    && p.committed == p.taken + p.bytes
    && |p.bytes| <= RINGBUF_SIZE
    && (forall i: nat | i < |p.owed| :: 0 < p.owed[i] <= Limit(d))
    && (forall i: nat | i < |queue| && queue[i].dir == d :: 0 < queue[i].size <= Limit(d))
  }

  predicate Inv(s: System) {
    && Paired(s.toHost, s.queue, ToHost) && Paired(s.fromHost, s.queue, FromHost)
    && s.toHost.committed == Concat(s.frames) && s.toHost.taken == s.wire
    && s.fromHost.taken == Concat(s.chunks)
    && (forall i: nat | i < |s.chunks| :: 0 < |s.chunks[i]| <= BUF_SIZE)
    && |s.queue| <= EVENT_QUEUE_LEN
    && |s.sending| <= MAX_FRAME_SIZE && |s.sending| <= Space(s.toHost)
  }

  lemma {:induction false} SumAppend(a: seq<nat>, b: seq<nat>)
    ensures Sum(a + b) == Sum(a) + Sum(b)
  {
    if a == [] {
      assert a + b == b;
    } else {
      assert (a + b)[1..] == a[1..] + b;
      SumAppend(a[1..], b);
    }
  }

  lemma SumOne(n: nat)
    ensures Sum([n]) == n
  {
    assert [n][1..] == [];
  }

  lemma SumMiddle(a: seq<nat>, n: nat, b: seq<nat>)
    ensures Sum(a + [n] + b) == Sum(a + b) + n
  {
    hide Sum;
    SumAppend(a + [n], b);
    SumAppend(a, [n]);
    SumAppend(a, b);
    SumOne(n);
  }

  lemma SumWithout(s: seq<nat>, at: nat)
    requires at < |s|
    ensures Sum(s) == Sum(Without(s, at)) + s[at]
  {
    hide Sum;
    assert s == s[..at] + [s[at]] + s[at + 1..];
    SumMiddle(s[..at], s[at], s[at + 1..]);
  }

  lemma {:induction false} QueuedAppend(q: seq<Event>, e: Event, d: Direction)
    ensures Queued(q + [e], d) == Queued(q, d) + if e.dir == d then e.size else 0
  {
    if q == [] {
      assert q + [e] == [e] && [e][1..] == [];
    } else {
      assert (q + [e])[1..] == q[1..] + [e];
      QueuedAppend(q[1..], e, d);
    }
  }

  // ---- Every step keeps it ----------------------------------------------------------------------

  lemma CommitKeeps(p: Pipe, queue: seq<Event>, d: Direction, data: seq<byte>)
    requires Paired(p, queue, d) && 0 < |data| <= Limit(d) && 0 < Space(p)
    ensures Paired(Commit(p, data), queue, d)
  {
    hide Queued, Sum;
    var sent := data[..Min(|data|, Space(p))];
    var q := Commit(p, data);
    SumAppend(p.owed, [|sent|]);
    SumOne(|sent|);
    assert p.taken + p.bytes + sent == p.taken + (p.bytes + sent);
    assert forall i: nat | i < |p.owed| :: q.owed[i] == p.owed[i];
  }

  lemma PostKeeps(p: Pipe, queue: seq<Event>, d: Direction, at: nat)
    requires Paired(p, queue, d) && at < |p.owed|
    ensures Paired(p.(owed := Without(p.owed, at)), queue + [Event(d, p.owed[at])], d)
  {
    hide Queued, Sum;
    SumWithout(p.owed, at);
    QueuedAppend(queue, Event(d, p.owed[at]), d);
  }

  lemma OtherPostKeeps(p: Pipe, queue: seq<Event>, d: Direction, e: Event)
    requires Paired(p, queue, d) && e.dir != d
    ensures Paired(p, queue + [e], d)
  {
    hide Queued, Sum;
    QueuedAppend(queue, e, d);
  }

  lemma DropKeeps(p: Pipe, queue: seq<Event>, d: Direction, at: nat)
    requires Paired(p, queue, d) && at < |p.owed|
    ensures Paired(p.(owed := Without(p.owed, at), orphaned := p.orphaned + p.owed[at]), queue, d)
  {
    hide Queued, Sum;
    SumWithout(p.owed, at);
  }

  lemma TakeKeeps(p: Pipe, queue: seq<Event>, d: Direction)
    requires Paired(p, queue, d) && queue != []
    ensures var e := queue[0];
            if e.dir == d then
              e.size <= |p.bytes| && Paired(Take(p, e.size), queue[1..], d)
            else
              Paired(p, queue[1..], d)
  {
    hide Sum;
    var e := queue[0];
    if e.dir == d {
      assert p.taken + p.bytes[..e.size] + p.bytes[e.size..] == p.taken + p.bytes;
    }
  }

  /** A ToHost event that misses its deadline. */
  predicate Misses(s: System, step: Step) {
    step.Process? && s.queue != [] && s.queue[0].dir == ToHost && Late(step.clock)
  }

  /** A failure is a ToHost event that misses its deadline, and nothing else is. */
  lemma StepKeeps(s: System, step: Step)
    requires Inv(s) && Enabled(s, step)
    ensures Inv(Next(s, step))
    ensures Next(s, step).failures == s.failures + if Misses(s, step) then 1 else 0
  {
    hide Paired;
    match step
    case Reserve(frame) =>
    case Send =>
      SendKeeps(s);
    case Pump(data) =>
      CommitKeeps(s.fromHost, s.queue, FromHost, data);
    case Post(d, at) =>
      PostKeeps(PipeOf(s, d), s.queue, d, at);
      var e := Event(d, PipeOf(s, d).owed[at]);
      if d == ToHost {
        OtherPostKeeps(s.fromHost, s.queue, FromHost, e);
      } else {
        OtherPostKeeps(s.toHost, s.queue, ToHost, e);
      }
    case Drop(d, at) =>
      DropKeeps(PipeOf(s, d), s.queue, d, at);
    case Process(clock) =>
      ProcessKeeps(s, clock);
  }

  lemma SendKeeps(s: System)
    requires Inv(s) && s.sending != []
    ensures Inv(Next(s, Send)) && Next(s, Send).failures == s.failures
  {
    hide Paired, Concat;
    var frame := s.sending;
    CommitKeeps(s.toHost, s.queue, ToHost, frame);
    assert frame[..|frame|] == frame;
    ConcatAppend(s.frames, [frame]);
    ConcatOne(frame);
  }

  lemma ConcatOne(frame: seq<byte>)
    ensures Concat([frame]) == frame
  {
    assert [frame][1..] == [];
    assert frame + [] == frame;
  }

  lemma StrandedKeeps(p: Pipe, queue: seq<Event>, d: Direction)
    requires Paired(p, queue, d) && queue != [] && queue[0].dir == d
    ensures Paired(p.(orphaned := p.orphaned + queue[0].size), queue[1..], d)
  {
    hide Sum;
  }

  lemma HeadFits(p: Pipe, queue: seq<Event>, d: Direction)
    requires Paired(p, queue, d) && queue != [] && queue[0].dir == d
    ensures 0 < queue[0].size <= Limit(d) <= BUFFER_SIZE
  {
  }

  lemma ProcessKeeps(s: System, clock: Clock)
    requires Inv(s) && s.queue != []
    ensures Inv(Next(s, Process(clock)))
    ensures Next(s, Process(clock)).failures == s.failures + if Misses(s, Process(clock)) then 1 else 0
  {
    hide Concat, Paired, Late;
    TakeKeeps(s.toHost, s.queue, ToHost);
    TakeKeeps(s.fromHost, s.queue, FromHost);
    var e := s.queue[0];
    HeadFits(PipeOf(s, e.dir), s.queue, e.dir);
    StrandedKeeps(PipeOf(s, e.dir), s.queue, e.dir);
    if e.dir == FromHost {
      var chunk := s.fromHost.bytes[..e.size];
      ConcatAppend(s.chunks, [chunk]);
      ConcatOne(chunk);
    }
  }

  ghost predicate Run(s: System, steps: seq<Step>, t: System)
    decreases |steps|
  {
    if steps == [] then s == t else Enabled(s, steps[0]) && Run(Next(s, steps[0]), steps[1..], t)
  }

  /** How many ToHost events miss their deadline in a run. */
  function Missed(s: System, steps: seq<Step>): nat
    decreases |steps|
  {
    if steps == [] || !Enabled(s, steps[0]) then
      0
    else
      (if Misses(s, steps[0]) then 1 else 0) + Missed(Next(s, steps[0]), steps[1..])
  }

  /** No event towards the host is refused by the queue and none misses its deadline. */
  predicate NothingLost(s: System, steps: seq<Step>)
    decreases |steps|
  {
    || steps == [] || !Enabled(s, steps[0])
    || (!Loses(s, steps[0]) && NothingLost(Next(s, steps[0]), steps[1..]))
  }

  predicate Loses(s: System, step: Step) {
    Misses(s, step) || (step.Drop? && step.dir == ToHost)
  }

  lemma StepOrphans(s: System, step: Step)
    requires Inv(s) && Enabled(s, step)
    ensures s.toHost.orphaned <= Next(s, step).toHost.orphaned
    ensures Next(s, step).toHost.orphaned == s.toHost.orphaned <==> !Loses(s, step)
  {
    hide Concat, Queued, Sum, Late;
  }

  lemma {:induction false} RunOrphans(s: System, steps: seq<Step>, t: System)
    requires Inv(s) && Run(s, steps, t)
    ensures s.toHost.orphaned <= t.toHost.orphaned
    ensures t.toHost.orphaned == s.toHost.orphaned <==> NothingLost(s, steps)
    decreases |steps|
  {
    hide Inv, Next, Enabled, Loses;
    if steps != [] {
      StepKeeps(s, steps[0]);
      StepOrphans(s, steps[0]);
      RunOrphans(Next(s, steps[0]), steps[1..], t);
    }
  }

  lemma {:induction false} RunKeeps(s: System, steps: seq<Step>, t: System)
    requires Inv(s) && Run(s, steps, t)
    ensures Inv(t) && t.failures == s.failures + Missed(s, steps)
    decreases |steps|
  {
    hide Inv, Next, Enabled, Misses;
    if steps != [] {
      StepKeeps(s, steps[0]);
      RunKeeps(Next(s, steps[0]), steps[1..], t);
    }
  }

  // ---- What the writers put in ------------------------------------------------------------------

  /** The bytes of the host that one step brings into the buffer: of a read, as many as there is room for. */
  function Admitted(s: System, step: Step): seq<byte> {
    if step.Pump? && |step.data| <= Space(s.fromHost) then step.data
    else if step.Pump? then step.data[..Space(s.fromHost)]
    else []
  }

  /** The bytes of the host that a run brings in, in the order of its reads. */
  function HostBytes(s: System, steps: seq<Step>): seq<byte>
    decreases |steps|
  {
    if steps == [] || !Enabled(s, steps[0]) then
      []
    else
      Admitted(s, steps[0]) + HostBytes(Next(s, steps[0]), steps[1..])
  }

  /** The bytes of a read. */
  function ReadOf(step: Step): seq<byte> {
    if step.Pump? then step.data else []
  }

  /** All the bytes of the reads of a run. */
  function HostReads(steps: seq<Step>): seq<byte> {
    if steps == [] then [] else ReadOf(steps[0]) + HostReads(steps[1..])
  }

  /** The frames that got their room in a run. */
  function Reserved(steps: seq<Step>): seq<seq<byte>> {
    if steps == [] then [] else (if steps[0].Reserve? then [steps[0].frame] else []) + Reserved(steps[1..])
  }

  /** The frames in the buffer and the one on its way in. */
  function Frames(s: System): seq<seq<byte>> {
    s.frames + if s.sending == [] then [] else [s.sending]
  }

  /** A read that finds too little room, or an event from the host that the queue refuses. */
  predicate LosesHostBytes(s: System, step: Step) {
    || (step.Pump? && Space(s.fromHost) < |step.data|)
    || (step.Drop? && step.dir == FromHost)
  }

  predicate NoHostByteLost(s: System, steps: seq<Step>)
    decreases |steps|
  {
    || steps == [] || !Enabled(s, steps[0])
    || (!LosesHostBytes(s, steps[0]) && NoHostByteLost(Next(s, steps[0]), steps[1..]))
  }

  lemma StepCommits(s: System, step: Step)
    requires Inv(s) && Enabled(s, step)
    ensures var t := Next(s, step);
            && t.fromHost.committed == s.fromHost.committed + Admitted(s, step)
            && Frames(t) == Frames(s) + (if step.Reserve? then [step.frame] else [])
            && s.fromHost.orphaned <= t.fromHost.orphaned
            && |Admitted(s, step)| <= |ReadOf(step)|
            && (!LosesHostBytes(s, step) <==>
                  t.fromHost.orphaned == s.fromHost.orphaned && Admitted(s, step) == ReadOf(step))
  {
    hide Concat, Queued, Sum, Late;
    if step.Pump? {
      assert step.data[..|step.data|] == step.data;
    } else if step.Process? && s.queue[0].dir == FromHost {
      HeadFits(s.fromHost, s.queue, FromHost);
    }
  }

  /** In every run: what was committed from the host are the bytes of its reads that found room, in order; the frames
      committed towards the host are those reserved, in order. */
  lemma {:induction false} RunCommits(s: System, steps: seq<Step>, t: System)
    requires Inv(s) && Run(s, steps, t)
    ensures t.fromHost.committed == s.fromHost.committed + HostBytes(s, steps)
    ensures Frames(t) == Frames(s) + Reserved(steps)
    decreases |steps|
  {
    hide Inv, Next, Enabled, LosesHostBytes, Admitted, Frames, ReadOf;
    if steps != [] {
      var next := Next(s, steps[0]);
      StepKeeps(s, steps[0]);
      StepCommits(s, steps[0]);
      RunCommits(next, steps[1..], t);
      Regroup(s.fromHost.committed, Admitted(s, steps[0]), HostBytes(next, steps[1..]));
      Regroup(Frames(s), if steps[0].Reserve? then [steps[0].frame] else [], Reserved(steps[1..]));
    }
  }

  lemma Regroup<T>(a: seq<T>, b: seq<T>, c: seq<T>)
    ensures (a + b) + c == a + (b + c)
  {
  }

  /** They are all bytes of the reads, and no event for them is refused, exactly if none was lost. */
  lemma {:induction false} RunLoses(s: System, steps: seq<Step>, t: System)
    requires Inv(s) && Run(s, steps, t)
    ensures s.fromHost.orphaned <= t.fromHost.orphaned && |HostBytes(s, steps)| <= |HostReads(steps)|
    ensures NoHostByteLost(s, steps) <==>
              t.fromHost.orphaned == s.fromHost.orphaned && HostBytes(s, steps) == HostReads(steps)
    decreases |steps|
  {
    hide Inv, Next, Enabled, LosesHostBytes, Admitted, Frames, ReadOf;
    if steps != [] {
      var next := Next(s, steps[0]);
      StepKeeps(s, steps[0]);
      StepCommits(s, steps[0]);
      RunLoses(next, steps[1..], t);
      SamePrefix(Admitted(s, steps[0]), HostBytes(next, steps[1..]), ReadOf(steps[0]), HostReads(steps[1..]));
    }
  }

  lemma OneStepReads(s: System, step: Step)
    requires Enabled(s, step)
    ensures HostBytes(s, [step]) == Admitted(s, step) && HostReads([step]) == ReadOf(step)
    ensures NoHostByteLost(s, [step]) <==> !LosesHostBytes(s, step)
  {
    hide Next, Enabled, LosesHostBytes, Admitted;
    assert [step][1..] == [];
  }

  lemma {:induction false} ReadsAppend(s: System, a: seq<Step>, t: System, b: seq<Step>)
    requires Run(s, a, t)
    ensures HostBytes(s, a + b) == HostBytes(s, a) + HostBytes(t, b)
    ensures HostReads(a + b) == HostReads(a) + HostReads(b)
    ensures NoHostByteLost(s, a + b) <==> NoHostByteLost(s, a) && NoHostByteLost(t, b)
    decreases |a|
  {
    hide Next, Enabled, LosesHostBytes, Admitted, ReadOf;
    if a == [] {
      assert a + b == b;
    } else {
      assert (a + b)[1..] == a[1..] + b;
      var next := Next(s, a[0]);
      ReadsAppend(next, a[1..], t, b);
      Regroup(Admitted(s, a[0]), HostBytes(next, a[1..]), HostBytes(t, b));
      Regroup(ReadOf(a[0]), HostReads(a[1..]), HostReads(b));
    }
  }

  lemma SamePrefix(a: seq<byte>, b: seq<byte>, c: seq<byte>, d: seq<byte>)
    requires |a| <= |c| && |b| <= |d|
    ensures a + b == c + d <==> a == c && b == d
  {
    if a + b == c + d {
      assert |a| == |c|;
      assert a == (a + b)[..|a|] == (c + d)[..|c|] == c;
      assert b == (a + b)[|a|..] == (c + d)[|c|..] == d;
    }
  }

  lemma EmptyIsPaired(p: Pipe, queue: seq<Event>, d: Direction)
    requires p == EMPTY && queue == []
    ensures Paired(p, queue, d)
  {
  }

  lemma BootKeeps(s: System)
    requires Booted(s)
    ensures Inv(s) && s.failures == 0 && s.toHost.orphaned == 0
  {
    hide Paired;
    EmptyIsPaired(s.toHost, s.queue, ToHost);
    EmptyIsPaired(s.fromHost, s.queue, FromHost);
  }

  /** In every interleaving of the tasks, with events posted in any order, lost or late: what fails are the receives
      of the events that miss their deadline, each of them and nothing else; what reaches the wire is a prefix of the
      frames that were given room, back to back; what reaches on_rx are chunks it accepts, together a prefix of the
      bytes of the host's reads that found room. */
  lemma PumpIsSafe(s: System, steps: seq<Step>, t: System)
    requires Booted(s) && Run(s, steps, t)
    ensures t.failures == Missed(s, steps)
    ensures t.wire <= Concat(t.frames) && t.frames <= Reserved(steps)
    ensures Concat(t.chunks) <= t.fromHost.committed == HostBytes(s, steps)
    ensures forall i: nat | i < |t.chunks| :: 0 < |t.chunks[i]| <= BUF_SIZE
  {
    hide Run, Next, Concat, Paired, Booted, Missed, HostBytes, Reserved, NoHostByteLost;
    BootKeeps(s);
    RunKeeps(s, steps, t);
    RunCommits(s, steps, t);
    NothingCommitted(s);
    assert [] + HostBytes(s, steps) == HostBytes(s, steps) && [] + Reserved(steps) == Reserved(steps);
    PairedSplits(t.toHost, t.queue, ToHost);
    PairedSplits(t.fromHost, t.queue, FromHost);
  }

  lemma PairedSplits(p: Pipe, queue: seq<Event>, d: Direction)
    requires Paired(p, queue, d)
    ensures p.taken <= p.committed
  {
    hide Sum, Queued;
  }

  /** Once every event is posted and processed, the wire has all committed frames if and only if no event was refused
      by the queue and none missed its deadline; what is missing are the bytes of those events. */
  lemma DrainedIsComplete(s: System, steps: seq<Step>, t: System)
    requires Booted(s) && Run(s, steps, t)
    requires t.queue == [] && t.toHost.owed == []
    ensures t.wire == Concat(t.frames) <==> NothingLost(s, steps)
    ensures |t.wire| + t.toHost.orphaned == |Concat(t.frames)|
  {
    hide Run, Next, Concat, Booted, NothingLost, Missed;
    BootKeeps(s);
    RunKeeps(s, steps, t);
    RunOrphans(s, steps, t);
    assert t.wire + t.toHost.bytes == Concat(t.frames);
  }

  lemma NothingCommitted(s: System)
    requires Booted(s)
    ensures s.fromHost.committed == [] && Frames(s) == [] && s.fromHost.orphaned == 0
  {
  }

  /** Once every event of the other direction is posted and processed, on_rx has been handed all the bytes the host's
      reads brought if and only if each read found room for all of its bytes and no event was refused. */
  lemma HostBytesArrive(s: System, steps: seq<Step>, t: System)
    requires Booted(s) && Run(s, steps, t)
    requires t.queue == [] && t.fromHost.owed == []
    ensures Concat(t.chunks) == HostReads(steps) <==> NoHostByteLost(s, steps)
  {
    hide Run, Next, Concat, Booted, Missed, HostBytes, HostReads, NoHostByteLost, Reserved;
    BootKeeps(s);
    RunKeeps(s, steps, t);
    RunCommits(s, steps, t);
    RunLoses(s, steps, t);
    NothingCommitted(s);
    assert [] + HostBytes(s, steps) == HostBytes(s, steps);
    assert |t.fromHost.bytes| == t.fromHost.orphaned;
    assert Concat(t.chunks) + t.fromHost.bytes == HostBytes(s, steps);
  }

  /** What the host cuts out of the wire are the first of the frames the firmware committed, whole and in order. */
  lemma HostSeesCommittedFrames(k: Checksums, who: Parser, s: System, steps: seq<Step>, t: System)
    requires Booted(s) && Run(s, steps, t)
    requires forall i: nat | i < |t.frames| :: IsFrame(k, t.frames[i])
    ensures Scan(k, who, t.wire, 0).cuts <= Laid(t.frames, 0)
  {
    hide Run, Next, Scan, IsFrame;
    PumpIsSafe(s, steps, t);
    PartialTransmission(k, who, t.frames, t.wire);
  }

  // ---- What a missed deadline does --------------------------------------------------------------

  lemma Follow(s: System, step: Step, steps: seq<Step>, t: System)
    requires Enabled(s, step) && Run(Next(s, step), steps, t)
    ensures Run(s, [step] + steps, t)
  {
    hide Next, Enabled;
    assert ([step] + steps)[1..] == steps;
  }

  lemma Nothing(t: System)
    ensures Run(t, [], t)
  {
  }

  /** A frame committed and announced, the queue holding nothing else. */
  predicate Announced(s: System, size: nat) {
    s.queue == [Event(ToHost, size)] && s.toHost.owed == [] && s.sending == []
  }

  lemma Announces(s: System, frame: seq<byte>) returns (t: System)
    requires Inv(s) && s.queue == [] && s.toHost.owed == [] && Enabled(s, Reserve(frame))
    ensures Run(s, [Reserve(frame), Send, Post(ToHost, 0)], t) && Announced(t, |frame|) && t.failures == s.failures
    ensures t.toHost.bytes == s.toHost.bytes + frame && t.frames == s.frames + [frame]
    ensures t.wire == s.wire && t.toHost.orphaned == s.toHost.orphaned
  {
    hide Run, Paired;
    var a := Next(s, Reserve(frame));
    StepKeeps(s, Reserve(frame));
    var b := Next(a, Send);
    StepKeeps(a, Send);
    t := Next(b, Post(ToHost, 0));
    assert frame[..|frame|] == frame;
    assert b.toHost.owed == [|frame|];
    Nothing(t);
    Follow(b, Post(ToHost, 0), [], t);
    Follow(a, Send, [Post(ToHost, 0)] + [], t);
    Follow(s, Reserve(frame), [Send] + ([Post(ToHost, 0)] + []), t);
    assert [Reserve(frame)] + ([Send] + ([Post(ToHost, 0)] + [])) == [Reserve(frame), Send, Post(ToHost, 0)];
  }

  lemma {:induction false} RunAppend(s: System, a: seq<Step>, t: System, b: seq<Step>, u: System)
    requires Run(s, a, t) && Run(t, b, u)
    ensures Run(s, a + b, u)
    decreases |a|
  {
    hide Next, Enabled;
    if a == [] {
      assert a + b == b;
    } else {
      assert (a + b)[1..] == a[1..] + b;
      RunAppend(Next(s, a[0]), a[1..], t, b, u);
    }
  }

  /** One tick before the counter wraps, with any timeout: the frame is in the buffer, no time has gone by, and its
      event fails. Everything is drained, nothing was refused by the queue, and the wire is empty. */
  lemma WrapStrandsFrame(s: System, frame: seq<byte>, wait: nat) returns (steps: seq<Step>, t: System)
    requires Booted(s) && 0 < |frame| <= MAX_FRAME_SIZE && 0 < wait < TICK_WRAP
    ensures steps == [Reserve(frame), Send, Post(ToHost, 0)] + [Process(Clock(TICK_WRAP - 1, TICK_WRAP - 1, wait))]
    ensures Run(s, steps, t) && t.failures == 1
    ensures t.queue == [] && t.toHost.owed == [] && t.frames == [frame] && t.wire == []
  {
    hide Run, Paired;
    BootKeeps(s);
    var late := Process(Clock(TICK_WRAP - 1, TICK_WRAP - 1, wait));
    var a := Announces(s, frame);
    t := Next(a, late);
    Nothing(t);
    Follow(a, late, [], t);
    assert [late] + [] == [late];
    steps := [Reserve(frame), Send, Post(ToHost, 0)] + [late];
    RunAppend(s, [Reserve(frame), Send, Post(ToHost, 0)], a, [late], t);
  }

  /** From then on an event takes the bytes of an earlier one: the next frame's event, in time, puts as many bytes of
      the stranded frame on the wire as the next frame has. */
  lemma StrandedShiftsWire(s: System, frame: seq<byte>, clock: Clock) returns (steps: seq<Step>, t: System)
    requires Inv(s) && s.queue == [] && s.toHost.owed == [] && Enabled(s, Reserve(frame)) && !Late(clock)
    ensures Run(s, steps, t) && t.queue == [] && t.toHost.owed == []
    ensures t.wire == s.wire + (s.toHost.bytes + frame)[..|frame|]
  {
    hide Run, Late;
    var a := Announces(s, frame);
    t := Next(a, Process(clock));
    Nothing(t);
    Follow(a, Process(clock), [], t);
    steps := [Reserve(frame), Send, Post(ToHost, 0)] + ([Process(clock)] + []);
    RunAppend(s, [Reserve(frame), Send, Post(ToHost, 0)], a, [Process(clock)] + [], t);
  }

  // ---- The loops of one task --------------------------------------------------------------------

  const RETRIES := 5

  /** What the other tasks do meanwhile: the free space the n-th xStreamBufferSend finds, whether the n-th
      attempt to post finds room in the queue, how much the n-th xStreamBufferReceive can return. */
  datatype Others = Others(space: nat -> nat, room: nat -> bool, ready: nat -> nat)

  class Transport {
    var output: seq<byte>
    var events: seq<nat>
    var orphaned: nat
    var input: seq<byte>
    var wire: seq<byte>

    /** rx_pump: bytes are committed first, each commit announced by an event of its own size. The result is how
        many bytes were taken; whatever is taken is announced or, after six refusals, orphaned. */
    method RxPump(data: seq<byte>, others: Others) returns (off: nat)
      modifies this`output, this`events, this`orphaned
      ensures off <= |data| && output == old(output) + data[..off]
      ensures Sum(events) + orphaned == Sum(old(events)) + old(orphaned) + off
      ensures old(events) <= events && (forall i: nat | |old(events)| <= i < |events| :: 0 < events[i] <= |data|)
      ensures off < |data| ==> exists n: nat :: others.space(n) == 0
    {
      hide Sum;
      off := 0;
      var sends: nat, posts: nat := 0, 0;
      while off < |data|
        invariant off <= |data| && output == old(output) + data[..off]
        invariant Sum(events) + orphaned == Sum(old(events)) + old(orphaned) + off
        invariant old(events) <= events && (forall i: nat | |old(events)| <= i < |events| :: 0 < events[i] <= |data|)
      {
        var sent := Min(|data| - off, others.space(sends));
        if sent == 0 {
          assert others.space(sends) == 0;
          break;
        }
        sends := sends + 1;
        output := output + data[off..off + sent];
        var tries, posted := RETRIES, others.room(posts);
        posts := posts + 1;
        while !posted && tries > 0
          decreases tries
        {
          posted := others.room(posts);
          posts, tries := posts + 1, tries - 1;
        }
        if posted {
          SumAppend(events, [sent]);
          SumOne(sent);
          events := events + [sent];
        } else {
          orphaned := orphaned + sent;
        }
        off := off + sent;
      }
    }

    /** process_input: the bytes of one event reach the wire together or not at all, however the stream buffer
        splits them. `clock` gives the real time of the n-th look at the tick counter. If the first look after setting
        the deadline comes too late nothing is received at all; if the buffer has all bytes ready in time they are
        sent; a call that fails otherwise leaves the bytes behind those it received. */
    method ProcessInput(size: nat, wait: nat, clock: nat -> nat, others: Others) returns (ok: bool)
      modifies this`input, this`wire
      ensures ok ==> size <= |old(input)| && wire == old(wire) + old(input)[..size] && input == old(input)[size..]
      ensures !ok ==> wire == old(wire)
      ensures !ok ==> exists got: nat :: got < size && got <= |old(input)| && input == old(input)[got..]
      ensures 0 < size && Late(Clock(clock(0), clock(1), wait)) ==> !ok && input == old(input)
      ensures 0 < size <= |old(input)| && size <= others.ready(0) ==>
                (ok <==> !Late(Clock(clock(0), clock(1), wait)))
    {
      var buffer: seq<byte> := [];
      var deadline := (clock(0) + wait) % TICK_WRAP;
      var n: nat := 0;
      while |buffer| < size
        invariant |buffer| <= size && |buffer| <= |old(input)| && wire == old(wire)
        invariant buffer == old(input)[..|buffer|] && input == old(input)[|buffer|..]
        invariant n == 0 <==> buffer == []
        invariant n > 0 ==> !Late(Clock(clock(0), clock(1), wait))
        invariant n > 0 && size <= |old(input)| && size <= others.ready(0) ==> |buffer| == size
        decreases size - |buffer|
      {
        var now := clock(n + 1) % TICK_WRAP;
        if now >= deadline {
          break;
        }
        var chunk := input[..Min(Min(size - |buffer|, |input|), others.ready(n))];
        if chunk == [] {
          break;
        }
        buffer := buffer + chunk;
        input := input[|chunk|..];
        n := n + 1;
      }
      if |buffer| != size {
        assert |buffer| < size && input == old(input)[|buffer|..];
        return false;
      }
      wire := wire + buffer;
      return true;
    }
  }
}
