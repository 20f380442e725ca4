/** The routing gate of main/transport.cpp with its two reading tasks interleaved. USB and UART are read by tasks of
    equal priority; inside rx_qualified_pump only rx_pump is a critical section, so the other task can run between the
    test of m_active, its store, and the pumping. */
module RoutingRace {
  import opened Bytes
  import opened RoutingGate

  /** Where a task stands: waiting for bytes, about to store m_active, or about to pump `pieces`, having tested or
      stored m_active when there had been `since` takeovers. */
  datatype Pc = Waiting | Storing(pieces: seq<seq<byte>>) | Pumping(pieces: seq<seq<byte>>, since: nat)

  datatype Task = Task(pc: Pc, pendingDe: bool)

  /** What one rx_pump has put into the shared stream, and what was put there between two takeovers. */
  datatype Piece = Piece(source: Iface, bytes: seq<byte>)

  datatype Share = Share(iface: Iface, pieces: seq<Piece>)

  datatype State = State(active: Active, usb: Task, uart: Task, shares: seq<Share>)

  const START := State(Nobody, Task(Waiting, false), Task(Waiting, false), [])

  function TaskOf(s: State, i: Iface): Task {
    if i == Usb then s.usb else s.uart
  }

  function WithTask(s: State, i: Iface, t: Task): (r: State)
    ensures TaskOf(r, i) == t && (forall j | j != i :: TaskOf(r, j) == TaskOf(s, j))
    ensures r.active == s.active && r.shares == s.shares
  {
    if i == Usb then s.(usb := t) else s.(uart := t)
  }

  /** Test is the way from a read to the store or the first pump, Store and Pump are the accesses to shared state. */
  datatype Step = Test(iface: Iface, chunk: seq<byte>) | Store(iface: Iface) | Pump(iface: Iface)

  predicate Enabled(s: State, step: Step) {
    var pc := TaskOf(s, step.iface).pc;
    match step
    case Test(_, chunk) => pc.Waiting? && chunk != []
    case Store(_) => pc.Storing?
    case Pump(_) => pc.Pumping? && pc.pieces != [] && s.shares != []
  }

  /** What a takeover pumps: the chunk from its signature on, the DE swallowed with the previous read on its own. */
  function Found(pendingDe: bool, chunk: seq<byte>): seq<seq<byte>>
    requires chunk != []
  {
    if pendingDe && chunk[0] == 0xad then [[0xde], chunk] else [Qualified(chunk)]
  }

  function Give(shares: seq<Share>, p: Piece): (r: seq<Share>)
    requires shares != []
    ensures |r| == |shares| && (forall k: nat | k < |shares| - 1 :: r[k] == shares[k])
    ensures r[|shares| - 1] == Share(shares[|shares| - 1].iface, shares[|shares| - 1].pieces + [p])
  {
    var n := |shares| - 1;
    shares[n := shares[n].(pieces := shares[n].pieces + [p])]
  }

  function Next(s: State, step: Step): State
    requires Enabled(s, step)
  {
    var task := TaskOf(s, step.iface);
    match step
    case Test(i, chunk) =>
      if s.active == Talks(i) then
        WithTask(s, i, Task(Pumping([chunk], |s.shares|), EndsInDe(chunk)))
      else if Qualified(Seen(task.pendingDe, chunk)) == [] then
        WithTask(s, i, Task(Waiting, EndsInDe(chunk)))
      else
        WithTask(s, i, task.(pc := Storing(Found(task.pendingDe, chunk))))
    case Store(i) =>
      var t := WithTask(s, i, Task(Pumping(task.pc.pieces, |s.shares| + 1), false));
      t.(active := Talks(i), shares := s.shares + [Share(i, [])])
    case Pump(i) =>
      var rest := task.pc.pieces[1..];
      var t := WithTask(s, i, task.(pc := if rest == [] then Waiting else Pumping(rest, task.pc.since)));
      t.(shares := Give(s.shares, Piece(i, task.pc.pieces[0])))
  }

  ghost predicate Run(s: State, steps: seq<Step>, t: State)
    decreases |steps|
  {
    if steps == [] then s == t else Enabled(s, steps[0]) && Run(Next(s, steps[0]), steps[1..], t)
  }

  /** The task has tested or stored m_active before the last takeover, and pumps after it. */
  predicate Late(s: State, step: Step) {
    step.Pump? && TaskOf(s, step.iface).pc.Pumping? && TaskOf(s, step.iface).pc.since < |s.shares|
  }

  predicate InTurn(s: State, steps: seq<Step>)
    decreases |steps|
  {
    steps == [] || (Enabled(s, steps[0]) && !Late(s, steps[0]) && InTurn(Next(s, steps[0]), steps[1..]))
  }

  predicate Quiet(s: State) {
    s.usb.pc == Waiting && s.uart.pc == Waiting
  }

  // ---- Who pumps into whose share ---------------------------------------------------------------

  predicate Pure(s: Share) {
    forall k: nat | k < |s.pieces| :: s.pieces[k].source == s.iface
  }

  predicate AllPure(shares: seq<Share>) {
    forall k: nat | k < |shares| :: Pure(shares[k])
  }

  predicate Alternate(shares: seq<Share>) {
    forall k: nat | 0 < k < |shares| :: shares[k - 1].iface != shares[k].iface
  }

  predicate TaskInOrder(s: State, i: Iface) {
    var pc := TaskOf(s, i).pc;
    && (pc.Storing? ==> pc.pieces != [] && s.active != Talks(i))
    && (pc.Pumping? ==> pc.pieces != [] && s.shares != [] && pc.since <= |s.shares|
                        && (pc.since == |s.shares| <==> s.active == Talks(i)))
  }

  /** A task that pumps is up to date exactly while its interface is the active one. */
  predicate Ordered(s: State) {
    && (s.active == Nobody <==> s.shares == [])
    && (s.shares != [] ==> s.active == Talks(s.shares[|s.shares| - 1].iface))
    && Alternate(s.shares) && TaskInOrder(s, Usb) && TaskInOrder(s, Uart)
  }

  lemma StepOrdered(s: State, step: Step)
    requires Ordered(s) && Enabled(s, step)
    ensures Ordered(Next(s, step))
    ensures AllPure(Next(s, step).shares) <==> AllPure(s.shares) && !Late(s, step)
  {
    hide Qualified, Seen, EndsInDe, Pure;
    match step
    case Test(_, _) =>
    case Store(i) => StoreOrdered(s, i);
    case Pump(i) => PumpOrdered(s, i);
  }

  lemma StoreOrdered(s: State, i: Iface)
    requires Ordered(s) && Enabled(s, Store(i))
    ensures Ordered(Next(s, Store(i)))
    ensures AllPure(Next(s, Store(i)).shares) <==> AllPure(s.shares)
  {
    var t := Next(s, Store(i));
    assert TaskInOrder(s, i);
    assert forall k: nat | k < |s.shares| :: t.shares[k] == s.shares[k];
    assert t.shares[|s.shares|] == Share(i, []) && Pure(Share(i, []));
  }

  lemma PumpOrdered(s: State, i: Iface)
    requires Ordered(s) && Enabled(s, Pump(i))
    ensures Ordered(Next(s, Pump(i)))
    ensures AllPure(Next(s, Pump(i)).shares) <==> AllPure(s.shares) && !Late(s, Pump(i))
  {
    hide AllPure, Give;
    assert TaskInOrder(s, i);
    PureGive(s.shares, Piece(i, TaskOf(s, i).pc.pieces[0]));
  }

  lemma PureGive(shares: seq<Share>, p: Piece)
    requires shares != []
    ensures AllPure(Give(shares, p)) <==> AllPure(shares) && p.source == shares[|shares| - 1].iface
  {
    var n := |shares| - 1;
    var r := Give(shares, p);
    var ps := shares[n].pieces;
    assert r[n].pieces[|ps|] == p;
    assert forall k: nat | k < |ps| :: r[n].pieces[k] == ps[k];
    if AllPure(r) {
      assert Pure(r[n]);
      assert Pure(shares[n]);
      assert forall k: nat | k < n :: Pure(r[k]);
    }
  }

  /** Every byte between two takeovers comes from the interface that took over if and only if no task pumps that has
      tested or stored m_active before the last takeover. */
  lemma {:induction false} PureIffInTurn(s: State, steps: seq<Step>, t: State)
    requires Ordered(s) && Run(s, steps, t)
    ensures Ordered(t)
    ensures AllPure(t.shares) <==> AllPure(s.shares) && InTurn(s, steps)
    decreases |steps|
  {
    hide Ordered, Enabled, Next, Late, AllPure;
    if steps != [] {
      StepOrdered(s, steps[0]);
      PureIffInTurn(Next(s, steps[0]), steps[1..], t);
    }
  }

  // ---- What the shares hold ---------------------------------------------------------------------

  function Text(ps: seq<Piece>): seq<byte> {
    if ps == [] then [] else Text(ps[..|ps| - 1]) + ps[|ps| - 1].bytes
  }

  function SegmentOf(s: Share): Segment {
    Segment(s.iface, Text(s.pieces))
  }

  lemma TextMore(ps: seq<Piece>, p: Piece)
    ensures Text(ps + [p]) == Text(ps) + p.bytes
  {
    assert (ps + [p])[..|ps|] == ps;
  }

  /** The bytes that have arrived on the two interfaces after a step, and after steps. */
  function Fed(x: Streams, step: Step): Streams {
    if step.Test? then Arrive(x, step.iface, step.chunk) else x
  }

  function FedAll(x: Streams, steps: seq<Step>): Streams
    decreases |steps|
  {
    if steps == [] then x else FedAll(Fed(x, steps[0]), steps[1..])
  }

  /** What an up-to-date task has still to pump. */
  function Remaining(s: State, i: Iface): seq<byte> {
    var pc := TaskOf(s, i).pc;
    if pc.Pumping? then Concat(pc.pieces) else []
  }

  /** A takeover has come between a task's test or store and its pumping. */
  predicate Stale(s: State, i: Iface) {
    TaskOf(s, i).pc.Pumping? && TaskOf(s, i).pc.since < |s.shares|
  }

  predicate SignedSuffix(stream: seq<byte>, bytes: seq<byte>) {
    Suffix(stream, bytes) && Signature(bytes, 0)
  }

  predicate TaskGood(s: State, x: Streams, i: Iface) {
    var task := TaskOf(s, i);
    if task.pc.Storing? then
      SignedSuffix(Of(x, i), Concat(task.pc.pieces))
    else
      task.pendingDe ==> EndsInDe(Of(x, i))
  }

  /** The share under way, with what is still to be pumped into it, starts with a signature and is the end of its
      interface's stream. */
  predicate LastGood(s: State, x: Streams) {
    s.shares != [] ==>
      var last := s.shares[|s.shares| - 1];
      SignedSuffix(Of(x, last.iface), Text(last.pieces) + Remaining(s, last.iface))
  }

  ghost predicate OldGood(shares: seq<Share>, x: Streams) {
    forall k: nat | k + 1 < |shares| :: Traced(SegmentOf(shares[k]), Of(x, shares[k].iface))
  }

  ghost predicate Good(s: State, x: Streams) {
    && Ordered(s) && !Stale(s, Usb) && !Stale(s, Uart)
    && TaskGood(s, x, Usb) && TaskGood(s, x, Uart) && LastGood(s, x) && OldGood(s.shares, x)
  }

  lemma OldGrows(shares: seq<Share>, x: Streams, i: Iface, chunk: seq<byte>)
    requires OldGood(shares, x)
    ensures OldGood(shares, Arrive(x, i, chunk))
  {
    hide Traced, SegmentOf, Arrive, Of;
    forall k: nat | k + 1 < |shares|
      ensures Traced(SegmentOf(shares[k]), Of(Arrive(x, i, chunk), shares[k].iface))
    {
      if shares[k].iface == i {
        TracedGrows(SegmentOf(shares[k]), Of(x, i), chunk);
      }
    }
  }

  lemma SuffixGrows(stream: seq<byte>, bytes: seq<byte>, chunk: seq<byte>)
    requires SignedSuffix(stream, bytes)
    ensures SignedSuffix(stream + chunk, bytes + chunk)
  {
    assert (stream + chunk)[|stream| - |bytes|..] == stream[|stream| - |bytes|..] + chunk;
  }

  lemma ConcatOne(s: seq<byte>)
    ensures Concat([s]) == s
  {
    assert [s][1..] == [];
    assert s + [] == s;
  }

  lemma FoundIs(pendingDe: bool, chunk: seq<byte>)
    requires chunk != []
    ensures Concat(Found(pendingDe, chunk)) == Qualified(Seen(pendingDe, chunk))
  {
    hide FirstSignature, Qualified;
    if pendingDe && chunk[0] == 0xad {
      SpanningSignature(chunk);
      assert [[0xde], chunk][1..] == [chunk];
      ConcatOne(chunk);
    } else {
      NotSpanning(pendingDe, chunk);
      ConcatOne(Qualified(chunk));
    }
  }

  lemma TestGood(s: State, x: Streams, i: Iface, chunk: seq<byte>)
    requires Good(s, x) && Enabled(s, Test(i, chunk))
    ensures Good(Next(s, Test(i, chunk)), Arrive(x, i, chunk))
  {
    hide FirstSignature, Qualified, Seen, EndsInDe, Signature, Suffix, Text, Concat, Arrive, Of, OldGood;
    var y, t := Arrive(x, i, chunk), Next(s, Test(i, chunk));
    StepOrdered(s, Test(i, chunk));
    OldGrows(s.shares, x, i, chunk);
    LastDe(Of(x, i), chunk);
    if s.active == Talks(i) {
      ConcatOne(chunk);
      var last := s.shares[|s.shares| - 1];
      assert Text(last.pieces) + [] == Text(last.pieces);
      SuffixGrows(Of(x, i), Text(last.pieces), chunk);
    } else {
      var de := TaskOf(s, i).pendingDe;
      FoundIsSuffix(de, Of(x, i), chunk);
      if Qualified(Seen(de, chunk)) != [] {
        FoundIs(de, chunk);
      }
    }
  }

  lemma StoreGood(s: State, x: Streams, i: Iface)
    requires Good(s, x) && Enabled(s, Store(i))
    ensures var t := Next(s, Store(i)); Good(t, x) || Stale(t, Usb) || Stale(t, Uart)
  {
    hide FirstSignature, Signature, Suffix, Concat, Of, Traced, SegmentOf, AllPure, Alternate, EndsInDe;
    var t := Next(s, Store(i));
    StepOrdered(s, Store(i));
    if !Stale(t, Usb) && !Stale(t, Uart) {
      var n := |s.shares|;
      assert t.shares[n] == Share(i, []);
      assert [] + Concat(TaskOf(s, i).pc.pieces) == Concat(TaskOf(s, i).pc.pieces);
      if n > 0 {
        var last := s.shares[n - 1];
        assert Remaining(s, last.iface) == [];
        LastIsTraced(s, x);
        assert t.shares[n - 1] == last;
      }
      assert forall k: nat | k < n :: t.shares[k] == s.shares[k];
    }
  }

  lemma LastIsTraced(s: State, x: Streams)
    requires LastGood(s, x) && s.shares != [] && Remaining(s, s.shares[|s.shares| - 1].iface) == []
    ensures var last := s.shares[|s.shares| - 1]; Traced(SegmentOf(last), Of(x, last.iface))
  {
    hide Traced, Suffix, Signature, Text, Of;
    var last := s.shares[|s.shares| - 1];
    assert Text(last.pieces) + [] == Text(last.pieces);
    SuffixTraced(SegmentOf(last), Of(x, last.iface));
  }

  lemma PumpMoves(s: State, i: Iface)
    requires Ordered(s) && Enabled(s, Pump(i)) && !Stale(s, i)
    ensures var n, t := |s.shares| - 1, Next(s, Pump(i));
            && |t.shares| == n + 1 && s.shares[n].iface == t.shares[n].iface == i
            && Text(t.shares[n].pieces) + Remaining(t, i) == Text(s.shares[n].pieces) + Remaining(s, i)
  {
    hide Alternate, Text;
    var pieces := TaskOf(s, i).pc.pieces;
    var last := s.shares[|s.shares| - 1];
    TextMore(last.pieces, Piece(i, pieces[0]));
    var text := Text(last.pieces);
    assert text + Concat(pieces) == text + pieces[0] + Concat(pieces[1..]);
    assert pieces[1..] == [] ==> Concat(pieces[1..]) == [];
  }

  lemma PumpGood(s: State, x: Streams, i: Iface)
    requires Good(s, x) && Enabled(s, Pump(i))
    ensures Good(Next(s, Pump(i)), x)
  {
    hide Ordered, SignedSuffix, Of, Traced, Text, Concat, EndsInDe;
    var t := Next(s, Pump(i));
    StepOrdered(s, Pump(i));
    PumpMoves(s, i);
    assert forall k: nat | k + 1 < |s.shares| :: t.shares[k] == s.shares[k];
  }

  lemma StaleStays(s: State, step: Step, i: Iface)
    requires Enabled(s, step) && Stale(s, i) && !Late(s, step)
    ensures Stale(Next(s, step), i)
  {
    hide Qualified, Seen, EndsInDe, Found;
  }

  ghost predicate GoodOrStale(s: State, x: Streams) {
    Good(s, x) || Stale(s, Usb) || Stale(s, Uart)
  }

  lemma StepGood(s: State, x: Streams, step: Step)
    requires GoodOrStale(s, x) && Enabled(s, step) && !Late(s, step)
    ensures GoodOrStale(Next(s, step), Fed(x, step))
  {
    hide Good, Next, Enabled, Late, Stale, Arrive;
    if Stale(s, Usb) {
      StaleStays(s, step, Usb);
    } else if Stale(s, Uart) {
      StaleStays(s, step, Uart);
    } else {
      match step
      case Test(i, chunk) => TestGood(s, x, i, chunk);
      case Store(i) => StoreGood(s, x, i);
      case Pump(i) => PumpGood(s, x, i);
    }
  }

  lemma {:induction false} RunGood(s: State, x: Streams, steps: seq<Step>, t: State)
    requires GoodOrStale(s, x) && Run(s, steps, t) && InTurn(s, steps)
    ensures GoodOrStale(t, FedAll(x, steps))
    decreases |steps|
  {
    hide GoodOrStale, Next, Enabled, Late, Fed;
    if steps != [] {
      StepGood(s, x, steps[0]);
      RunGood(Next(s, steps[0]), Fed(x, steps[0]), steps[1..], t);
    }
  }

  lemma StartGood()
    ensures Ordered(START) && Good(START, Streams([], [])) && AllPure(START.shares)
  {
  }

  /** In every interleaving of the two tasks, once both wait for bytes again: the bytes between two takeovers all come
      from the interface that took over if and only if no task pumped after a takeover that came behind its own test or
      store; and then they start with DE AD and are one piece of what that interface received. */
  lemma SignedIffInTurn(steps: seq<Step>, t: State)
    requires Run(START, steps, t) && Quiet(t)
    ensures AllPure(t.shares) <==> InTurn(START, steps)
    ensures InTurn(START, steps) ==>
              && Alternate(t.shares)
              && forall k: nat | k < |t.shares| ::
                   Traced(SegmentOf(t.shares[k]), Of(FedAll(Streams([], []), steps), t.shares[k].iface))
  {
    hide Run, InTurn, AllPure, FedAll, Signature, Suffix, Traced, Of, FirstSignature;
    StartGood();
    PureIffInTurn(START, steps, t);
    if InTurn(START, steps) {
      var x := FedAll(Streams([], []), steps);
      RunGood(START, Streams([], []), steps, t);
      if t.shares != [] {
        var last := t.shares[|t.shares| - 1];
        assert Text(last.pieces) + [] == Text(last.pieces);
        SuffixTraced(SegmentOf(last), Of(x, last.iface));
      }
    }
  }

  // ---- One call without interruption ------------------------------------------------------------

  function GateOf(s: State): (g: Gate)
    ensures |g.segments| == |s.shares|
    ensures forall k: nat | k < |s.shares| :: g.segments[k] == SegmentOf(s.shares[k])
  {
    Gate(s.active, s.usb.pendingDe, s.uart.pendingDe,
         seq(|s.shares|, k requires 0 <= k < |s.shares| => SegmentOf(s.shares[k])))
  }

  lemma PumpExtends(s: State, i: Iface)
    requires Enabled(s, Pump(i))
    ensures var t := Next(s, Pump(i));
            GateOf(t) == GateOf(s).(segments := Extend(GateOf(s).segments, TaskOf(s, i).pc.pieces[0]))
  {
    hide Text;
    var n, t := |s.shares| - 1, Next(s, Pump(i));
    TextMore(s.shares[n].pieces, Piece(i, TaskOf(s, i).pc.pieces[0]));
    assert GateOf(t).segments == Extend(GateOf(s).segments, TaskOf(s, i).pc.pieces[0]);
  }

  lemma ExtendMore(segments: seq<Segment>, a: seq<byte>, b: seq<byte>)
    requires segments != []
    ensures Extend(Extend(segments, a), b) == Extend(segments, a + b)
  {
    var n := |segments| - 1;
    assert segments[n].bytes + a + b == segments[n].bytes + (a + b);
  }

  lemma PumpOnce(s: State, i: Iface)
    requires Ordered(s) && TaskOf(s, i).pc.Pumping? && TaskOf(s, i).pc.since == |s.shares|
    ensures Enabled(s, Pump(i)) && !Late(s, Pump(i)) && TaskOf(s, i).pc.pieces != []
    ensures var t := Next(s, Pump(i));
            var pieces := TaskOf(s, i).pc.pieces;
            && Ordered(t) && |t.shares| == |s.shares| && (forall j | j != i :: TaskOf(t, j) == TaskOf(s, j))
            && TaskOf(t, i).pc == (if |pieces| == 1 then Waiting else Pumping(pieces[1..], |s.shares|))
            && GateOf(t) == GateOf(s).(segments := Extend(GateOf(s).segments, pieces[0]))
  {
    hide GateOf, Extend, Alternate;
    StepOrdered(s, Pump(i));
    PumpExtends(s, i);
  }

  lemma {:induction false} Drains(s: State, i: Iface) returns (steps: seq<Step>, t: State)
    requires Ordered(s) && TaskOf(s, i).pc.Pumping? && TaskOf(s, i).pc.since == |s.shares|
    ensures Run(s, steps, t) && InTurn(s, steps) && TaskOf(t, i).pc == Waiting && s.shares != []
    ensures forall step | step in steps :: step == Pump(i)
    ensures forall j | j != i :: TaskOf(t, j) == TaskOf(s, j)
    ensures GateOf(t) == GateOf(s).(segments := Extend(GateOf(s).segments, Concat(TaskOf(s, i).pc.pieces)))
    decreases |TaskOf(s, i).pc.pieces|
  {
    hide Extend, Ordered, Next, Late, Run, InTurn, GateOf;
    var pieces := TaskOf(s, i).pc.pieces;
    PumpOnce(s, i);
    var next := Next(s, Pump(i));
    if |pieces| == 1 {
      steps, t := [Pump(i)] + [], next;
      assert pieces == [pieces[0]];
      ConcatOne(pieces[0]);
      Nothing(t);
      OneStep(s, Pump(i), [], t);
    } else {
      var more;
      more, t := Drains(next, i);
      steps := [Pump(i)] + more;
      OneStep(s, Pump(i), more, t);
      ExtendMore(GateOf(s).segments, pieces[0], Concat(pieces[1..]));
    }
  }

  lemma OneStep(s: State, step: Step, steps: seq<Step>, t: State)
    requires Enabled(s, step) && !Late(s, step) && Run(Next(s, step), steps, t) && InTurn(Next(s, step), steps)
    ensures Run(s, [step] + steps, t) && InTurn(s, [step] + steps)
  {
    hide Enabled, Next, Late;
    assert ([step] + steps)[1..] == steps;
  }

  /** The part from the store on. */
  lemma TakesOver(s: State, i: Iface, found: seq<byte>) returns (steps: seq<Step>, t: State)
    requires Ordered(s) && TaskOf(s, i).pc.Storing? && Concat(TaskOf(s, i).pc.pieces) == found
    ensures Run(s, steps, t) && InTurn(s, steps) && TaskOf(t, i).pc == Waiting
    ensures forall step | step in steps :: step == Store(i) || step == Pump(i)
    ensures forall j | j != i :: TaskOf(t, j) == TaskOf(s, j)
    ensures GateOf(t) == WithPending(GateOf(s), i, false).(active := Talks(i),
                                                           segments := GateOf(s).segments + [Segment(i, found)])
  {
    hide Extend, Alternate, Run, InTurn;
    var stored := Next(s, Store(i));
    StepOrdered(s, Store(i));
    var more;
    more, t := Drains(stored, i);
    steps := [Store(i)] + more;
    OneStep(s, Store(i), more, t);
    assert GateOf(stored).segments == GateOf(s).segments + [Segment(i, [])];
    ExtendOnce(GateOf(s).segments, i, found);
  }

  /** A call of rx_qualified_pump that no other comes between does what Reads of the routing gate says. */
  lemma CallIsReads(s: State, i: Iface, chunk: seq<byte>) returns (steps: seq<Step>, t: State)
    requires Ordered(s) && Enabled(s, Test(i, chunk))
    ensures Run(s, [Test(i, chunk)] + steps, t) && InTurn(s, [Test(i, chunk)] + steps)
    ensures TaskOf(t, i).pc == Waiting && forall j | j != i :: TaskOf(t, j) == TaskOf(s, j)
    ensures forall step | step in steps :: step == Store(i) || step == Pump(i)
    ensures s.active == Talks(i) ==> s.shares != []
    ensures GateOf(t) == Reads(GateOf(s), i, chunk)
  {
    hide FirstSignature, Qualified, Seen, EndsInDe, Extend, Found, Alternate, Run, InTurn, SegmentOf;
    var tested := Next(s, Test(i, chunk));
    StepOrdered(s, Test(i, chunk));
    assert GateOf(tested).segments == GateOf(s).segments;
    if s.active == Talks(i) {
      ConcatOne(chunk);
      steps, t := Drains(tested, i);
    } else if Qualified(Seen(TaskOf(s, i).pendingDe, chunk)) == [] {
      steps, t := [], tested;
      Nothing(t);
    } else {
      FoundIs(TaskOf(s, i).pendingDe, chunk);
      steps, t := TakesOver(tested, i, Qualified(Seen(TaskOf(s, i).pendingDe, chunk)));
    }
    OneStep(s, Test(i, chunk), steps, t);
  }

  lemma Nothing(t: State)
    ensures Run(t, [], t) && InTurn(t, [])
  {
  }

  // ---- What goes wrong --------------------------------------------------------------------------

  lemma {:induction false} Follow(s: State, a: Step, steps: seq<Step>, t: State)
    requires Enabled(s, a) && Run(Next(s, a), steps, t)
    ensures Run(s, [a] + steps, t)
  {
    hide Enabled, Next;
    assert ([a] + steps)[1..] == steps;
  }

  /** `j` is active and has passed the test, `i` has found a signature and takes over. */
  lemma Overtakes(s: State, i: Iface, j: Iface, mine: seq<byte>, theirs: seq<byte>) returns (t: State)
    requires Ordered(s) && Quiet(s) && i != j && s.active == Talks(j) && theirs != [] && mine != []
    requires Qualified(Seen(TaskOf(s, i).pendingDe, mine)) != []
    ensures Run(s, [Test(j, theirs), Test(i, mine), Store(i)], t)
    ensures t.shares == s.shares + [Share(i, [])]
    ensures TaskOf(t, i).pc == Pumping(Found(TaskOf(s, i).pendingDe, mine), |t.shares|)
    ensures TaskOf(t, j).pc == Pumping([theirs], |s.shares|)
  {
    hide Qualified, Seen, EndsInDe, Found;
    var a := Next(s, Test(j, theirs));
    var b := Next(a, Test(i, mine));
    t := Next(b, Store(i));
    assert Run(t, [], t);
    Follow(b, Store(i), [], t);
    Follow(a, Test(i, mine), [Store(i)] + [], t);
    Follow(s, Test(j, theirs), [Test(i, mine)] + ([Store(i)] + []), t);
    assert [Test(j, theirs)] + ([Test(i, mine)] + ([Store(i)] + [])) == [Test(j, theirs), Test(i, mine), Store(i)];
  }

  lemma {:induction false} RunAppend(s: State, a: seq<Step>, t: State, b: seq<Step>, u: State)
    requires Run(s, a, t) && Run(t, b, u)
    ensures Run(s, a + b, u)
    decreases |a|
  {
    hide Next, Enabled;
    if a == [] {
      assert a + b == b;
    } else {
      assert (a + b)[1..] == a[1..] + b;
      RunAppend(Next(s, a[0]), a[1..], t, b, u);
    }
  }

  lemma PumpPuts(s: State, before: seq<Share>, i: Iface, j: Iface, ps: seq<Piece>)
    requires Enabled(s, Pump(j)) && s.shares == before + [Share(i, ps)]
    ensures var pieces, t := TaskOf(s, j).pc.pieces, Next(s, Pump(j));
            && t.shares == before + [Share(i, ps + [Piece(j, pieces[0])])]
            && (forall k | k != j :: TaskOf(t, k) == TaskOf(s, k))
            && TaskOf(t, j).pc == if |pieces| == 1 then Waiting else Pumping(pieces[1..], TaskOf(s, j).pc.since)
  {
    var t := Next(s, Pump(j));
    assert forall k: nat | k < |before| :: t.shares[k] == before[k];
  }

  /** `j` is active and reads `theirs`; after its test `i` reads a chunk with a signature in it and takes over, both
      pump: what `j` has read lands in the segment of `i`, behind its bytes. */
  lemma BytesInjected(s: State, i: Iface, j: Iface, mine: seq<byte>, theirs: seq<byte>)
    returns (steps: seq<Step>, t: State)
    requires Ordered(s) && Quiet(s) && i != j && s.active == Talks(j) && theirs != [] && mine != []
    requires Qualified(mine) != [] && !(TaskOf(s, i).pendingDe && mine[0] == 0xad)
    ensures steps == [Test(j, theirs), Test(i, mine), Store(i)] + [Pump(i), Pump(j)]
    ensures Run(s, steps, t) && Quiet(t)
    ensures t.shares == s.shares + [Share(i, [Piece(i, Qualified(mine)), Piece(j, theirs)])]
    ensures SegmentOf(t.shares[|s.shares|]) == Segment(i, Qualified(mine) + theirs)
  {
    hide Qualified, Seen, EndsInDe, Run, FirstSignature, Signature, Next, Ordered, Text;
    NotSpanning(TaskOf(s, i).pendingDe, mine);
    var p, q := Piece(i, Qualified(mine)), Piece(j, theirs);
    assert [p] + [q] == [p, q] && [] + [p] == [p];
    var c := Overtakes(s, i, j, mine, theirs);
    var d := Next(c, Pump(i));
    PumpPuts(c, s.shares, i, i, []);
    t := Next(d, Pump(j));
    PumpPuts(d, s.shares, i, j, [p]);
    Nothing(t);
    Follow(d, Pump(j), [], t);
    Follow(c, Pump(i), [Pump(j)] + [], t);
    assert [Pump(i)] + ([Pump(j)] + []) == [Pump(i), Pump(j)];
    steps := [Test(j, theirs), Test(i, mine), Store(i)] + [Pump(i), Pump(j)];
    RunAppend(s, [Test(j, theirs), Test(i, mine), Store(i)], c, [Pump(i), Pump(j)], t);
    NoText();
    TextMore([], p);
    TextMore([p], q);
    assert [] + Qualified(mine) == Qualified(mine);
  }

  lemma NoText()
    ensures Text([]) == []
  {
  }

  /** The same when the signature of `i` straddles its two reads: the bytes of `j` may come between DE and AD, and
      the segment starts with a signature only if they happen to start with AD themselves. */
  lemma SignatureSplit(s: State, i: Iface, j: Iface, mine: seq<byte>, theirs: seq<byte>)
    returns (steps: seq<Step>, t: State)
    requires Ordered(s) && Quiet(s) && i != j && s.active == Talks(j) && theirs != [] && mine != []
    requires TaskOf(s, i).pendingDe && mine[0] == 0xad
    ensures steps == [Test(j, theirs), Test(i, mine), Store(i)] + [Pump(i), Pump(j), Pump(i)]
    ensures Run(s, steps, t) && Quiet(t)
    ensures t.shares == s.shares + [Share(i, [Piece(i, [0xde]), Piece(j, theirs), Piece(i, mine)])]
    ensures Signature(SegmentOf(t.shares[|s.shares|]).bytes, 0) <==> theirs[0] == 0xad
  {
    hide Qualified, EndsInDe, Run, FirstSignature, Next, Ordered, Text, Signature, SegmentOf;
    SpanningSignature(mine);
    var p, q, r := Piece(i, [0xde]), Piece(j, theirs), Piece(i, mine);
    assert [p] + [q] == [p, q] && [] + [p] == [p] && [p, q] + [r] == [p, q, r];
    var c := Overtakes(s, i, j, mine, theirs);
    var d := Next(c, Pump(i));
    PumpPuts(c, s.shares, i, i, []);
    var e := Next(d, Pump(j));
    PumpPuts(d, s.shares, i, j, [p]);
    t := Next(e, Pump(i));
    PumpPuts(e, s.shares, i, i, [p, q]);
    Nothing(t);
    Follow(e, Pump(i), [], t);
    Follow(d, Pump(j), [Pump(i)] + [], t);
    Follow(c, Pump(i), [Pump(j)] + ([Pump(i)] + []), t);
    assert [Pump(i)] + ([Pump(j)] + ([Pump(i)] + [])) == [Pump(i), Pump(j), Pump(i)];
    steps := [Test(j, theirs), Test(i, mine), Store(i)] + [Pump(i), Pump(j), Pump(i)];
    RunAppend(s, [Test(j, theirs), Test(i, mine), Store(i)], c, [Pump(i), Pump(j), Pump(i)], t);
    SplitIsSigned(i, j, theirs, mine);
  }

  lemma SplitIsSigned(i: Iface, j: Iface, theirs: seq<byte>, mine: seq<byte>)
    requires theirs != []
    ensures Signature(SegmentOf(Share(i, [Piece(i, [0xde]), Piece(j, theirs), Piece(i, mine)])).bytes, 0)
       <==> theirs[0] == 0xad
  {
    hide Text;
    TextOfThree([Piece(i, [0xde]), Piece(j, theirs), Piece(i, mine)]);
  }

  lemma TextOfThree(ps: seq<Piece>)
    requires |ps| == 3
    ensures Text(ps) == ps[0].bytes + ps[1].bytes + ps[2].bytes
  {
    NoText();
    TextMore([], ps[0]);
    TextMore([ps[0]], ps[1]);
    TextMore([ps[0], ps[1]], ps[2]);
    assert [] + [ps[0]] == [ps[0]] && [ps[0]] + [ps[1]] == [ps[0], ps[1]] && [ps[0], ps[1]] + [ps[2]] == ps;
  }
}
