/** Link and plumbing together: the two tasks that send frames, the reading tasks and the event pump of the application
    task, in every interleaving (main/protocol.cpp, main/transport.cpp, main/app.cpp). */
module Pipeline {
  import opened Bytes
  import opened Collections
  import opened Framing
  import opened Reassembly
  import E = EventPump
  import Firmware
  import N = Numbering
  import P = Protocol

  datatype Whole = Whole(link: N.State, pump: E.System)

  /** A step of a task that sends or handles frames, or one of the stream buffers and the queue. */
  datatype Move = Writes(write: N.Step) | Pipes(pipe: E.Step)

  ghost predicate Starts(k: Checksums, w: Whole) {
    N.Starts(k, w.link) && E.Booted(w.pump)
  }

  /** The frame the transport takes in this step. */
  function Taken(k: Checksums, s: N.State, step: N.Step): (f: Option<seq<byte>>)
    requires N.WellFormed(s) && N.Enabled(k, s, step)
  {
    var t := N.Next(k, s, step);
    if |t.committed| == |s.committed| then
      None
    else if step.Greets? then
      Some(step.frame)
    else
      assert |t.link.sent| == |s.link.sent| + 1 by { CommitsOne(k, s, step); }
      Some(t.link.sent[|s.link.sent|])
  }

  /** The frame drawn in this step that the transport refuses. */
  function Refused(k: Checksums, s: N.State, step: N.Step): (f: Option<seq<byte>>)
    requires N.WellFormed(s) && N.Enabled(k, s, step)
  {
    var t := N.Next(k, s, step);
    if |s.link.sent| < |t.link.sent| && |t.committed| == |s.committed| then
      Some(t.link.sent[|s.link.sent|])
    else
      None
  }

  lemma CommitsOne(k: Checksums, s: N.State, step: N.Step)
    requires N.WellFormed(s) && N.Enabled(k, s, step)
    ensures var t := N.Next(k, s, step);
            && (step.Greets? ==> t.committed == s.committed + [N.Greeting(step.frame)])
            && (!step.Greets? && |t.committed| != |s.committed| ==>
                  |t.link.sent| == |s.link.sent| + 1 && t.committed == s.committed + [N.Drawn(|s.link.sent|)])
            && (|t.committed| == |s.committed| ==> t.committed == s.committed)
            && s.link.sent <= t.link.sent
  {
    hide N.Draws, N.Receives, N.Intents, Feed, N.IsGreeting;
  }

  /** The application task takes the next event once it is done with the last chunk. */
  predicate Idle(s: N.State) {
    s.cuts == [] && s.todo == []
  }

  /** The transport refuses a frame only after several looks at a buffer without room for it, no other frame being on
      its way in: the step is the last of these looks. Room that appears after it does not help the frame. */
  predicate Enabled(k: Checksums, w: Whole, move: Move) {
    && N.WellFormed(w.link)
    && match move
       case Writes(step) =>
         && !step.OnRx? && N.Enabled(k, w.link, step)
         && (var f := Taken(k, w.link, step); f.Some? ==> E.Enabled(w.pump, E.Reserve(f.value)))
         && (var f := Refused(k, w.link, step);
             f.Some? ==> w.pump.sending == [] && E.Space(w.pump.toHost) < |f.value|)
       case Pipes(step) =>
         && !step.Reserve? && E.Enabled(w.pump, step)
         && (step.Process? ==> Idle(w.link) && forall c | c in Handed(w.pump, step) :: Admissible(Ncp, c))
  }

  /** The chunk an event brings to on_rx, if it does. */
  function Handed(e: E.System, step: E.Step): seq<seq<byte>>
    requires E.Enabled(e, step)
  {
    var t := E.Next(e, step);
    if |e.chunks| < |t.chunks| then [t.chunks[|t.chunks| - 1]] else []
  }

  function Next(k: Checksums, w: Whole, move: Move): (v: Whole)
    requires Enabled(k, w, move)
  {
    match move
    case Writes(step) =>
      var f := Taken(k, w.link, step);
      Whole(N.Next(k, w.link, step), if f.Some? then E.Next(w.pump, E.Reserve(f.value)) else w.pump)
    case Pipes(step) =>
      var chunks := if step.Process? then Handed(w.pump, step) else [];
      Whole(if chunks == [] then w.link else N.Next(k, w.link, N.OnRx(chunks[0])), E.Next(w.pump, step))
  }

  ghost predicate Run(k: Checksums, w: Whole, moves: seq<Move>, v: Whole)
    decreases |moves|
  {
    if moves == [] then w == v else Enabled(k, w, moves[0]) && Run(k, Next(k, w, moves[0]), moves[1..], v)
  }

  // ---- What the two machines have in common -----------------------------------------------------

  /** The frame reserved in the buffer but not yet sent into it. */
  function UnderWay(e: E.System): seq<seq<byte>> {
    if e.sending == [] then [] else [e.sending]
  }

  /** What the link has committed is what the pump has, or is about to have. */
  ghost predicate InStep(s: N.State, e: E.System) {
    && N.CommittedInOrder(s)
    && |s.committed| == |e.frames + UnderWay(e)|
    && forall i: nat | i < |s.committed| :: (e.frames + UnderWay(e))[i] == N.FrameOf(s, s.committed[i])
  }

  lemma WritesInStep(k: Checksums, s: N.State, e: E.System, step: N.Step)
    requires N.Inv(k, s) && InStep(s, e) && N.Enabled(k, s, step)
    requires var f := Taken(k, s, step); f.Some? ==> E.Enabled(e, E.Reserve(f.value))
    ensures var f := Taken(k, s, step);
            InStep(N.Next(k, s, step), if f.Some? then E.Next(e, E.Reserve(f.value)) else e)
  {
    hide N.Draws, N.Receives, N.Intents, N.Next, N.Enabled, P.Numbered, P.WellSent, Feed, N.IsGreeting, N.WellFormed;
    hide N.GreetingsGood;
    CommitsOne(k, s, step);
    N.StepKeeps(k, s, step);
    var t := N.Next(k, s, step);
    var f := Taken(k, s, step);
    var d := if f.Some? then E.Next(e, E.Reserve(f.value)) else e;
    forall i: nat | i < |t.committed|
      ensures (d.frames + UnderWay(d))[i] == N.FrameOf(t, t.committed[i])
    {
      if i < |s.committed| {
        assert t.committed[i] == s.committed[i];
        if s.committed[i].Drawn? {
          assert t.link.sent[s.committed[i].n] == s.link.sent[s.committed[i].n];
        }
      }
    }
  }

  lemma PipesInStep(s: N.State, e: E.System, step: E.Step)
    requires InStep(s, e) && E.Enabled(e, step) && !step.Reserve?
    ensures InStep(s, E.Next(e, step))
  {
    hide N.CommittedInOrder, E.Commit, E.Take;
  }

  lemma SameInStep(s: N.State, t: N.State, e: E.System)
    requires InStep(s, e) && t.link == s.link && t.committed == s.committed
    ensures InStep(t, e)
  {
  }

  lemma HandedIsAppended(e: E.System, step: E.Step)
    requires E.Enabled(e, step)
    ensures E.Next(e, step).chunks == e.chunks + Handed(e, step)
    ensures Handed(e, step) != [] ==> step.Process? && |Handed(e, step)| == 1
  {
    hide E.Commit, E.Take;
  }

  lemma HandedIsNew(e: E.System, step: E.Step)
    requires E.Inv(e) && E.Enabled(e, step)
    ensures E.Next(e, step).chunks == e.chunks + Handed(e, step)
    ensures Handed(e, step) != [] ==> step.Process? && |Handed(e, step)| == 1
    ensures forall c | c in Handed(e, step) :: Admissible(Ncp, c)
  {
    hide E.Next, E.Enabled, E.Paired, Handed;
    HandedIsAppended(e, step);
    E.StepKeeps(e, step);
    var t := E.Next(e, step);
    assert forall i: nat | i < |Handed(e, step)| :: Handed(e, step)[i] == t.chunks[|e.chunks| + i];
  }

  // ---- Every run is a run of both ---------------------------------------------------------------

  /** The steps of the link and of the pump that one move takes. */
  function LinkSteps(k: Checksums, w: Whole, move: Move): seq<N.Step>
    requires Enabled(k, w, move)
  {
    match move
    case Writes(step) => [step]
    case Pipes(step) =>
      var chunks := if step.Process? then Handed(w.pump, step) else [];
      if chunks == [] then [] else [N.OnRx(chunks[0])]
  }

  function PumpSteps(k: Checksums, w: Whole, move: Move): seq<E.Step>
    requires Enabled(k, w, move)
  {
    match move
    case Writes(step) => var f := Taken(k, w.link, step); if f.Some? then [E.Reserve(f.value)] else []
    case Pipes(step) => [step]
  }

  /** What the run brings in from the host: the bytes of each read that found room; and all bytes of its reads. */
  function HostBytes(k: Checksums, w: Whole, moves: seq<Move>): seq<byte>
    decreases |moves|
  {
    if moves == [] || !Enabled(k, w, moves[0]) then
      []
    else
      (if moves[0].Pipes? then E.Admitted(w.pump, moves[0].pipe) else [])
      + HostBytes(k, Next(k, w, moves[0]), moves[1..])
  }

  function HostReads(moves: seq<Move>): seq<byte> {
    if moves == [] then [] else (if moves[0].Pipes? then E.ReadOf(moves[0].pipe) else []) + HostReads(moves[1..])
  }

  /** Each read found room for all of its bytes, and the queue refused no event for them. */
  predicate NoHostByteLost(k: Checksums, w: Whole, moves: seq<Move>)
    decreases |moves|
  {
    || moves == [] || !Enabled(k, w, moves[0])
    || (!(moves[0].Pipes? && E.LosesHostBytes(w.pump, moves[0].pipe))
        && NoHostByteLost(k, Next(k, w, moves[0]), moves[1..]))
  }

  /** The steps of the pump bring in just these bytes. */
  ghost predicate SameReads(k: Checksums, w: Whole, moves: seq<Move>, es: seq<E.Step>) {
    && E.HostBytes(w.pump, es) == HostBytes(k, w, moves) && E.HostReads(es) == HostReads(moves)
    && (E.NoHostByteLost(w.pump, es) <==> NoHostByteLost(k, w, moves))
  }

  lemma MoveReads(k: Checksums, w: Whole, move: Move)
    requires Enabled(k, w, move)
    ensures var es := PumpSteps(k, w, move);
            && E.HostBytes(w.pump, es) == (if move.Pipes? then E.Admitted(w.pump, move.pipe) else [])
            && E.HostReads(es) == (if move.Pipes? then E.ReadOf(move.pipe) else [])
            && (E.NoHostByteLost(w.pump, es) <==> !(move.Pipes? && E.LosesHostBytes(w.pump, move.pipe)))
  {
    hide E.HostBytes, E.HostReads, E.NoHostByteLost, N.Next, N.Enabled, E.Next, E.Enabled, Taken, Refused, Handed;
    NoReads(w.pump);
    if move.Pipes? {
      E.OneStepReads(w.pump, move.pipe);
    } else {
      var f := Taken(k, w.link, move.write);
      if f.Some? {
        E.OneStepReads(w.pump, E.Reserve(f.value));
      }
    }
  }

  lemma NoReads(e: E.System)
    ensures E.HostBytes(e, []) == [] && E.HostReads([]) == [] && E.NoHostByteLost(e, [])
  {
  }

  lemma MovesReads(k: Checksums, w: Whole, moves: seq<Move>, es: seq<E.Step>)
    requires moves != [] && Enabled(k, w, moves[0])
    requires E.Run(w.pump, PumpSteps(k, w, moves[0]), Next(k, w, moves[0]).pump)
    requires SameReads(k, Next(k, w, moves[0]), moves[1..], es)
    ensures SameReads(k, w, moves, PumpSteps(k, w, moves[0]) + es)
  {
    hide Next, Enabled, PumpSteps, E.Run, E.HostBytes, E.HostReads, E.NoHostByteLost, E.Admitted, E.LosesHostBytes;
    MoveReads(k, w, moves[0]);
    E.ReadsAppend(w.pump, PumpSteps(k, w, moves[0]), Next(k, w, moves[0]).pump, es);
  }

  /** Both machines are in a state they reach, and in step. */
  ghost predicate Sane(k: Checksums, w: Whole) {
    N.Inv(k, w.link) && E.Inv(w.pump) && InStep(w.link, w.pump)
  }

  /** One move takes both machines where their steps lead, and hands on the chunks the pump counts. */
  lemma MoveProjects(k: Checksums, w: Whole, move: Move)
    requires Sane(k, w) && Enabled(k, w, move)
    ensures var v := Next(k, w, move);
            && Sane(k, v)
            && N.Run(k, w.link, LinkSteps(k, w, move), v.link) && E.Run(w.pump, PumpSteps(k, w, move), v.pump)
            && v.pump.chunks == w.pump.chunks + N.Chunks(LinkSteps(k, w, move))
  {
    hide N.Inv, E.Inv, InStep, N.Next, E.Next, N.Enabled, E.Enabled, N.WellFormed, Taken, N.Run, E.Run, Handed;
    match move {
      case Writes(step) => WriteProjects(k, w, step);
      case Pipes(step) => PipeProjects(k, w, step);
    }
  }

  lemma NoRun(k: Checksums, s: N.State, e: E.System)
    ensures N.Run(k, s, [], s) && E.Run(e, [], e)
  {
  }

  lemma OneLinkStep(k: Checksums, s: N.State, step: N.Step)
    requires N.WellFormed(s) && N.Enabled(k, s, step)
    ensures N.Run(k, s, [step], N.Next(k, s, step))
    ensures N.Chunks([step]) == if step.OnRx? then [step.chunk] else []
  {
    hide N.Next, N.Enabled, N.WellFormed;
    assert [step][1..] == [];
  }

  lemma OnePumpStep(e: E.System, step: E.Step)
    requires E.Enabled(e, step)
    ensures E.Run(e, [step], E.Next(e, step))
  {
    hide E.Next, E.Enabled;
    assert [step][1..] == [];
  }

  lemma ReserveAddsNothing(e: E.System, frame: seq<byte>)
    requires E.Enabled(e, E.Reserve(frame))
    ensures E.Next(e, E.Reserve(frame)).chunks == e.chunks
  {
  }

  lemma WriteProjects(k: Checksums, w: Whole, step: N.Step)
    requires Sane(k, w) && Enabled(k, w, Writes(step))
    ensures var v := Next(k, w, Writes(step));
            && Sane(k, v) && v.pump.chunks == w.pump.chunks && !step.OnRx?
            && N.Run(k, w.link, [step], v.link) && E.Run(w.pump, PumpSteps(k, w, Writes(step)), v.pump)
            && N.Chunks([step]) == []
  {
    hide N.Inv, E.Inv, InStep, N.Next, E.Next, N.Enabled, E.Enabled, N.WellFormed, Taken, N.Run, E.Run, N.Chunks;
    N.StepKeeps(k, w.link, step);
    WritesInStep(k, w.link, w.pump, step);
    OneLinkStep(k, w.link, step);
    NoRun(k, w.link, w.pump);
    var f := Taken(k, w.link, step);
    if f.Some? {
      E.StepKeeps(w.pump, E.Reserve(f.value));
      OnePumpStep(w.pump, E.Reserve(f.value));
      ReserveAddsNothing(w.pump, f.value);
    }
  }

  lemma PipeProjects(k: Checksums, w: Whole, step: E.Step)
    requires Sane(k, w) && Enabled(k, w, Pipes(step))
    ensures var v := Next(k, w, Pipes(step));
            && Sane(k, v) && E.Run(w.pump, [step], v.pump)
            && N.Run(k, w.link, LinkSteps(k, w, Pipes(step)), v.link)
            && v.pump.chunks == w.pump.chunks + N.Chunks(LinkSteps(k, w, Pipes(step)))
  {
    hide N.Inv, E.Inv, InStep, N.Next, E.Next, E.Enabled, N.WellFormed, N.Run, E.Run, Handed, N.Chunks;
    PipesInStep(w.link, w.pump, step);
    E.StepKeeps(w.pump, step);
    OnePumpStep(w.pump, step);
    HandedIsNew(w.pump, step);
    NoRun(k, w.link, w.pump);
    var chunks := if step.Process? then Handed(w.pump, step) else [];
    if chunks == [] {
      NoChunks();
    } else {
      var rx := N.OnRx(chunks[0]);
      assert chunks == [chunks[0]];
      N.StepKeeps(k, w.link, rx);
      OneLinkStep(k, w.link, rx);
      OnRxKeepsLink(k, w.link, chunks[0]);
      SameInStep(w.link, N.Next(k, w.link, rx), E.Next(w.pump, step));
    }
  }

  lemma NoChunks()
    ensures N.Chunks([]) == []
  {
  }

  lemma OnRxKeepsLink(k: Checksums, s: N.State, chunk: seq<byte>)
    requires N.WellFormed(s) && N.Enabled(k, s, N.OnRx(chunk))
    ensures var t := N.Next(k, s, N.OnRx(chunk)); t.link == s.link && t.committed == s.committed
  {
    hide Feed;
  }

  lemma {:induction false} LinkRunAppend(k: Checksums, s: N.State, a: seq<N.Step>, t: N.State, b: seq<N.Step>,
                                         u: N.State)
    requires N.Run(k, s, a, t) && N.Run(k, t, b, u)
    ensures N.Run(k, s, a + b, u)
    decreases |a|
  {
    hide N.Next, N.Enabled, N.WellFormed;
    if a == [] {
      assert a + b == b;
    } else {
      assert (a + b)[1..] == a[1..] + b;
      LinkRunAppend(k, N.Next(k, s, a[0]), a[1..], t, b, u);
    }
  }

  lemma {:induction false} ChunksAppend(a: seq<N.Step>, b: seq<N.Step>)
    ensures N.Chunks(a + b) == N.Chunks(a) + N.Chunks(b)
    decreases |a|
  {
    if a == [] {
      assert a + b == b;
    } else {
      assert (a + b)[1..] == a[1..] + b;
      ChunksAppend(a[1..], b);
      var first := if a[0].OnRx? then [a[0].chunk] else [];
      assert (first + N.Chunks(a[1..])) + N.Chunks(b) == first + (N.Chunks(a[1..]) + N.Chunks(b));
    }
  }

  /** Any run is a run of the link and a run of the pump, in which on_rx gets the chunks the pump counts. */
  lemma {:induction false} Projects(k: Checksums, w: Whole, moves: seq<Move>, v: Whole)
    returns (ns: seq<N.Step>, es: seq<E.Step>)
    requires Sane(k, w) && Run(k, w, moves, v)
    ensures Sane(k, v) && N.Run(k, w.link, ns, v.link) && E.Run(w.pump, es, v.pump)
    ensures v.pump.chunks == w.pump.chunks + N.Chunks(ns)
    ensures SameReads(k, w, moves, es)
    decreases |moves|
  {
    hide Sane, Next, Enabled, N.Run, E.Run, LinkSteps, PumpSteps, N.Chunks, SameReads;
    if moves == [] {
      ns, es := [], [];
      NoRun(k, w.link, w.pump);
      NoChunks();
      NothingRead(k, w);
    } else {
      var next := Next(k, w, moves[0]);
      MoveProjects(k, w, moves[0]);
      var moreNs, moreEs := Projects(k, next, moves[1..], v);
      ns, es := LinkSteps(k, w, moves[0]) + moreNs, PumpSteps(k, w, moves[0]) + moreEs;
      LinkRunAppend(k, w.link, LinkSteps(k, w, moves[0]), next.link, moreNs, v.link);
      ChunksAppend(LinkSteps(k, w, moves[0]), moreNs);
      MovesReads(k, w, moves, moreEs);
      E.RunAppend(w.pump, PumpSteps(k, w, moves[0]), next.pump, moreEs, v.pump);
    }
  }

  lemma NothingRead(k: Checksums, w: Whole)
    ensures SameReads(k, w, [], [])
  {
    NoReads(w.pump);
  }

  lemma StartIsSane(k: Checksums, w: Whole)
    requires Starts(k, w)
    ensures Sane(k, w) && w.pump.chunks == [] && E.Booted(w.pump) && N.Starts(k, w.link)
  {
    hide E.Inv, P.Numbered, P.WellSent;
    E.BootKeeps(w.pump);
  }

  // ---- What the host sees -----------------------------------------------------------------------

  lemma {:induction false} LaidFrame(frames: seq<seq<byte>>, at: nat, i: nat)
    requires i < |frames|
    ensures |Laid(frames, at)| == |frames| && Laid(frames, at)[i].frame == frames[i]
    decreases |frames|
  {
    if i > 0 {
      LaidFrame(frames[1..], at + |frames[0]|, i - 1);
    } else if |frames| > 1 {
      LaidFrame(frames[1..], at + |frames[0]|, 0);
    }
  }

  lemma CommittedAreFrames(k: Checksums, s: N.State, e: E.System)
    requires N.Inv(k, s) && InStep(s, e)
    ensures forall i: nat | i < |e.frames| :: IsFrame(k, e.frames[i])
  {
    hide IsFrame, P.Numbered;
    forall i: nat | i < |e.frames|
      ensures IsFrame(k, e.frames[i])
    {
      assert e.frames[i] == (e.frames + UnderWay(e))[i] == N.FrameOf(s, s.committed[i]);
    }
  }

  /** Whoever reads the wire cuts the frames the transport took, whole and in order. */
  predicate Reads(s: N.State, cuts: seq<Cut>) {
    && N.CommittedInOrder(s) && |cuts| <= |s.committed|
    && forall i: nat | i < |cuts| :: cuts[i].frame == N.FrameOf(s, s.committed[i])
  }

  lemma CutsAreCommitted(k: Checksums, who: Parser, start: E.System, es: seq<E.Step>, v: Whole)
    requires E.Booted(start) && E.Run(start, es, v.pump) && Sane(k, v)
    ensures Reads(v.link, Scan(k, who, v.pump.wire, 0).cuts)
  {
    hide Scan, Laid, E.Run, N.Inv, E.Inv, N.FrameOf, IsFrame;
    CommittedAreFrames(k, v.link, v.pump);
    E.HostSeesCommittedFrames(k, who, start, es, v.pump);
    var frames, cuts := v.pump.frames, Scan(k, who, v.pump.wire, 0).cuts;
    NoneLaid();
    if frames != [] {
      LaidFrame(frames, 0, 0);
    }
    forall i: nat | i < |cuts|
      ensures cuts[i].frame == N.FrameOf(v.link, v.link.committed[i])
    {
      LaidFrame(frames, 0, i);
      assert cuts[i] == Laid(frames, 0)[i];
      assert (frames + UnderWay(v.pump))[i] == frames[i];
    }
  }

  lemma NoneLaid()
    ensures Laid([], 0) == []
  {
  }

  /** Two frames in a row carry the same packet_seq exactly when their origins say so. */
  predicate Apart(a: seq<byte>, b: seq<byte>, x: N.Origin, y: N.Origin) {
    && HEADER_SIZE <= |a| && HEADER_SIZE <= |b|
    && (PacketSeq(a) == PacketSeq(b) <==> N.Alike(x, y))
  }

  /** In every interleaving since boot: whoever reads the wire cuts the frames the transport took, whole and in order,
      even when events come late or are lost, and two in a row carry the same packet_seq if and only if both are
      start-up frames or 2 mod 3 drawn frames were refused in between. */
  lemma HostSeesNumberedFrames(k: Checksums, who: Parser, w: Whole, moves: seq<Move>, v: Whole)
    requires Starts(k, w) && Run(k, w, moves, v)
    ensures P.Numbered(v.link.link)
    ensures Reads(v.link, Scan(k, who, v.pump.wire, 0).cuts)
    ensures var cuts := Scan(k, who, v.pump.wire, 0).cuts;
            forall i: nat, j: nat | i < j < |cuts| && j == i + 1 ::
              Apart(cuts[i].frame, cuts[j].frame, v.link.committed[i], v.link.committed[j])
  {
    hide Run, Scan, N.Run, E.Run, N.Inv, E.Inv, N.Alike, PacketSeq, Starts, N.Starts, N.CommittedInOrder, N.FrameOf,
      InStep, P.Numbered;
    StartIsSane(k, w);
    var ns, es := Projects(k, w, moves, v);
    N.NumberedInEveryRun(k, w.link, ns, v.link);
    E.PumpIsSafe(w.pump, es, v.pump);
    CutsAreCommitted(k, who, w.pump, es, v);
    var cuts := Scan(k, who, v.pump.wire, 0).cuts;
    forall i: nat, j: nat | i < j < |cuts| && j == i + 1
      ensures Apart(cuts[i].frame, cuts[j].frame, v.link.committed[i], v.link.committed[j])
    {
      N.ConsecutiveNumbers(k, v.link, i);
    }
  }

  /** Once the chunks so far are handled, the application has been handed exactly the payloads that the link alone
      makes of the chunks the pump has taken. These are a prefix of the bytes of the host's reads that found room; with
      everything drained they are all bytes of its reads if and only if each found room for all and no event for them
      was refused. */
  lemma AppGetsPumpedBytes(k: Checksums, app: P.App, w: Whole, moves: seq<Move>, v: Whole)
    requires Starts(k, w) && Run(k, w, moves, v) && v.link.cuts == []
    ensures P.WellFormed(w.link.link) && Fits(Ncp, w.link.rx)
    ensures forall i: nat | i < |v.pump.chunks| :: Admissible(Ncp, v.pump.chunks[i])
    ensures v.link.link.delivered == P.Runs(k, app, w.link.link, w.link.rx, v.pump.chunks).delivered
    ensures Concat(v.pump.chunks) <= HostBytes(k, w, moves)
    ensures v.pump.queue == [] && v.pump.fromHost.owed == [] ==>
              (Concat(v.pump.chunks) == HostReads(moves) <==> NoHostByteLost(k, w, moves))
  {
    hide Run, N.Run, E.Run, E.Inv, Starts, P.Runs, N.Chunks, Concat, P.Numbered, P.WellSent, HostBytes, HostReads,
      NoHostByteLost, E.HostBytes, E.HostReads, E.NoHostByteLost, E.Reserved, E.Missed;
    StartIsSane(k, w);
    var ns, es := Projects(k, w, moves, v);
    N.DeliveredIsUndisturbed(k, app, w.link, ns, v.link);
    E.PumpIsSafe(w.pump, es, v.pump);
    assert [] + N.Chunks(ns) == N.Chunks(ns);
    if v.pump.queue == [] && v.pump.fromHost.owed == [] {
      E.HostBytesArrive(w.pump, es, v.pump);
    }
  }

  /** With the firmware's checksums the two frames of the start-up code are such frames. */
  lemma StartUpFramesAreGreetings()
    ensures N.IsGreeting(Firmware.FIRMWARE, Firmware.START_ACK)
    ensures N.IsGreeting(Firmware.FIRMWARE, Firmware.BOOT_READY)
  {
    hide IsFrame;
    Firmware.StartUpFramesAreGood();
  }

  // ---- A full buffer ----------------------------------------------------------------------------

  /** The largest payload: its frame has 2048 bytes, ten of which fill the buffer. */
  const LARGEST := 2039

  lemma DrawnFrame(k: Checksums, s: N.State, data: seq<byte>, accepted: bool)
    requires N.Inv(k, s) && |data| == LARGEST
    ensures var step := N.ZbossSends(data, accepted);
            var t := N.Next(k, s, step);
            && N.Inv(k, t) && |t.link.sent| == |s.link.sent| + 1 && |t.link.sent[|s.link.sent|]| == 2048
            && t.committed == s.committed + (if accepted then [N.Drawn(|s.link.sent|)] else [])
            && t.cuts == s.cuts && t.todo == s.todo
            && Taken(k, s, step) == (if accepted then Some(t.link.sent[|s.link.sent|]) else None)
            && Refused(k, s, step) == (if accepted then None else Some(t.link.sent[|s.link.sent|]))
  {
    hide P.Numbered, P.WellSent, N.CommittedInOrder, N.GreetingsGood, Flags;
    N.SendsOne(k, s, data, accepted);
  }

  lemma Follow(k: Checksums, w: Whole, move: Move, moves: seq<Move>, v: Whole)
    requires Enabled(k, w, move) && Run(k, Next(k, w, move), moves, v)
    ensures Run(k, w, [move] + moves, v)
  {
    hide Next, Enabled;
    assert ([move] + moves)[1..] == moves;
  }

  lemma Nothing(k: Checksums, v: Whole)
    ensures Run(k, v, [], v)
  {
  }

  lemma {:induction false} RunAppend(k: Checksums, w: Whole, a: seq<Move>, v: Whole, b: seq<Move>, u: Whole)
    requires Run(k, w, a, v) && Run(k, v, b, u)
    ensures Run(k, w, a + b, u)
    decreases |a|
  {
    hide Next, Enabled;
    if a == [] {
      assert a + b == b;
    } else {
      assert (a + b)[1..] == a[1..] + b;
      RunAppend(k, Next(k, w, a[0]), a[1..], v, b, u);
    }
  }

  /** `j` of the largest frames are in the buffer, no event is posted yet, `n` frames were drawn before. */
  ghost predicate Filling(k: Checksums, w: Whole, j: nat, n: nat) {
    && N.Inv(k, w.link) && Idle(w.link) && |w.link.link.sent| == n + j
    && w.pump.sending == [] && w.pump.queue == [] && |w.pump.toHost.bytes| == 2048 * j
    && |w.pump.toHost.owed| == j && (forall i: nat | i < j :: w.pump.toHost.owed[i] == 2048)
    && (j > 0 ==> w.link.committed != [] && w.link.committed[|w.link.committed| - 1] == N.Drawn(n + j - 1))
  }

  lemma FillOne(k: Checksums, w: Whole, data: seq<byte>, j: nat, n: nat) returns (v: Whole)
    requires Filling(k, w, j, n) && j < 10 && |data| == LARGEST
    ensures Run(k, w, [Writes(N.ZbossSends(data, true)), Pipes(E.Send)], v) && Filling(k, v, j + 1, n)
  {
    hide N.Inv, Run, N.Next, Taken, Refused;
    DrawnFrame(k, w.link, data, true);
    InvIsWellFormed(k, w.link);
    var write := Writes(N.ZbossSends(data, true));
    var a := Next(k, w, write);
    InvIsWellFormed(k, a.link);
    assert a.pump.sending[..2048] == a.pump.sending;
    v := Next(k, a, Pipes(E.Send));
    Nothing(k, v);
    Follow(k, a, Pipes(E.Send), [], v);
    Follow(k, w, write, [Pipes(E.Send)] + [], v);
    assert [write] + ([Pipes(E.Send)] + []) == [write, Pipes(E.Send)];
  }

  lemma InvIsWellFormed(k: Checksums, s: N.State)
    requires N.Inv(k, s)
    ensures N.WellFormed(s)
  {
  }

  lemma {:induction false} Fill(k: Checksums, w: Whole, data: seq<byte>, j: nat, n: nat)
    returns (moves: seq<Move>, v: Whole)
    requires Filling(k, w, j, n) && j <= 10 && |data| == LARGEST
    ensures Run(k, w, moves, v) && Filling(k, v, 10, n)
    decreases 10 - j
  {
    hide Filling, Run;
    if j == 10 {
      moves, v := [], w;
      Nothing(k, w);
    } else {
      var a := FillOne(k, w, data, j, n);
      var more;
      more, v := Fill(k, a, data, j + 1, n);
      moves := [Writes(N.ZbossSends(data, true)), Pipes(E.Send)] + more;
      RunAppend(k, w, [Writes(N.ZbossSends(data, true)), Pipes(E.Send)], a, more, v);
    }
  }

  /** With the buffer full the ZBOSS task is refused, and the number is used up. */
  lemma RefusedOnce(k: Checksums, w: Whole, data: seq<byte>) returns (v: Whole)
    requires N.Inv(k, w.link) && |data| == LARGEST && w.pump.sending == [] && E.Space(w.pump.toHost) < 2048
    ensures Run(k, w, [Writes(N.ZbossSends(data, false))], v) && v.pump == w.pump
    ensures N.Inv(k, v.link) && v.link.committed == w.link.committed && |v.link.link.sent| == |w.link.link.sent| + 1
    ensures v.link.cuts == w.link.cuts && v.link.todo == w.link.todo
  {
    hide N.Inv, Run, N.Next, Taken, Refused;
    DrawnFrame(k, w.link, data, false);
    InvIsWellFormed(k, w.link);
    var move := Writes(N.ZbossSends(data, false));
    v := Next(k, w, move);
    assert w.link.committed + [] == w.link.committed;
    Nothing(k, v);
    Follow(k, w, move, [], v);
    assert [move] + [] == [move];
  }

  /** The event of a frame is posted and processed in time: the buffer has room for another. */
  lemma OneProcessed(k: Checksums, w: Whole, clock: E.Clock) returns (v: Whole)
    requires N.Inv(k, w.link) && Idle(w.link) && w.pump.sending == [] && w.pump.queue == [] && !E.Late(clock)
    requires |w.pump.toHost.bytes| == 20480 && w.pump.toHost.owed != [] && w.pump.toHost.owed[0] == 2048
    ensures Run(k, w, [Pipes(E.Post(E.ToHost, 0)), Pipes(E.Process(clock))], v) && v.link == w.link
    ensures v.pump.sending == [] && E.Space(v.pump.toHost) == 2048
  {
    hide N.Inv, Run, E.Late;
    InvIsWellFormed(k, w.link);
    var post, process := Pipes(E.Post(E.ToHost, 0)), Pipes(E.Process(clock));
    var a := Next(k, w, post);
    v := Next(k, a, process);
    Nothing(k, v);
    Follow(k, a, process, [], v);
    Follow(k, w, post, [process] + [], v);
    assert [post] + ([process] + []) == [post, process];
  }

  lemma TakenAgain(k: Checksums, w: Whole, data: seq<byte>) returns (v: Whole)
    requires N.Inv(k, w.link) && |data| == LARGEST && w.pump.sending == [] && E.Space(w.pump.toHost) == 2048
    ensures Run(k, w, [Writes(N.ZbossSends(data, true))], v) && N.Inv(k, v.link)
    ensures v.link.committed == w.link.committed + [N.Drawn(|w.link.link.sent|)]
    ensures |v.link.link.sent| == |w.link.link.sent| + 1
  {
    hide N.Inv, Run, N.Next, Taken, Refused;
    DrawnFrame(k, w.link, data, true);
    InvIsWellFormed(k, w.link);
    var move := Writes(N.ZbossSends(data, true));
    v := Next(k, w, move);
    Nothing(k, v);
    Follow(k, w, move, [], v);
    assert [move] + [] == [move];
  }

  /** From the start: ten of the largest frames fill the buffer, two more are refused, the first is taken out, one more
      is taken in. Two frames that follow each other in the buffer carry the same packet_seq. */
  lemma FullBufferSharesNumber(k: Checksums, w: Whole, data: seq<byte>) returns (moves: seq<Move>, v: Whole, i: nat)
    requires Starts(k, w) && |data| == LARGEST
    ensures Run(k, w, moves, v) && i + 1 < |v.link.committed|
    ensures var n := |w.link.link.sent|;
            && v.link.committed[i] == N.Drawn(n + 9) && v.link.committed[i + 1] == N.Drawn(n + 12)
            && n + 12 < |v.link.link.sent|
            && HEADER_SIZE <= |v.link.link.sent[n + 9]| && HEADER_SIZE <= |v.link.link.sent[n + 12]|
            && PacketSeq(v.link.link.sent[n + 9]) == PacketSeq(v.link.link.sent[n + 12])
  {
    hide N.Inv, Run, PacketSeq;
    var n := |w.link.link.sent|;
    EmptyIsFilling(k, w);
    var fill, full := Fill(k, w, data, 0, n);
    var a := RefusedOnce(k, full, data);
    var b := RefusedOnce(k, a, data);
    var clock := E.Clock(0, 0, 50);
    var c := OneProcessed(k, b, clock);
    v := TakenAgain(k, c, data);
    var no, yes := Writes(N.ZbossSends(data, false)), Writes(N.ZbossSends(data, true));
    var post := [Pipes(E.Post(E.ToHost, 0)), Pipes(E.Process(clock))];
    RunAppend(k, b, post, c, [yes], v);
    RunAppend(k, a, [no], b, post + [yes], v);
    RunAppend(k, full, [no], a, [no] + (post + [yes]), v);
    moves := fill + ([no] + ([no] + (post + [yes])));
    RunAppend(k, w, fill, full, [no] + ([no] + (post + [yes])), v);
    i := |full.link.committed| - 1;
    N.ConsecutiveNumbers(k, v.link, i);
  }

  lemma EmptyIsFilling(k: Checksums, w: Whole)
    requires Starts(k, w)
    ensures Filling(k, w, 0, |w.link.link.sent|)
  {
    hide N.Inv;
  }

  /** The state of the two machines after a boot is such a start. */
  lemma BootStarts(k: Checksums, pump: E.System)
    requires E.Booted(pump)
    ensures Starts(k, Whole(N.BOOTED, pump))
  {
    N.BootedStarts(k);
  }
}
