/** The two tasks that send frames (main/protocol.cpp): the application task acknowledges frames and answers requests,
    the ZBOSS task sends at any moment. Drawing the sequence number and handing the frame to the transport are one
    critical section under m_tx_sem; between two of them the other task may send. */
module Numbering {
  import opened Bytes
  import opened Framing
  import opened Reassembly
  import P = Protocol

  /** What the application task still has to send for the frame it handles. */
  datatype Intent = Ack(frame: seq<byte>, nack: bool) | Reply(data: seq<byte>)

  /** A frame the transport took: the n-th drawn, or one of the two fixed frames sent at start-up without a number. */
  datatype Origin = Drawn(n: nat) | Greeting(frame: seq<byte>)

  /** `cuts` are the frames of the current chunk that are not handled yet; `link.sent` the frames drawn so far,
      `committed` those the transport took, in its order. */
  datatype State = State(link: P.Link, rx: Receiver, cuts: seq<Cut>, todo: seq<Intent>, committed: seq<Origin>)

  const BOOTED := State(P.BOOT, FRESH, [], [], [])

  /** `accepted` is whether the transport takes the frame; a reply is the application's choice. */
  datatype Step =
    | OnRx(chunk: seq<byte>)
    | Handle(replies: seq<seq<byte>>)
    | AppSends(accepted: bool)
    | ZbossSends(data: seq<byte>, accepted: bool)
    | Greets(frame: seq<byte>)

  /** What the two start-up frames have in common: they are complete and carry packet_seq 0. */
  predicate IsGreeting(k: Checksums, f: seq<byte>) {
    IsFrame(k, f) && HEADER_SIZE <= |f| <= P.TX_BUFFER_SIZE && PacketSeq(f) == 0
  }

  predicate Enabled(k: Checksums, s: State, step: Step) {
    match step
    case OnRx(chunk) => s.cuts == [] && s.todo == [] && Admissible(Ncp, chunk)
    case Handle(_) => s.cuts != [] && s.todo == []
    case AppSends(_) => s.todo != []
    case ZbossSends(_, _) => true
    case Greets(f) => IsGreeting(k, f)
  }

  /** The receiving half of Protocol.Handles, which only the application task touches. */
  function Receives(k: Checksums, l: P.Link, f: seq<byte>): (m: P.Link)
    requires P.WellFormed(l) && HEADER_SIZE <= |f|
    ensures P.WellFormed(m) && m.txSeq == l.txSeq && m.sent == l.sent
  {
    if P.Dispatchable(k, f) && !P.Duplicate(l.lastRxSeqValid, l.lastRxSeq, IsNack(f), PacketSeq(f)) then
      l.(lastRxSeq := PacketSeq(f), lastRxSeqValid := true, delivered := l.delivered + [Payload(f)])
    else
      l
  }

  function Replies(replies: seq<seq<byte>>): (todo: seq<Intent>)
    ensures |todo| == |replies| && forall i: nat | i < |replies| :: todo[i] == Reply(replies[i])
  {
    seq(|replies|, i requires 0 <= i < |replies| => Reply(replies[i]))
  }

  /** The sending half: what the frame makes the application task send, one after the other. */
  function Intents(k: Checksums, l: P.Link, f: seq<byte>, replies: seq<seq<byte>>): (todo: seq<Intent>)
    requires P.WellFormed(l) && HEADER_SIZE <= |f|
    ensures forall i: nat | i < |todo| && todo[i].Ack? :: todo[i].frame == f
  {
    if |f| < 9 then
      []
    else if !PayloadOk(k, f) then
      [Ack(f, true)]
    else if IsAck(f) then
      []
    else if PacketType(f) != ZBOSS_NCP_API_HL then
      [Ack(f, true)]
    else if P.Duplicate(l.lastRxSeqValid, l.lastRxSeq, IsNack(f), PacketSeq(f)) then
      [Ack(f, false)]
    else
      [Ack(f, false)] + Replies(replies)
  }

  /** One critical section under m_tx_sem. */
  function Draws(k: Checksums, l: P.Link, intent: Intent): (m: P.Link)
    requires P.WellFormed(l) && (intent.Ack? ==> HEADER_SIZE <= |intent.frame|)
    ensures P.WellFormed(m) && m.delivered == l.delivered
    ensures m.lastRxSeq == l.lastRxSeq && m.lastRxSeqValid == l.lastRxSeqValid
    ensures m.sent == l.sent || (|m.sent| == |l.sent| + 1 && l.sent <= m.sent)
  {
    match intent
    case Ack(f, nack) => P.Acks(k, l, f, nack)
    case Reply(data) => P.SendsData(k, l, data)
  }

  /** The frame just drawn, if there is one and the transport takes it. */
  function Commits(l: P.Link, m: P.Link, accepted: bool): seq<Origin> {
    if accepted && |l.sent| < |m.sent| then [Drawn(|l.sent|)] else []
  }

  predicate WellFormed(s: State) {
    && P.WellFormed(s.link) && Fits(Ncp, s.rx)
    && (forall i: nat | i < |s.cuts| :: HEADER_SIZE <= |s.cuts[i].frame|)
    && (forall i: nat | i < |s.todo| && s.todo[i].Ack? :: HEADER_SIZE <= |s.todo[i].frame|)
  }

  function Next(k: Checksums, s: State, step: Step): (t: State)
    requires WellFormed(s) && Enabled(k, s, step)
    ensures WellFormed(t)
  {
    match step
    case OnRx(chunk) =>
      P.FedHeaders(k, s.rx, chunk);
      var f := Feed(k, Ncp, s.rx, chunk);
      s.(rx := f.next, cuts := f.cuts)
    case Handle(replies) =>
      var f := s.cuts[0].frame;
      s.(link := Receives(k, s.link, f), cuts := s.cuts[1..], todo := Intents(k, s.link, f, replies))
    case AppSends(accepted) =>
      var m := Draws(k, s.link, s.todo[0]);
      s.(link := m, todo := s.todo[1..], committed := s.committed + Commits(s.link, m, accepted))
    case ZbossSends(data, accepted) =>
      var m := Draws(k, s.link, Reply(data));
      s.(link := m, committed := s.committed + Commits(s.link, m, accepted))
    case Greets(f) =>
      s.(committed := s.committed + [Greeting(f)])
  }

  ghost predicate Run(k: Checksums, s: State, steps: seq<Step>, t: State)
    decreases |steps|
  {
    if steps == [] then
      s == t
    else
      WellFormed(s) && Enabled(k, s, steps[0]) && Run(k, Next(k, s, steps[0]), steps[1..], t)
  }

  // ---- Numbers in every interleaving ------------------------------------------------------------

  predicate CommittedInOrder(s: State) {
    && (forall i: nat | i < |s.committed| && s.committed[i].Drawn? :: s.committed[i].n < |s.link.sent|)
    && (forall i: nat, j: nat | i < j < |s.committed| && s.committed[i].Drawn? && s.committed[j].Drawn? ::
          s.committed[i].n < s.committed[j].n)
  }

  predicate GreetingsGood(k: Checksums, s: State) {
    forall i: nat | i < |s.committed| && s.committed[i].Greeting? :: IsGreeting(k, s.committed[i].frame)
  }

  ghost predicate Inv(k: Checksums, s: State) {
    && WellFormed(s) && P.Numbered(s.link) && P.WellSent(k, s.link)
    && CommittedInOrder(s) && GreetingsGood(k, s)
  }

  lemma DrawsKeepsNumbers(k: Checksums, l: P.Link, intent: Intent)
    requires P.Numbered(l) && P.WellSent(k, l) && (intent.Ack? ==> HEADER_SIZE <= |intent.frame|)
    ensures P.WellFormed(l) && P.Numbered(Draws(k, l, intent)) && P.WellSent(k, Draws(k, l, intent))
  {
    hide P.WellSent, P.Acks, P.SendsData;
    match intent
    case Ack(f, nack) => P.AcksKeepsNumbers(k, l, f, nack);
    case Reply(data) => P.SendsDataKeepsNumbers(k, l, data);
  }

  lemma ReceivesKeepsNumbers(k: Checksums, l: P.Link, f: seq<byte>)
    requires P.Numbered(l) && P.WellSent(k, l) && HEADER_SIZE <= |f|
    ensures P.WellFormed(l) && P.Numbered(Receives(k, l, f)) && P.WellSent(k, Receives(k, l, f))
  {
    hide P.WellSent, P.Dispatchable;
    P.SameSent(k, l, Receives(k, l, f));
  }

  lemma CommitInOrder(s: State, m: P.Link, accepted: bool)
    requires CommittedInOrder(s) && |s.link.sent| <= |m.sent|
    ensures CommittedInOrder(s.(link := m, committed := s.committed + Commits(s.link, m, accepted)))
  {
  }

  lemma StepKeeps(k: Checksums, s: State, step: Step)
    requires Inv(k, s) && Enabled(k, s, step)
    ensures Inv(k, Next(k, s, step))
  {
    hide P.Numbered, P.WellSent, CommittedInOrder, Draws, Receives, Intents, Feed, IsGreeting;
    match step {
      case OnRx(_) =>
        SameCommits(s, Next(k, s, step));
      case Handle(_) =>
        ReceivesKeepsNumbers(k, s.link, s.cuts[0].frame);
        SameCommits(s, Next(k, s, step));
      case AppSends(accepted) =>
        DrawsKeepsNumbers(k, s.link, s.todo[0]);
        CommitInOrder(s, Draws(k, s.link, s.todo[0]), accepted);
        SameCommits(Sent(k, s, s.todo[0], accepted), Next(k, s, step));
      case ZbossSends(data, accepted) =>
        DrawsKeepsNumbers(k, s.link, Reply(data));
        CommitInOrder(s, Draws(k, s.link, Reply(data)), accepted);
      case Greets(f) =>
        GreetingInOrder(s, f);
    }
  }

  function Sent(k: Checksums, s: State, intent: Intent, accepted: bool): State
    requires P.WellFormed(s.link) && (intent.Ack? ==> HEADER_SIZE <= |intent.frame|)
  {
    var m := Draws(k, s.link, intent);
    s.(link := m, committed := s.committed + Commits(s.link, m, accepted))
  }

  lemma SameCommits(s: State, t: State)
    requires CommittedInOrder(s) && t.committed == s.committed && t.link.sent == s.link.sent
    ensures CommittedInOrder(t)
  {
  }

  lemma GreetingInOrder(s: State, f: seq<byte>)
    requires CommittedInOrder(s)
    ensures CommittedInOrder(s.(committed := s.committed + [Greeting(f)]))
  {
  }

  lemma {:induction false} RunKeeps(k: Checksums, s: State, steps: seq<Step>, t: State)
    requires Inv(k, s) && Run(k, s, steps, t)
    ensures Inv(k, t)
    decreases |steps|
  {
    hide Next, Enabled, P.Numbered, P.WellSent, CommittedInOrder, GreetingsGood, WellFormed;
    if steps != [] {
      StepKeeps(k, s, steps[0]);
      RunKeeps(k, Next(k, s, steps[0]), steps[1..], t);
    }
  }

  /** Nothing received is being handled and nothing has been committed. */
  ghost predicate Starts(k: Checksums, s: State) {
    Inv(k, s) && s.cuts == [] && s.todo == [] && s.committed == []
  }

  lemma BootedStarts(k: Checksums)
    ensures Starts(k, BOOTED)
  {
    hide P.Numbered, P.WellSent;
    P.BootIsNumbered(k);
  }

  /** In every interleaving of the two tasks since the start: the n-th frame drawn carries packet_seq 1 + n mod 3 and
      is a complete frame of at most 2048 bytes; the transport takes drawn frames in the order of their numbers. */
  lemma NumberedInEveryRun(k: Checksums, s: State, steps: seq<Step>, t: State)
    requires Starts(k, s) && Run(k, s, steps, t)
    ensures P.Numbered(t.link) && P.WellSent(k, t.link) && CommittedInOrder(t)
  {
    hide Run, P.Numbered, P.WellSent, CommittedInOrder;
    RunKeeps(k, s, steps, t);
  }

  // ---- What the drawn frames carry --------------------------------------------------------------

  /** The bytes of the frame that one intent becomes as the n-th drawn, if it becomes one. */
  function OnWire(k: Checksums, intent: Intent, n: nat): seq<seq<byte>>
    requires intent.Ack? ==> HEADER_SIZE <= |intent.frame|
  {
    match intent
    case Ack(f, nack) => [WireAck(k, nack, 1 + n % 3, f[5] / 4 % 4)]
    case Reply(data) => if 1 <= |data| <= 2039 then [WireData(k, 1 + n % 3, 0, data)] else []
  }

  /** What a step sends, read off the step. */
  function StepOnWire(k: Checksums, s: State, step: Step): seq<seq<byte>>
    requires WellFormed(s) && Enabled(k, s, step)
  {
    match step
    case AppSends(_) => OnWire(k, s.todo[0], |s.link.sent|)
    case ZbossSends(data, _) => OnWire(k, Reply(data), |s.link.sent|)
    case _ => []
  }

  function RunOnWire(k: Checksums, s: State, steps: seq<Step>): seq<seq<byte>>
    decreases |steps|
  {
    if steps == [] || !WellFormed(s) || !Enabled(k, s, steps[0]) then
      []
    else
      StepOnWire(k, s, steps[0]) + RunOnWire(k, Next(k, s, steps[0]), steps[1..])
  }

  lemma DrawsOnWire(k: Checksums, l: P.Link, intent: Intent)
    requires P.Numbered(l) && P.WellFormed(l) && (intent.Ack? ==> HEADER_SIZE <= |intent.frame|)
    ensures Draws(k, l, intent).sent == l.sent + OnWire(k, intent, |l.sent|)
  {
    hide WireAck, WireData, P.Acks, P.SendsData;
    match intent
    case Ack(f, nack) => P.AckOnWire(k, l, f, nack);
    case Reply(data) => P.DataOnWire(k, l, data);
  }

  /** In every interleaving the frames drawn are, byte by byte and in order, the acknowledgements the application task
      owes and the data either task sends, each under the number that is due. */
  lemma {:induction false} SentInEveryRun(k: Checksums, s: State, steps: seq<Step>, t: State)
    requires Inv(k, s) && Run(k, s, steps, t)
    ensures t.link.sent == s.link.sent + RunOnWire(k, s, steps)
    decreases |steps|
  {
    hide Next, Enabled, Inv, StepOnWire, WellFormed;
    if steps != [] {
      var next := Next(k, s, steps[0]);
      StepKeeps(k, s, steps[0]);
      StepSends(k, s, steps[0]);
      SentInEveryRun(k, next, steps[1..], t);
      var a, b, c := s.link.sent, StepOnWire(k, s, steps[0]), RunOnWire(k, next, steps[1..]);
      assert (a + b) + c == a + (b + c);
    }
  }

  lemma StepSends(k: Checksums, s: State, step: Step)
    requires Inv(k, s) && Enabled(k, s, step)
    ensures WellFormed(s) && Next(k, s, step).link.sent == s.link.sent + StepOnWire(k, s, step)
  {
    hide P.Numbered, P.WellSent, CommittedInOrder, GreetingsGood, Draws, Receives, Intents, Feed, IsGreeting, OnWire;
    match step {
      case AppSends(_) => DrawsOnWire(k, s.link, s.todo[0]);
      case ZbossSends(data, _) => DrawsOnWire(k, s.link, Reply(data));
      case _ =>
    }
  }

  /** What the application task owes for a frame, read off its bytes: nothing for a short one or an ACK, a NACK for a
      damaged one or a foreign type, else an ACK, and unless it is a flagged repeat the replies behind it. */
  lemma OwedForFrame(k: Checksums, l: P.Link, f: seq<byte>, replies: seq<seq<byte>>)
    requires P.WellFormed(l) && HEADER_SIZE <= |f|
    ensures |f| < 9 ==> Intents(k, l, f, replies) == []
    ensures 9 <= |f| ==>
              var damaged := (f[7] as nat) + 0x100 * (f[8] as nat) != k.payload(f[9..]);
              var repeat := f[5] / 2 % 2 == 1 && l.lastRxSeqValid && l.lastRxSeq == f[5] / 4 % 4;
              Intents(k, l, f, replies)
                == if damaged || (f[5] % 2 == 0 && f[4] != 0x06) then [Ack(f, true)]
                   else if f[5] % 2 == 1 then []
                   else [Ack(f, false)] + if repeat then [] else Replies(replies)
  {
  }

  /** What a step makes the application task owe, and what it sends of it. */
  function StepOwed(k: Checksums, s: State, step: Step): seq<Intent>
    requires WellFormed(s) && Enabled(k, s, step)
  {
    if step.Handle? then Intents(k, s.link, s.cuts[0].frame, step.replies) else []
  }

  function StepDischarged(k: Checksums, s: State, step: Step): seq<Intent>
    requires WellFormed(s) && Enabled(k, s, step)
  {
    if step.AppSends? then [s.todo[0]] else []
  }

  /** The same for a run, in order. */
  function Owed(k: Checksums, s: State, steps: seq<Step>): seq<Intent>
    decreases |steps|
  {
    if steps == [] || !WellFormed(s) || !Enabled(k, s, steps[0]) then
      []
    else
      StepOwed(k, s, steps[0]) + Owed(k, Next(k, s, steps[0]), steps[1..])
  }

  function Discharged(k: Checksums, s: State, steps: seq<Step>): seq<Intent>
    decreases |steps|
  {
    if steps == [] || !WellFormed(s) || !Enabled(k, s, steps[0]) then
      []
    else
      StepDischarged(k, s, steps[0]) + Discharged(k, Next(k, s, steps[0]), steps[1..])
  }

  /** In every interleaving nothing that is owed is dropped, doubled or reordered. */
  lemma {:induction false} NothingOwedIsLost(k: Checksums, s: State, steps: seq<Step>, t: State)
    requires Run(k, s, steps, t)
    ensures s.todo + Owed(k, s, steps) == Discharged(k, s, steps) + t.todo
    decreases |steps|
  {
    hide Next, Enabled, WellFormed, StepOwed, StepDischarged;
    if steps != [] {
      var next := Next(k, s, steps[0]);
      NothingOwedIsLost(k, next, steps[1..], t);
      StepOwes(k, s, steps[0]);
      Telescope(s.todo, StepOwed(k, s, steps[0]), StepDischarged(k, s, steps[0]), next.todo,
                Owed(k, next, steps[1..]), Discharged(k, next, steps[1..]), t.todo);
    }
  }

  lemma StepOwes(k: Checksums, s: State, step: Step)
    requires WellFormed(s) && Enabled(k, s, step)
    ensures s.todo + StepOwed(k, s, step) == StepDischarged(k, s, step) + Next(k, s, step).todo
  {
    hide Draws, Receives, Intents, Feed, IsGreeting;
  }

  lemma Telescope<T>(a: seq<T>, owed: seq<T>, sent: seq<T>, b: seq<T>, more: seq<T>, done: seq<T>, c: seq<T>)
    requires a + owed == sent + b && b + more == done + c
    ensures a + (owed + more) == (sent + done) + c
  {
    assert a + (owed + more) == (a + owed) + more;
    assert (sent + b) + more == sent + (b + more);
    assert sent + (done + c) == (sent + done) + c;
  }

  // ---- When two frames on the wire share a number -----------------------------------------------

  function FrameOf(s: State, o: Origin): seq<byte>
    requires o.Drawn? ==> o.n < |s.link.sent|
  {
    match o
    case Drawn(n) => s.link.sent[n]
    case Greeting(f) => f
  }

  /** Both are start-up frames, or the numbers drawn in between and refused by the transport are 2 mod 3. */
  predicate Alike(a: Origin, b: Origin) {
    if a.Drawn? && b.Drawn? then a.n < b.n && (b.n - a.n - 1) % 3 == 2 else a.Greeting? && b.Greeting?
  }

  /** In every state of every run: two frames the transport took one after the other carry the same packet_seq if and
      only if both are start-up frames, or the number of drawn frames it refused in between is 2 modulo 3; with nothing
      refused they never do. */
  lemma ConsecutiveNumbers(k: Checksums, t: State, i: nat)
    requires Inv(k, t) && i + 1 < |t.committed|
    ensures forall j: nat | j < |t.committed| && t.committed[j].Drawn? :: t.committed[j].n < |t.link.sent|
    ensures var a, b := FrameOf(t, t.committed[i]), FrameOf(t, t.committed[i + 1]);
            && HEADER_SIZE <= |a| && HEADER_SIZE <= |b|
            && (PacketSeq(a) == PacketSeq(b) <==> Alike(t.committed[i], t.committed[i + 1]))
  {
    hide P.WellSent, PacketSeq, IsFrame;
    var a, b := t.committed[i], t.committed[i + 1];
    if a.Drawn? && b.Drawn? {
      assert a.n < b.n;
      assert PacketSeq(t.link.sent[a.n]) == 1 + a.n % 3 && PacketSeq(t.link.sent[b.n]) == 1 + b.n % 3;
    }
  }

  lemma SendsOne(k: Checksums, s: State, data: seq<byte>, accepted: bool)
    requires Inv(k, s) && P.Sendable(data)
    ensures var t := Next(k, s, ZbossSends(data, accepted));
            && Inv(k, t) && |t.link.sent| == |s.link.sent| + 1
            && t.committed == s.committed + if accepted then [Drawn(|s.link.sent|)] else []
  {
    hide P.Numbered, P.WellSent, DataFrame, Flags, CommittedInOrder, GreetingsGood;
    StepKeeps(k, s, ZbossSends(data, accepted));
  }

  /** Two refusals between two frames: the host sees the same number twice in a row. Here the transport may refuse at
      any moment; it does so only with a full buffer, which Pipeline.FullBufferSharesNumber adds. */
  lemma TwoRefusalsShareNumber(k: Checksums, s: State, data: seq<byte>) returns (t: State)
    requires Inv(k, s) && P.Sendable(data)
    ensures Run(k, s, [ZbossSends(data, true), ZbossSends(data, false), ZbossSends(data, false),
                       ZbossSends(data, true)], t)
    ensures var n := |s.link.sent|;
            && t.committed == s.committed + [Drawn(n), Drawn(n + 3)] && |t.link.sent| == n + 4
            && HEADER_SIZE <= |t.link.sent[n]| && HEADER_SIZE <= |t.link.sent[n + 3]|
            && PacketSeq(t.link.sent[n]) == PacketSeq(t.link.sent[n + 3])
  {
    hide Next, P.WellSent, CommittedInOrder, GreetingsGood, P.Sendable, PacketSeq, Run;
    var yes, no := ZbossSends(data, true), ZbossSends(data, false);
    SendsOne(k, s, data, true);
    var a := Next(k, s, yes);
    SendsOne(k, a, data, false);
    var b := Next(k, a, no);
    SendsOne(k, b, data, false);
    var c := Next(k, b, no);
    SendsOne(k, c, data, true);
    t := Next(k, c, yes);
    Nothing(k, t);
    Follow(k, c, yes, [], t);
    Follow(k, b, no, [yes] + [], t);
    Follow(k, a, no, [no] + ([yes] + []), t);
    Follow(k, s, yes, [no] + ([no] + ([yes] + [])), t);
    assert [yes] + ([no] + ([no] + ([yes] + []))) == [yes, no, no, yes];
  }

  lemma Nothing(k: Checksums, t: State)
    ensures Run(k, t, [], t)
  {
  }

  lemma Follow(k: Checksums, s: State, step: Step, steps: seq<Step>, t: State)
    requires WellFormed(s) && Enabled(k, s, step) && Run(k, Next(k, s, step), steps, t)
    ensures Run(k, s, [step] + steps, t)
  {
    hide Next, Enabled, WellFormed;
    assert ([step] + steps)[1..] == steps;
  }

  // ---- Without the other task -------------------------------------------------------------------

  function DrawsAll(k: Checksums, l: P.Link, todo: seq<Intent>): (m: P.Link)
    requires P.WellFormed(l) && forall i: nat | i < |todo| && todo[i].Ack? :: HEADER_SIZE <= |todo[i].frame|
    ensures P.WellFormed(m)
    decreases |todo|
  {
    if todo == [] then l else DrawsAll(k, Draws(k, l, todo[0]), todo[1..])
  }

  lemma {:induction false} RepliesAreSent(k: Checksums, l: P.Link, replies: seq<seq<byte>>)
    requires P.WellFormed(l)
    ensures DrawsAll(k, l, Replies(replies)) == P.SendsAll(k, l, replies)
    decreases |replies|
  {
    hide P.SendsData;
    if replies != [] {
      assert Replies(replies)[1..] == Replies(replies[1..]);
      RepliesAreSent(k, Draws(k, l, Reply(replies[0])), replies[1..]);
    }
  }

  lemma DrawsFirst(k: Checksums, l: P.Link, intent: Intent, todo: seq<Intent>)
    requires P.WellFormed(l) && (intent.Ack? ==> HEADER_SIZE <= |intent.frame|)
    requires forall i: nat | i < |todo| && todo[i].Ack? :: HEADER_SIZE <= |todo[i].frame|
    ensures DrawsAll(k, l, [intent] + todo) == DrawsAll(k, Draws(k, l, intent), todo)
  {
    hide Draws;
    assert ([intent] + todo)[1..] == todo;
  }

  /** Both halves together, with the replies the application gives, are what the link does with the frame. */
  lemma HalvesAreHandles(k: Checksums, app: P.App, l: P.Link, f: seq<byte>, replies: seq<seq<byte>>)
    requires P.WellFormed(l) && HEADER_SIZE <= |f|
    requires 9 <= |f| ==> replies == app(l.delivered + [Payload(f)])
    ensures DrawsAll(k, Receives(k, l, f), Intents(k, l, f, replies)) == P.Handles(k, app, l, f)
  {
    hide PayloadOk, DrawsAll, P.SendsAll, EmptyFrame, Flags, Replies;
    var m := Receives(k, l, f);
    NoneDrawn(k, m);
    if 9 <= |f| {
      assert [Ack(f, true)] + [] == [Ack(f, true)] && [Ack(f, false)] + [] == [Ack(f, false)];
      DrawsFirst(k, m, Ack(f, true), []);
      DrawsFirst(k, m, Ack(f, false), []);
      NoneDrawn(k, P.Acks(k, m, f, true));
      NoneDrawn(k, P.Acks(k, m, f, false));
      DrawsFirst(k, m, Ack(f, false), Replies(replies));
      RepliesAreSent(k, P.Acks(k, m, f, false), replies);
    }
  }

  lemma NoneDrawn(k: Checksums, l: P.Link)
    requires P.WellFormed(l)
    ensures DrawsAll(k, l, []) == l
  {
  }

  lemma {:induction false} Drains(k: Checksums, s: State, accepted: bool) returns (steps: seq<Step>, t: State)
    requires WellFormed(s)
    ensures Run(k, s, steps, t) && forall step | step in steps :: step == AppSends(accepted)
    ensures t.link == DrawsAll(k, s.link, s.todo) && t.todo == [] && t.cuts == s.cuts && t.rx == s.rx
    decreases |s.todo|
  {
    hide Draws;
    if s.todo == [] {
      steps, t := [], s;
    } else {
      var more;
      more, t := Drains(k, Next(k, s, AppSends(accepted)), accepted);
      steps := [AppSends(accepted)] + more;
      Follow(k, s, AppSends(accepted), more, t);
    }
  }

  /** When the ZBOSS task keeps out of it, handling a frame step by step is Protocol.Handles, whatever the transport
      does with the frames. */
  lemma UndisturbedIsHandles(k: Checksums, app: P.App, s: State, replies: seq<seq<byte>>, accepted: bool)
    returns (steps: seq<Step>, t: State)
    requires WellFormed(s) && Enabled(k, s, Handle(replies))
    requires 9 <= |s.cuts[0].frame| ==> replies == app(s.link.delivered + [Payload(s.cuts[0].frame)])
    ensures Run(k, s, [Handle(replies)] + steps, t) && forall step | step in steps :: step == AppSends(accepted)
    ensures t.link == P.Handles(k, app, s.link, s.cuts[0].frame) && t.todo == [] && t.cuts == s.cuts[1..]
  {
    hide Receives, Intents, DrawsAll, P.Handles, Run;
    HalvesAreHandles(k, app, s.link, s.cuts[0].frame, replies);
    steps, t := Drains(k, Next(k, s, Handle(replies)), accepted);
    Follow(k, s, Handle(replies), steps, t);
  }

  // ---- What the application gets does not depend on the other task ------------------------------

  /** The fields only the application task touches. */
  predicate SameReceived(l: P.Link, m: P.Link) {
    l.delivered == m.delivered && l.lastRxSeq == m.lastRxSeq && l.lastRxSeqValid == m.lastRxSeqValid
  }

  function ReceivesAll(k: Checksums, l: P.Link, cuts: seq<Cut>): (m: P.Link)
    requires P.WellFormed(l) && forall i: nat | i < |cuts| :: HEADER_SIZE <= |cuts[i].frame|
    ensures P.WellFormed(m)
    decreases |cuts|
  {
    if cuts == [] then l else ReceivesAll(k, Receives(k, l, cuts[0].frame), cuts[1..])
  }

  lemma {:induction false} ReceivesAllSame(k: Checksums, l: P.Link, m: P.Link, cuts: seq<Cut>)
    requires P.WellFormed(l) && P.WellFormed(m) && forall i: nat | i < |cuts| :: HEADER_SIZE <= |cuts[i].frame|
    requires SameReceived(l, m)
    ensures SameReceived(ReceivesAll(k, l, cuts), ReceivesAll(k, m, cuts))
    decreases |cuts|
  {
    hide P.Dispatchable;
    if cuts != [] {
      ReceivesAllSame(k, Receives(k, l, cuts[0].frame), Receives(k, m, cuts[0].frame), cuts[1..]);
    }
  }

  lemma HandlesReceives(k: Checksums, app: P.App, l: P.Link, f: seq<byte>)
    requires P.WellFormed(l) && HEADER_SIZE <= |f|
    ensures SameReceived(P.Handles(k, app, l, f), Receives(k, l, f))
  {
    hide PayloadOk, P.SendsAll, EmptyFrame, Flags;
    if P.Dispatchable(k, f) && !P.Duplicate(l.lastRxSeqValid, l.lastRxSeq, IsNack(f), PacketSeq(f)) {
      var delivered := l.delivered + [Payload(f)];
      var acked := P.Acks(k, l, f, false);
      P.SendsAllExtends(k, acked.(lastRxSeq := PacketSeq(f), lastRxSeqValid := true, delivered := delivered),
                        app(delivered));
    }
  }

  lemma {:induction false} HandlesAllReceives(k: Checksums, app: P.App, l: P.Link, cuts: seq<Cut>)
    requires P.WellFormed(l) && forall i: nat | i < |cuts| :: HEADER_SIZE <= |cuts[i].frame|
    ensures SameReceived(P.HandlesAll(k, app, l, cuts), ReceivesAll(k, l, cuts))
    decreases |cuts|
  {
    hide P.Handles, Receives;
    if cuts != [] {
      var f := cuts[0].frame;
      HandlesReceives(k, app, l, f);
      HandlesAllReceives(k, app, P.Handles(k, app, l, f), cuts[1..]);
      ReceivesAllSame(k, P.Handles(k, app, l, f), Receives(k, l, f), cuts[1..]);
    }
  }

  lemma {:induction false} ReceivesAllAppend(k: Checksums, l: P.Link, a: seq<Cut>, b: seq<Cut>)
    requires P.WellFormed(l)
    requires forall i: nat | i < |a| :: HEADER_SIZE <= |a[i].frame|
    requires forall i: nat | i < |b| :: HEADER_SIZE <= |b[i].frame|
    ensures forall i: nat | i < |a + b| :: HEADER_SIZE <= |(a + b)[i].frame|
    ensures ReceivesAll(k, l, a + b) == ReceivesAll(k, ReceivesAll(k, l, a), b)
    decreases |a|
  {
    hide Receives;
    if a == [] {
      assert a + b == b;
    } else {
      assert (a + b)[1..] == a[1..] + b;
      ReceivesAllAppend(k, Receives(k, l, a[0].frame), a[1..], b);
    }
  }

  /** The chunks handed to on_rx in a run. */
  function Chunks(steps: seq<Step>): (chunks: seq<seq<byte>>)
    decreases |steps|
  {
    if steps == [] then
      []
    else
      (if steps[0].OnRx? then [steps[0].chunk] else []) + Chunks(steps[1..])
  }

  lemma StepReceives(k: Checksums, s: State, step: Step)
    requires WellFormed(s) && Enabled(k, s, step) && !step.OnRx?
    ensures var t := Next(k, s, step);
            t.rx == s.rx && SameReceived(ReceivesAll(k, t.link, t.cuts), ReceivesAll(k, s.link, s.cuts))
  {
    hide Receives, Intents, Draws, IsGreeting;
    var t := Next(k, s, step);
    if !step.Handle? {
      ReceivesAllSame(k, t.link, s.link, s.cuts);
    }
  }

  lemma OnRxReceives(k: Checksums, s: State, chunk: seq<byte>, more: seq<Cut>)
    requires WellFormed(s) && Enabled(k, s, OnRx(chunk)) && forall i: nat | i < |more| :: HEADER_SIZE <= |more[i].frame|
    ensures var t := Next(k, s, OnRx(chunk));
            var cuts := Feed(k, Ncp, s.rx, chunk).cuts;
            && t.rx == Feed(k, Ncp, s.rx, chunk).next
            && (forall i: nat | i < |cuts + more| :: HEADER_SIZE <= |(cuts + more)[i].frame|)
            && ReceivesAll(k, ReceivesAll(k, t.link, t.cuts), more)
               == ReceivesAll(k, ReceivesAll(k, s.link, s.cuts), cuts + more)
  {
    hide Receives, Feed;
    P.FedHeaders(k, s.rx, chunk);
    ReceivesAllAppend(k, s.link, Feed(k, Ncp, s.rx, chunk).cuts, more);
  }

  /** The buffer and the receiving half after any run, in terms of the chunks alone. */
  lemma {:induction false} RunReceives(k: Checksums, s: State, steps: seq<Step>, t: State) returns (f: Fed)
    requires WellFormed(s) && Run(k, s, steps, t)
    ensures WellFormed(t) && forall i: nat | i < |Chunks(steps)| :: Admissible(Ncp, Chunks(steps)[i])
    ensures f == FeedAll(k, Ncp, s.rx, Chunks(steps)) && t.rx == f.next
    ensures forall i: nat | i < |f.cuts| :: HEADER_SIZE <= |f.cuts[i].frame|
    ensures SameReceived(ReceivesAll(k, t.link, t.cuts), ReceivesAll(k, ReceivesAll(k, s.link, s.cuts), f.cuts))
    decreases |steps|
  {
    hide Receives, Feed, Next, ReceivesAll;
    if steps == [] {
      f := Fed([], s.rx);
      NoneReceived(k, ReceivesAll(k, s.link, s.cuts));
    } else {
      var next := Next(k, s, steps[0]);
      var more := RunReceives(k, next, steps[1..], t);
      if steps[0].OnRx? {
        var chunk := steps[0].chunk;
        OnRxReceives(k, s, chunk, more.cuts);
        f := Fed(Feed(k, Ncp, s.rx, chunk).cuts + more.cuts, more.next);
        FeedAllStep(k, s.rx, chunk, Chunks(steps[1..]));
      } else {
        f := more;
        StepReceives(k, s, steps[0]);
        ReceivesAllSame(k, ReceivesAll(k, next.link, next.cuts), ReceivesAll(k, s.link, s.cuts), f.cuts);
        assert [] + Chunks(steps[1..]) == Chunks(steps[1..]);
      }
    }
  }

  lemma NoneReceived(k: Checksums, l: P.Link)
    requires P.WellFormed(l)
    ensures ReceivesAll(k, l, []) == l
  {
  }

  lemma FeedAllStep(k: Checksums, r: Receiver, chunk: seq<byte>, chunks: seq<seq<byte>>)
    requires Fits(Ncp, r) && Admissible(Ncp, chunk) && forall i: nat | i < |chunks| :: Admissible(Ncp, chunks[i])
    ensures forall i: nat | i < |[chunk] + chunks| :: Admissible(Ncp, ([chunk] + chunks)[i])
    ensures var one := Feed(k, Ncp, r, chunk);
            var more := FeedAll(k, Ncp, one.next, chunks);
            FeedAll(k, Ncp, r, [chunk] + chunks) == Fed(one.cuts + more.cuts, more.next)
  {
    hide Feed;
    assert ([chunk] + chunks)[1..] == chunks;
  }

  /** In every interleaving, once all frames of the chunks so far are handled: the application has been handed exactly
      the payloads it would have been handed alone, whatever the ZBOSS task sent in between. */
  lemma DeliveredIsUndisturbed(k: Checksums, app: P.App, s: State, steps: seq<Step>, t: State)
    requires WellFormed(s) && s.cuts == [] && Run(k, s, steps, t) && t.cuts == []
    ensures forall i: nat | i < |Chunks(steps)| :: Admissible(Ncp, Chunks(steps)[i])
    ensures t.link.delivered == P.Runs(k, app, s.link, s.rx, Chunks(steps)).delivered
  {
    hide Run, P.Runs, FeedAll, ReceivesAll, Chunks, P.HandlesAll;
    var f := RunReceives(k, s, steps, t);
    NoneReceived(k, s.link);
    NoneReceived(k, t.link);
    P.RunsHandlesFed(k, app, s.link, s.rx, Chunks(steps));
    HandlesAllReceives(k, app, s.link, f.cuts);
  }
}
