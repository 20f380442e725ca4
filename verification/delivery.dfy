/** Exactly-once delivery of the host's frames (main/protocol.cpp, on_rx_packet): a stop-and-wait host that
    flags its retransmissions, two FIFO channels that lose and damage, and the firmware's duplicate filter. */
module Delivery {
  import opened Bytes
  import opened Collections
  import opened Framing
  import Protocol

  /** A frame the host submits; `id`s below are positions in the list of submitted messages. */
  datatype Message = Message(seqNo: nat, data: seq<byte>)

  datatype Frame = Frame(id: nat, retransmit: bool, damaged: bool)

  /** An ACK or NACK on its way to the host. The host sees only `seqNo` and `nack`. */
  datatype Ack = Ack(id: nat, seqNo: nat, nack: bool)

  datatype State = State(submitted: seq<Message>, accepted: bool, toNcp: seq<Frame>, toHost: seq<Ack>,
                         lastSeq: nat, lastValid: bool, delivered: seq<seq<byte>>)

  const BOOT := State([], true, [], [], 0, false, [])

  datatype Step =
    | Submit(message: Message)
    | Resend
    | LoseFrame(at: nat)
    | DamageFrame(at: nat)
    | Receive
    | LoseAck(at: nat)
    | HostReceive

  /** The host waits for the ACK before it submits again. */
  predicate Enabled(s: State, step: Step) {
    var n := |s.submitted|;
    match step
    case Submit(m) => s.accepted && m.seqNo < 4
    case Resend => !s.accepted && 0 < n
    case LoseFrame(at) => at < |s.toNcp|
    case DamageFrame(at) => at < |s.toNcp|
    case Receive => 0 < |s.toNcp| && s.toNcp[0].id < n
    case LoseAck(at) => at < |s.toHost|
    case HostReceive => 0 < |s.toHost|
  }

  /** It gives consecutive frames different numbers. */
  predicate Disciplined(s: State, step: Step) {
    step.Submit? && 0 < |s.submitted| ==> step.message.seqNo != s.submitted[|s.submitted| - 1].seqNo
  }

  function Next(s: State, step: Step): State
    requires Enabled(s, step)
  {
    var n := |s.submitted|;
    match step
    case Submit(m) => s.(submitted := s.submitted + [m], accepted := false, toNcp := s.toNcp + [Frame(n, false, false)])
    case Resend => s.(toNcp := s.toNcp + [Frame(n - 1, true, false)])
    case LoseFrame(at) => s.(toNcp := Without(s.toNcp, at))
    case DamageFrame(at) => s.(toNcp := s.toNcp[at := s.toNcp[at].(damaged := true)])
    case Receive => Receives(s.(toNcp := s.toNcp[1..]), s.toNcp[0])
    case LoseAck(at) => s.(toHost := Without(s.toHost, at))
    case HostReceive =>
      var ack := s.toHost[0];
      var accepts := 0 < n && !ack.nack && ack.seqNo == s.submitted[n - 1].seqNo;
      s.(toHost := s.toHost[1..], accepted := s.accepted || accepts)
  }

  /** The firmware's side of one frame. */
  function Receives(s: State, f: Frame): State
    requires f.id < |s.submitted|
  {
    var m := s.submitted[f.id];
    if f.damaged then
      s.(toHost := s.toHost + [Ack(f.id, m.seqNo, true)])
    else
      var acked := s.(toHost := s.toHost + [Ack(f.id, m.seqNo, false)]);
      if Protocol.Duplicate(s.lastValid, s.lastSeq, f.retransmit, m.seqNo) then
        acked
      else
        acked.(lastSeq := m.seqNo, lastValid := true, delivered := s.delivered + [m.data])
  }

  /** What is on the wire for a frame: the frame itself, or, when it is damaged, any frame with its number whose
      payload CRC is wrong. */
  predicate OnWire(k: Checksums, f: Frame, m: Message, ackSeq: nat, wire: seq<byte>)
    requires m.seqNo < 4 && |m.data| + 7 < 0x1_0000 && ackSeq < 4
  {
    if f.damaged then
      9 <= |wire| && !PayloadOk(k, wire) && PacketSeq(wire) == m.seqNo
    else
      wire == DataFrame(k, Flags(false, f.retransmit, m.seqNo, ackSeq), m.data)
  }

  /** The first frame `after` sends more than `before` acknowledges `seqNo`, or refuses it. */
  predicate Acknowledges(before: Protocol.Link, after: Protocol.Link, seqNo: nat, nack: bool) {
    && |before.sent| < |after.sent| && after.sent[..|before.sent|] == before.sent
    && var ack := after.sent[|before.sent|];
       |ack| == HEADER_SIZE && IsAck(ack) && IsNack(ack) == nack && AckSeq(ack) == seqNo
  }

  /** Receives is what the link of main/protocol.cpp does with the frame on the wire, damaged or not. */
  lemma ReceivesIsHandles(k: Checksums, app: Protocol.App, l: Protocol.Link, s: State, f: Frame, ackSeq: nat,
                          wire: seq<byte>)
    requires f.id < |s.submitted| && ackSeq < 4
    requires s.submitted[f.id].seqNo < 4 && |s.submitted[f.id].data| + 7 < 0x1_0000
    requires OnWire(k, f, s.submitted[f.id], ackSeq, wire)
    requires Protocol.WellFormed(l)
    requires s.lastSeq == l.lastRxSeq && s.lastValid == l.lastRxSeqValid && s.delivered == l.delivered
    ensures 9 <= |wire|
    ensures var t := Receives(s, f);
            var h := Protocol.Handles(k, app, l, wire);
            && t.lastSeq == h.lastRxSeq && t.lastValid == h.lastRxSeqValid && t.delivered == h.delivered
            && t.toHost == s.toHost + [Ack(f.id, s.submitted[f.id].seqNo, f.damaged)]
            && Acknowledges(l, h, s.submitted[f.id].seqNo, f.damaged)
  {
    hide Flags, DataFrame, IsFrame, EmptyFrame, PayloadOk, Payload, Protocol.SendsAll, Protocol.Acks, Acknowledges;
    var m := s.submitted[f.id];
    if f.damaged {
      AckedFirst(k, l, wire, true);
    } else {
      var flags := Flags(false, f.retransmit, m.seqNo, ackSeq);
      DataFrameIsFrame(k, flags, m.data);
      FlagsReadBack(wire, false, f.retransmit, m.seqNo, ackSeq);
      AckedFirst(k, l, wire, false);
      if !Protocol.Duplicate(l.lastRxSeqValid, l.lastRxSeq, f.retransmit, m.seqNo) {
        var acked := Protocol.Acks(k, l, wire, false);
        AckTouchesNothing(k, l, wire, false);
        var delivered := l.delivered + [m.data];
        var d := acked.(lastRxSeq := m.seqNo, lastRxSeqValid := true, delivered := delivered);
        Protocol.SendsAllExtends(k, d, app(delivered));
        StillAcknowledges(l, acked, Protocol.SendsAll(k, d, app(delivered)), m.seqNo, false);
      } else {
        AckTouchesNothing(k, l, wire, false);
      }
    }
    AckTouchesNothing(k, l, wire, true);
  }

  lemma AckTouchesNothing(k: Checksums, l: Protocol.Link, f: seq<byte>, nack: bool)
    requires Protocol.WellFormed(l) && HEADER_SIZE <= |f|
    ensures var m := Protocol.Acks(k, l, f, nack);
            && Protocol.WellFormed(m) && m.delivered == l.delivered
            && m.lastRxSeq == l.lastRxSeq && m.lastRxSeqValid == l.lastRxSeqValid
  {
    hide EmptyFrame, Flags;
  }

  lemma AckedFirst(k: Checksums, l: Protocol.Link, f: seq<byte>, nack: bool)
    requires Protocol.WellFormed(l) && HEADER_SIZE <= |f|
    ensures Acknowledges(l, Protocol.Acks(k, l, f, nack), PacketSeq(f), nack)
  {
    hide Flags, EmptyFrame, IsFrame;
    var flags := Flags(true, nack, l.txSeq, PacketSeq(f));
    var ack := EmptyFrame(k, flags);
    EmptyFrameIsFrame(k, flags);
    Protocol.EmptyFrameSize(k, flags);
    FlagsReadBack(ack, true, nack, l.txSeq, PacketSeq(f));
    assert Protocol.Acks(k, l, f, nack).sent == l.sent + [ack];
  }

  lemma StillAcknowledges(l: Protocol.Link, m: Protocol.Link, h: Protocol.Link, seqNo: nat, nack: bool)
    requires Acknowledges(l, m, seqNo, nack) && |m.sent| <= |h.sent| && h.sent[..|m.sent|] == m.sent
    ensures Acknowledges(l, h, seqNo, nack)
  {
    assert h.sent[..|l.sent|] == m.sent[..|l.sent|];
    assert h.sent[|l.sent|] == m.sent[|l.sent|];
  }

  // ---- The invariant ----------------------------------------------------------------------------

  function DataOf(ms: seq<Message>): (d: seq<seq<byte>>)
    ensures |d| == |ms|
    ensures forall i: nat | i < |ms| :: d[i] == ms[i].data
  {
    seq(|ms|, i requires 0 <= i < |ms| => ms[i].data)
  }

  /** What has been dispatched is the beginning of what was submitted, and all of what was accepted. */
  predicate Prefix(s: State) {
    && |s.delivered| <= |s.submitted|
    && s.delivered == DataOf(s.submitted[..|s.delivered|])
    && |s.submitted| <= |s.delivered| + 1
    && (s.accepted ==> |s.delivered| == |s.submitted|)
  }

  predicate Numbers(s: State) {
    forall i: nat | 0 < i < |s.submitted| :: s.submitted[i - 1].seqNo != s.submitted[i].seqNo
  }

  predicate Remembers(s: State) {
    && |s.delivered| <= |s.submitted|
    && (s.lastValid <==> 0 < |s.delivered|)
    && (s.lastValid ==> s.lastSeq == s.submitted[|s.delivered| - 1].seqNo)
  }

  /** Frames under way: copies of the last dispatched frame, all flagged, then copies of the next one, of which
      only the first may be unflagged. */
  predicate FramesInOrder(s: State) {
    && (forall i: nat | i < |s.toNcp| ::
          && s.toNcp[i].id < |s.submitted|
          && |s.delivered| <= s.toNcp[i].id + 1 <= |s.delivered| + 1
          && (s.toNcp[i].id + 1 == |s.delivered| ==> s.toNcp[i].retransmit))
    && (forall i: nat, j: nat | i < j < |s.toNcp| ::
          s.toNcp[i].id <= s.toNcp[j].id && (s.toNcp[i].id == s.toNcp[j].id ==> s.toNcp[j].retransmit))
  }

  /** ACKs under way name dispatched frames, oldest first, and none older than the frame before the current one. */
  predicate AcksInOrder(s: State) {
    && (forall i: nat | i < |s.toHost| && !s.toHost[i].nack ::
          && s.toHost[i].id < |s.delivered| <= |s.submitted|
          && s.toHost[i].seqNo == s.submitted[s.toHost[i].id].seqNo
          && |s.submitted| <= s.toHost[i].id + (if s.accepted then 1 else 2))
    && (forall i: nat, j: nat | i < j < |s.toHost| && !s.toHost[i].nack && !s.toHost[j].nack ::
          s.toHost[i].id <= s.toHost[j].id)
  }

  predicate Inv(s: State) {
    Prefix(s) && Numbers(s) && Remembers(s) && FramesInOrder(s) && AcksInOrder(s)
  }

  // ---- Every step keeps it ----------------------------------------------------------------------

  lemma SubmitKeeps(s: State, m: Message)
    requires Inv(s) && Enabled(s, Submit(m)) && Disciplined(s, Submit(m))
    ensures Inv(Next(s, Submit(m)))
  {
    var t := Next(s, Submit(m));
    assert t.submitted[..|s.delivered|] == s.submitted[..|s.delivered|];
    assert forall i: nat | i < |s.submitted| :: t.submitted[i] == s.submitted[i];
  }

  lemma ResendKeeps(s: State)
    requires Inv(s) && Enabled(s, Resend)
    ensures Inv(Next(s, Resend))
  {
  }

  lemma LoseFrameKeeps(s: State, at: nat)
    requires Inv(s) && at < |s.toNcp|
    ensures Inv(Next(s, LoseFrame(at)))
  {
    hide DataOf;
  }

  lemma DamageFrameKeeps(s: State, at: nat)
    requires Inv(s) && at < |s.toNcp|
    ensures Inv(Next(s, DamageFrame(at)))
  {
    hide DataOf;
  }

  lemma LoseAckKeeps(s: State, at: nat)
    requires Inv(s) && at < |s.toHost|
    ensures Inv(Next(s, LoseAck(at)))
  {
    hide DataOf;
  }

  lemma HostReceiveKeeps(s: State)
    requires Inv(s) && 0 < |s.toHost|
    ensures Inv(Next(s, HostReceive))
  {
    hide DataOf;
  }

  lemma ReceiveCounts(s: State)
    requires Inv(s) && Enabled(s, Receive)
    ensures var t := Next(s, Receive); Prefix(t) && Numbers(t) && Remembers(t)
  {
    hide DataOf, AcksInOrder;
    var t := Next(s, Receive);
    if t.delivered != s.delivered {
      var d := |s.delivered|;
      assert s.toNcp[0].id == d;
      assert s.submitted[..d + 1] == s.submitted[..d] + [s.submitted[d]];
      DataOfAppend(s.submitted[..d], s.submitted[d]);
    }
  }

  lemma ReceiveOrders(s: State)
    requires Inv(s) && Enabled(s, Receive)
    ensures var t := Next(s, Receive); FramesInOrder(t) && AcksInOrder(t)
  {
    hide DataOf;
    var t := Next(s, Receive);
    assert t.toNcp == s.toNcp[1..];
  }

  lemma ReceiveKeeps(s: State)
    requires Inv(s) && 0 < |s.toNcp|
    ensures Enabled(s, Receive)
    ensures Inv(Next(s, Receive))
  {
    hide Next, Prefix, Numbers, Remembers, AcksInOrder;
    assert s.toNcp[0].id < |s.submitted|;
    ReceiveCounts(s);
    ReceiveOrders(s);
  }

  lemma DataOfAppend(ms: seq<Message>, m: Message)
    ensures DataOf(ms + [m]) == DataOf(ms) + [m.data]
  {
  }

  /** A run in which the host keeps its numbers apart. */
  ghost predicate Run(s: State, steps: seq<Step>, t: State)
    decreases |steps|
  {
    if steps == [] then
      s == t
    else
      Enabled(s, steps[0]) && Disciplined(s, steps[0]) && Run(Next(s, steps[0]), steps[1..], t)
  }

  lemma StepKeeps(s: State, step: Step)
    requires Inv(s) && Enabled(s, step) && Disciplined(s, step)
    ensures Inv(Next(s, step))
  {
    hide Inv, Next;
    match step
    case Submit(m) => SubmitKeeps(s, m);
    case Resend => ResendKeeps(s);
    case LoseFrame(at) => LoseFrameKeeps(s, at);
    case DamageFrame(at) => DamageFrameKeeps(s, at);
    case Receive => ReceiveKeeps(s);
    case LoseAck(at) => LoseAckKeeps(s, at);
    case HostReceive => HostReceiveKeeps(s);
  }

  lemma {:induction false} RunKeeps(s: State, steps: seq<Step>, t: State)
    requires Inv(s) && Run(s, steps, t)
    ensures Inv(t)
    decreases |steps|
  {
    hide Inv, Next;
    if steps != [] {
      StepKeeps(s, steps[0]);
      RunKeeps(Next(s, steps[0]), steps[1..], t);
    }
  }

  /** In every run since boot the dispatched payloads are a prefix of the submitted ones, and as soon as the
      host has accepted the ACK of a frame, that frame and all before it have been dispatched exactly once. */
  lemma ExactlyOnce(steps: seq<Step>, t: State)
    requires Run(BOOT, steps, t)
    ensures t.delivered <= DataOf(t.submitted)
    ensures |t.submitted| <= |t.delivered| + 1
    ensures t.accepted ==> t.delivered == DataOf(t.submitted)
  {
    hide Run, Next;
    RunKeeps(BOOT, steps, t);
    var d := |t.delivered|;
    assert DataOf(t.submitted)[..d] == DataOf(t.submitted[..d]);
    assert t.accepted ==> t.submitted[..d] == t.submitted;
  }

  // ---- Nothing gets stuck -----------------------------------------------------------------------

  lemma ReceiveMoves(s: State)
    requires Enabled(s, Receive)
    ensures var t := Next(s, Receive);
            t.toNcp == s.toNcp[1..] && t.submitted == s.submitted && t.accepted == s.accepted
  {
  }

  lemma {:induction false} DrainFrames(s: State) returns (steps: seq<Step>, t: State)
    requires Inv(s)
    ensures Run(s, steps, t) && Inv(t) && t.toNcp == []
    ensures t.submitted == s.submitted && t.accepted == s.accepted
    ensures |s.toNcp| > 0 && !s.toNcp[|s.toNcp| - 1].damaged && s.toNcp[|s.toNcp| - 1].id + 1 == |s.submitted| ==>
              |t.delivered| == |s.submitted| && |t.toHost| > 0 && AcksCurrent(t, t.toHost[|t.toHost| - 1])
    decreases |s.toNcp|
  {
    hide Inv, Next, AcksCurrent;
    if s.toNcp == [] {
      steps, t := [], s;
    } else {
      ReceiveKeeps(s);
      ReceiveMoves(s);
      var next := Next(s, Receive);
      if |s.toNcp| == 1 {
        steps, t := [Receive], next;
        assert steps[1..] == [];
        if !s.toNcp[0].damaged && s.toNcp[0].id + 1 == |s.submitted| {
          LastReceived(s);
        }
      } else {
        var more;
        more, t := DrainFrames(next);
        steps := [Receive] + more;
        assert steps[1..] == more;
      }
    }
  }

  predicate AcksCurrent(s: State, a: Ack) {
    && 0 < |s.submitted| && a == Ack(|s.submitted| - 1, s.submitted[|s.submitted| - 1].seqNo, false)
  }

  lemma LastReceived(s: State)
    requires Inv(s) && |s.toNcp| == 1 && !s.toNcp[0].damaged && s.toNcp[0].id + 1 == |s.submitted|
    ensures var t := Next(s, Receive);
            |t.delivered| == |s.submitted| && |t.toHost| > 0 && AcksCurrent(t, t.toHost[|t.toHost| - 1])
  {
    ReceiveKeeps(s);
  }

  lemma {:induction false} DrainAcks(s: State) returns (steps: seq<Step>, t: State)
    requires |s.toHost| > 0 && AcksCurrent(s, s.toHost[|s.toHost| - 1])
    ensures Run(s, steps, t) && t.accepted && t == s.(accepted := true, toHost := [])
    ensures forall step | step in steps :: step == HostReceive
    decreases |s.toHost|
  {
    var next := Next(s, HostReceive);
    if |s.toHost| == 1 {
      steps, t := [HostReceive], next;
      assert steps[1..] == [];
    } else {
      var more;
      more, t := DrainAcks(next);
      steps := [HostReceive] + more;
      assert steps[1..] == more;
    }
  }

  lemma {:induction false} RunAppend(s: State, a: seq<Step>, t: State, b: seq<Step>, u: State)
    requires Run(s, a, t) && Run(t, b, u)
    ensures Run(s, a + b, u)
    decreases |a|
  {
    hide Next;
    if a == [] {
      assert a + b == b;
    } else {
      assert (a + b)[1..] == a[1..] + b;
      RunAppend(Next(s, a[0]), a[1..], t, b, u);
    }
  }

  /** Whatever was lost before: one retransmission that gets through, and whose ACK gets through, is accepted. */
  lemma RetransmissionSucceeds(s: State) returns (steps: seq<Step>, t: State)
    requires Inv(s) && !s.accepted && 0 < |s.submitted|
    ensures Run(s, steps, t) && t.accepted
    ensures t.submitted == s.submitted && t.delivered == DataOf(s.submitted)
  {
    hide Inv, Run;
    ResendKeeps(s);
    var a := Next(s, Resend);
    var drain, b := DrainFrames(a);
    var listen;
    listen, t := DrainAcks(b);
    RunKeeps(b, listen, t);
    RunAppend(a, drain, b, listen, t);
    steps := [Resend] + (drain + listen);
    RunOne(s, Resend, drain + listen, t);
    AllDelivered(t);
  }

  lemma RunOne(s: State, step: Step, steps: seq<Step>, t: State)
    requires Enabled(s, step) && Disciplined(s, step) && Run(Next(s, step), steps, t)
    ensures Run(s, [step] + steps, t)
  {
    assert ([step] + steps)[1..] == steps;
  }

  lemma AllDelivered(t: State)
    requires Inv(t) && t.accepted
    ensures t.delivered == DataOf(t.submitted)
  {
    assert t.submitted[..|t.delivered|] == t.submitted;
  }

  // ---- Why consecutive numbers must differ ------------------------------------------------------

  /** Only copies of the frame before last are under way, flagged, and behind them one copy of the last. */
  predicate OnlyCopies(s: State) {
    var n := |s.submitted|;
    && 2 <= n && s.toNcp != [] && s.toNcp[|s.toNcp| - 1] == Frame(n - 1, true, false)
    && (forall i: nat | i < |s.toNcp| - 1 :: s.toNcp[i].id == n - 2 && s.toNcp[i].retransmit)
    && s.lastValid && s.lastSeq == s.submitted[n - 2].seqNo
  }

  lemma CopyDropped(s: State)
    requires OnlyCopies(s) && |s.toNcp| > 1
    ensures Enabled(s, Receive)
    ensures var t := Next(s, Receive);
            && OnlyCopies(t) && t.submitted == s.submitted && t.delivered == s.delivered && |t.toNcp| == |s.toNcp| - 1
  {
  }

  /** What the payloads dispatched become when the last frame is at last received. */
  function Grown(s: State): seq<seq<byte>>
    requires 2 <= |s.submitted|
  {
    var n := |s.submitted|;
    if s.submitted[n - 1].seqNo == s.submitted[n - 2].seqNo then s.delivered
    else s.delivered + [s.submitted[n - 1].data]
  }

  lemma LastCopyTaken(s: State)
    requires OnlyCopies(s) && |s.toNcp| == 1
    ensures Enabled(s, Receive)
    ensures var t := Next(s, Receive);
            && t.toNcp == [] && t.submitted == s.submitted && t.delivered == Grown(s)
            && |t.toHost| > 0 && AcksCurrent(t, t.toHost[|t.toHost| - 1])
  {
  }

  /** The copies are dropped, whatever their ACKs say; the last frame is taken if its number is a new one. */
  lemma {:induction false} DrainCopies(s: State) returns (steps: seq<Step>, t: State)
    requires OnlyCopies(s)
    ensures Run(s, steps, t) && t.toNcp == [] && t.submitted == s.submitted
    ensures forall step | step in steps :: step == Receive
    ensures |t.toHost| > 0 && AcksCurrent(t, t.toHost[|t.toHost| - 1])
    ensures t.delivered == Grown(s)
    decreases |s.toNcp|
  {
    hide Next, AcksCurrent, Enabled;
    if |s.toNcp| == 1 {
      LastCopyTaken(s);
      steps, t := [Receive], Next(s, Receive);
      assert steps[1..] == [];
    } else {
      CopyDropped(s);
      var more;
      more, t := DrainCopies(Next(s, Receive));
      steps := [Receive] + more;
      assert steps[1..] == more;
    }
  }

  /** From any state in which the host has just had its frame accepted: it submits the next message under any number
      at all, the first transmission is lost, the flagged retransmission and its ACK get through, behind whatever is
      still under way. The host takes the ACK either way; the message has reached the application if and only if its
      number is not the one before. */
  lemma LostFrameNeedsNewNumber(s: State, b: Message) returns (steps: seq<Step>, t: State)
    requires Inv(s) && s.accepted && 0 < |s.submitted| && b.seqNo < 4
    ensures Enabled(s, Submit(b))
    ensures forall step | step in steps :: step == Receive || step == HostReceive
    ensures Run(Next(s, Submit(b)), [LoseFrame(|s.toNcp|), Resend] + steps, t)
    ensures t.accepted && t.submitted == s.submitted + [b] && t.toNcp == [] && t.toHost == []
    ensures var last := s.submitted[|s.submitted| - 1];
            t.delivered == if b.seqNo == last.seqNo then s.delivered else s.delivered + [b.data]
  {
    hide Run, OnlyCopies, Inv;
    var first := Next(s, Submit(b));
    var lost := Next(first, LoseFrame(|s.toNcp|));
    var again := Next(lost, Resend);
    LostThenResent(s, b);
    OnlyCopiesLeft(s, again, b);
    steps, t := Recovers(again);
    RunOfTwo(first, LoseFrame(|s.toNcp|), Resend, steps, t);
  }

  lemma LostThenResent(s: State, b: Message)
    requires Enabled(s, Submit(b))
    ensures var first := Next(s, Submit(b));
            && Enabled(first, LoseFrame(|s.toNcp|)) && Enabled(Next(first, LoseFrame(|s.toNcp|)), Resend)
            && Next(Next(first, LoseFrame(|s.toNcp|)), Resend)
               == s.(submitted := s.submitted + [b], accepted := false,
                     toNcp := s.toNcp + [Frame(|s.submitted|, true, false)])
  {
    assert Without(s.toNcp + [Frame(|s.submitted|, false, false)], |s.toNcp|) == s.toNcp;
  }

  lemma RunOfTwo(s: State, a: Step, b: Step, steps: seq<Step>, t: State)
    requires Enabled(s, a) && Disciplined(s, a) && Enabled(Next(s, a), b) && Disciplined(Next(s, a), b)
    requires Run(Next(Next(s, a), b), steps, t)
    ensures Run(s, [a, b] + steps, t)
  {
    hide Enabled, Next, Disciplined, Run;
    RunOne(Next(s, a), b, steps, t);
    RunOne(s, a, [b] + steps, t);
    assert [a] + ([b] + steps) == [a, b] + steps;
  }

  lemma Recovers(s: State) returns (steps: seq<Step>, t: State)
    requires OnlyCopies(s)
    ensures forall step | step in steps :: step == Receive || step == HostReceive
    ensures Run(s, steps, t) && t.accepted && t.submitted == s.submitted && t.toNcp == [] && t.toHost == []
    ensures t.delivered == Grown(s)
  {
    hide Run, Next;
    var drain, drained := DrainCopies(s);
    var listen;
    listen, t := DrainAcks(drained);
    steps := drain + listen;
    RunAppend(s, drain, drained, listen, t);
  }

  lemma OnlyCopiesLeft(s: State, again: State, b: Message)
    requires Inv(s) && s.accepted && 0 < |s.submitted|
    requires again == s.(submitted := s.submitted + [b], accepted := false,
                         toNcp := s.toNcp + [Frame(|s.submitted|, true, false)])
    ensures OnlyCopies(again)
  {
  }

  /** Every frame under way carries the number accepted last, and is flagged or damaged. */
  predicate AllStale(s: State) {
    && s.lastValid && 0 < |s.submitted| && s.submitted[|s.submitted| - 1].seqNo == s.lastSeq
    && forall i: nat | i < |s.toNcp| ::
         && s.toNcp[i].id < |s.submitted| && s.submitted[s.toNcp[i].id].seqNo == s.lastSeq
         && (s.toNcp[i].retransmit || s.toNcp[i].damaged)
  }

  lemma StaysStale(s: State, step: Step)
    requires AllStale(s) && Enabled(s, step) && !step.Submit?
    ensures AllStale(Next(s, step)) && Next(s, step).delivered == s.delivered
  {
  }

  lemma {:induction false} StaleRun(s: State, steps: seq<Step>, t: State)
    requires AllStale(s) && Run(s, steps, t) && forall i: nat | i < |steps| :: !steps[i].Submit?
    ensures t.delivered == s.delivered
    decreases |steps|
  {
    hide AllStale, Next, Enabled;
    if steps != [] {
      StaysStale(s, steps[0]);
      StaleRun(Next(s, steps[0]), steps[1..], t);
    }
  }

  /** The next message has the number of the last one and its first transmission is lost, or damaged: whatever
      happens until the host submits again, retransmissions and its acceptance included, the message is never
      dispatched. */
  lemma EqualNumberNeverDispatched(s: State, b: Message, damaged: bool, steps: seq<Step>, t: State)
    requires Inv(s) && s.accepted && 0 < |s.submitted| && b.seqNo == s.submitted[|s.submitted| - 1].seqNo
    requires Enabled(s, Submit(b)) && forall i: nat | i < |steps| :: !steps[i].Submit?
    requires var harm := if damaged then DamageFrame(|s.toNcp|) else LoseFrame(|s.toNcp|);
             Run(Next(s, Submit(b)), [harm] + steps, t)
    ensures t.delivered == s.delivered
  {
    hide Run;
    var first := Next(s, Submit(b));
    var harm := if damaged then DamageFrame(|s.toNcp|) else LoseFrame(|s.toNcp|);
    RunFirst(first, harm, steps, t);
    HarmedIsStale(s, b, damaged);
    StaleRun(Next(first, harm), steps, t);
  }

  lemma RunFirst(s: State, step: Step, steps: seq<Step>, t: State)
    requires Run(s, [step] + steps, t)
    ensures Enabled(s, step) && Run(Next(s, step), steps, t)
  {
    hide Enabled, Next;
    assert ([step] + steps)[1..] == steps;
  }

  lemma HarmedIsStale(s: State, b: Message, damaged: bool)
    requires Inv(s) && s.accepted && 0 < |s.submitted| && b.seqNo == s.submitted[|s.submitted| - 1].seqNo
    requires Enabled(s, Submit(b))
    ensures var first := Next(s, Submit(b));
            var harm := if damaged then DamageFrame(|s.toNcp|) else LoseFrame(|s.toNcp|);
            Enabled(first, harm) && AllStale(Next(first, harm)) && Next(first, harm).delivered == s.delivered
  {
    var first := Next(s, Submit(b));
    assert forall i: nat | i < |s.toNcp| :: first.toNcp[i] == s.toNcp[i];
    assert forall i: nat | i < |s.submitted| :: first.submitted[i] == s.submitted[i];
    if !damaged {
      assert Without(first.toNcp, |s.toNcp|) == s.toNcp;
    }
  }
}
