/** Page and firmware put together: what the page asks is what the firmware's application gets, and what the
    application answers settles the request it answers. */
module EndToEnd {
  import opened Bytes
  import opened Framing
  import opened Reassembly
  import P = Protocol
  import H = HostLink

  /** The frame of the request must fit into the firmware's receive buffer. */
  predicate Fitting(cmdId: nat, payload: seq<byte>) {
    cmdId < 0x1_0000 && 14 + |payload| <= RX_BUFFER_SIZE
  }

  predicate FittingEvent(e: H.Event) {
    e.Command? ==> Fitting(e.cmdId, e.payload)
  }

  predicate AllFitting(events: seq<H.Event>) {
    forall i: nat | i < |events| :: FittingEvent(events[i])
  }

  /** What one event asks of the application: version, type, command, tsn and payload of a call. */
  function Asked(tsn: nat, e: H.Event): seq<seq<byte>>
    requires tsn < 0x100 && FittingEvent(e)
  {
    if e.Command? then [H.RequestData(tsn, e.cmdId, e.payload)] else []
  }

  function NextTsn(tsn: nat, e: H.Event): (n: nat)
    requires tsn < 0x100
    ensures n < 0x100
  {
    if e.Command? then (tsn + 1) % 0x100 else tsn
  }

  /** What the application should be handed in a run. */
  function Wanted(tsn: nat, events: seq<H.Event>): (data: seq<seq<byte>>)
    requires tsn < 0x100 && AllFitting(events)
    ensures events == [] ==> data == []
    decreases |events|
  {
    if events == [] then
      []
    else
      assert AllFitting(events[1..]);
      Asked(tsn, events[0]) + Wanted(NextTsn(tsn, events[0]), events[1..])
  }

  lemma WantedStep(tsn: nat, events: seq<H.Event>)
    requires tsn < 0x100 && AllFitting(events) && events != []
    ensures AllFitting(events[1..]) && FittingEvent(events[0])
    ensures Wanted(tsn, events) == Asked(tsn, events[0]) + Wanted(NextTsn(tsn, events[0]), events[1..])
  {
    hide Asked, NextTsn;
  }

  /** These are the requests of the calls among the events, one for each, in order, with tsns counted up from `tsn`. */
  ghost predicate Requests(tsn: nat, events: seq<H.Event>, data: seq<seq<byte>>)
    decreases |events|
  {
    if events == [] then
      data == []
    else match events[0]
      case Command(cmdId, payload) =>
        && data != [] && H.IsRequest(data[0], tsn, cmdId, payload)
        && Requests((tsn + 1) % 0x100, events[1..], data[1..])
      case _ =>
        Requests(tsn, events[1..], data)
  }

  lemma {:induction false} WantedAreRequests(tsn: nat, events: seq<H.Event>)
    requires tsn < 0x100 && AllFitting(events)
    ensures Requests(tsn, events, Wanted(tsn, events))
    decreases |events|
  {
    hide H.IsRequest, H.RequestData, AllFitting;
    if events != [] {
      WantedStep(tsn, events);
      WantedAreRequests(NextTsn(tsn, events[0]), events[1..]);
      var asked, rest := Asked(tsn, events[0]), Wanted(NextTsn(tsn, events[0]), events[1..]);
      if events[0].Command? {
        var d := H.RequestData(tsn, events[0].cmdId, events[0].payload);
        H.RequestReadBack(tsn, events[0].cmdId, events[0].payload, d);
        assert (asked + rest)[0] == d && (asked + rest)[1..] == rest;
      } else {
        assert asked + rest == rest;
      }
    }
  }

  /** A data frame of the page: unflagged, with a good CRC. */
  predicate Plain(k: Checksums, f: seq<byte>) {
    && IsFrame(k, f) && 9 <= |f| && PayloadOk(k, f)
    && PacketType(f) == ZBOSS_NCP_API_HL && !IsAck(f) && !IsNack(f)
  }

  lemma CommandIsPlain(k: Checksums, p: H.Page, cmdId: nat, payload: seq<byte>) returns (f: seq<byte>)
    requires H.WellFormed(p) && cmdId < 0x1_0000 && |payload| + 12 < 0x1_0000
    ensures |f| == 14 + |payload| && Plain(k, f)
    ensures H.Commands(k, p, cmdId, payload).written == p.written + [f]
    ensures Payload(f) == H.RequestData(p.nextTsn, cmdId, payload)
    ensures H.IsRequest(Payload(f), p.nextTsn, cmdId, payload)
  {
    hide Flags, DataFrame, IsFrame, PayloadOk, Payload, IsAck, IsNack, PacketType, H.IsRequest;
    H.RequestReadBack(p.nextTsn, cmdId, payload, H.RequestData(p.nextTsn, cmdId, payload));
    var d := H.RequestData(p.nextTsn, cmdId, payload);
    var flags := Flags(false, false, p.seqNo, p.recvSeq);
    f := DataFrame(k, flags, d);
    DataFrameIsFrame(k, flags, d);
    FlagsReadBack(f, false, false, p.seqNo, p.recvSeq);
    SameFrame(k, flags, d);
  }

  lemma SameFrame(k: Checksums, flags: byte, data: seq<byte>)
    requires |data| + 7 < 0x1_0000
    ensures H.CommandFrame(k, flags, data) == DataFrame(k, flags, data)
  {
    hide Header;
  }

  lemma PlainIsDelivered(k: Checksums, app: P.App, l: P.Link, f: seq<byte>)
    requires P.WellFormed(l) && Plain(k, f)
    ensures P.Handles(k, app, l, f).delivered == l.delivered + [Payload(f)]
  {
    hide IsFrame, PayloadOk, P.SendsAll, EmptyFrame, Flags;
    var delivered := l.delivered + [Payload(f)];
    var acked := P.Acks(k, l, f, false);
    P.SendsAllExtends(k, acked.(lastRxSeq := PacketSeq(f), lastRxSeqValid := true, delivered := delivered),
                      app(delivered));
  }

  lemma LaidFirst(k: Checksums, app: P.App, l: P.Link, f: seq<byte>, more: seq<seq<byte>>, at: nat)
    requires P.WellFormed(l) && HEADER_SIZE <= |f| && forall i: nat | i < |more| :: HEADER_SIZE <= |more[i]|
    ensures Laid([f] + more, at) == [Cut(at, f)] + Laid(more, at + |f|)
    ensures P.HandlesAll(k, app, l, [Cut(at, f)] + Laid(more, at + |f|))
         == P.HandlesAll(k, app, P.Handles(k, app, l, f), Laid(more, at + |f|))
  {
    hide P.Handles, P.WellFormed;
    assert ([f] + more)[1..] == more;
    var rest := Laid(more, at + |f|);
    assert ([Cut(at, f)] + rest)[1..] == rest;
  }

  /** What one event makes the page write, if anything: a request or an ACK; what handling it delivers. */
  lemma WritesOne(k: Checksums, app: P.App, p: H.Page, e: H.Event, l: P.Link) returns (written: bool, f: seq<byte>)
    requires H.WellFormed(p) && P.WellFormed(l) && H.Possible(p, e) && FittingEvent(e)
    ensures var q := H.Step(k, p, e);
            && q.nextTsn == NextTsn(p.nextTsn, e)
            && q.written == if written then p.written + [f] else p.written
    ensures written ==> IsFrame(k, f) && HEADER_SIZE <= |f| <= RX_BUFFER_SIZE
    ensures if written then
              P.Handles(k, app, l, f).delivered == l.delivered + Asked(p.nextTsn, e)
            else
              Asked(p.nextTsn, e) == []
  {
    hide P.Handles, H.CommandFrame, H.RequestData, IsFrame, H.Handles, EmptyFrame;
    match e {
      case Command(cmdId, payload) =>
        f := AskedOnce(k, app, p, l, cmdId, payload);
        written := true;
      case Arrival(g) =>
        written, f := ArrivalWrites(k, app, p, g, l);
        assert l.delivered + [] == l.delivered;
      case Timer(_) =>
        written, f := false, [];
    }
  }

  lemma ArrivalWrites(k: Checksums, app: P.App, p: H.Page, f: seq<byte>, l: P.Link)
    returns (written: bool, g: seq<byte>)
    requires H.WellFormed(p) && P.WellFormed(l) && HEADER_SIZE <= |f|
    ensures var q := H.Handles(k, p, f);
            && q.nextTsn == p.nextTsn && q.written == if written then p.written + [g] else p.written
    ensures written ==> IsFrame(k, g) && |g| == HEADER_SIZE && P.Handles(k, app, l, g) == l
  {
    hide Flags, IsFrame, EmptyFrame, PayloadOk, U16;
    written, g := !IsNack(f) && 9 <= |f|, [];
    if written {
      var flags := Flags(true, false, 0, PacketSeq(f));
      EmptyFrameIsFrame(k, flags);
      P.EmptyFrameSize(k, flags);
      g := EmptyFrame(k, flags);
    }
  }

  /** Frames that fit into the receive buffer and bring these payloads to the application. */
  ghost predicate Brings(k: Checksums, app: P.App, l: P.Link, frames: seq<seq<byte>>, at: nat, data: seq<seq<byte>>)
    requires P.WellFormed(l)
  {
    && (forall i: nat | i < |frames| :: IsFrame(k, frames[i]) && HEADER_SIZE <= |frames[i]| <= RX_BUFFER_SIZE)
    && P.HandlesAll(k, app, l, Laid(frames, at)).delivered == l.delivered + data
  }

  lemma BringsMore(k: Checksums, app: P.App, l: P.Link, f: seq<byte>, more: seq<seq<byte>>, at: nat,
                   data: seq<seq<byte>>, rest: seq<seq<byte>>)
    requires P.WellFormed(l) && IsFrame(k, f) && HEADER_SIZE <= |f| <= RX_BUFFER_SIZE
    requires P.Handles(k, app, l, f).delivered == l.delivered + data
    requires Brings(k, app, P.Handles(k, app, l, f), more, at + |f|, rest)
    ensures Brings(k, app, l, [f] + more, at, data + rest)
  {
    hide P.Handles, P.WellFormed, IsFrame, P.HandlesAll, Laid;
    LaidFirst(k, app, l, f, more, at);
    assert l.delivered + data + rest == l.delivered + (data + rest);
  }

  /** The frames the page writes in a run, and what handling them one after the other delivers. */
  lemma {:induction false} RunIsDelivered(k: Checksums, app: P.App, p: H.Page, events: seq<H.Event>, q: H.Page,
                                          l: P.Link, at: nat)
    returns (frames: seq<seq<byte>>)
    requires H.WellFormed(p) && P.WellFormed(l) && H.Run(k, p, events, q) && AllFitting(events)
    ensures q.written == p.written + frames
    ensures Brings(k, app, l, frames, at, Wanted(p.nextTsn, events))
    decreases |events|
  {
    hide P.Handles, P.WellFormed, H.Step, H.Possible, IsFrame, AllFitting, FittingEvent, P.HandlesAll, Wanted, Asked,
      NextTsn, Brings;
    if events == [] {
      frames := [];
      NoneLaid(k, app, l, at);
    } else {
      WantedStep(p.nextTsn, events);
      var next := H.Step(k, p, events[0]);
      var written, f := WritesOne(k, app, p, events[0], l);
      if written {
        var more := RunIsDelivered(k, app, next, events[1..], q, P.Handles(k, app, l, f), at + |f|);
        frames := [f] + more;
        BringsMore(k, app, l, f, more, at, Asked(p.nextTsn, events[0]), Wanted(next.nextTsn, events[1..]));
        assert p.written + [f] + more == p.written + frames;
      } else {
        frames := RunIsDelivered(k, app, next, events[1..], q, l, at);
        var rest := Wanted(next.nextTsn, events[1..]);
        assert [] + rest == rest;
      }
    }
  }

  lemma NoneLaid(k: Checksums, app: P.App, l: P.Link, at: nat)
    requires P.WellFormed(l)
    ensures Brings(k, app, l, [], at, [])
  {
  }

  lemma AskedOnce(k: Checksums, app: P.App, p: H.Page, l: P.Link, cmdId: nat, payload: seq<byte>)
    returns (f: seq<byte>)
    requires H.WellFormed(p) && P.WellFormed(l) && Fitting(cmdId, payload)
    ensures var q := H.Commands(k, p, cmdId, payload);
            q.written == p.written + [f] && q.nextTsn == (p.nextTsn + 1) % 0x100
    ensures IsFrame(k, f) && HEADER_SIZE <= |f| <= RX_BUFFER_SIZE
    ensures P.Handles(k, app, l, f).delivered == l.delivered + [H.RequestData(p.nextTsn, cmdId, payload)]
    ensures H.IsRequest(H.RequestData(p.nextTsn, cmdId, payload), p.nextTsn, cmdId, payload)
  {
    hide P.Handles, H.CommandFrame, H.RequestData, IsFrame, Plain, Payload, H.IsRequest;
    f := CommandIsPlain(k, p, cmdId, payload);
    PlainFrame(k, f);
    PlainIsDelivered(k, app, l, f);
  }

  lemma PlainFrame(k: Checksums, f: seq<byte>)
    requires Plain(k, f)
    ensures IsFrame(k, f)
  {
  }

  /** Whatever the page asks, answers with ACKs or gives up, in whatever chunks its bytes reach the firmware: as long
      as no live byte is evicted the application gets exactly the requests, each once, in order. */
  lemma AskedArrives(k: Checksums, app: P.App, l: P.Link, events: seq<H.Event>, q: H.Page, chunks: seq<seq<byte>>,
                     m: P.Link)
    requires H.Run(k, H.CONNECTED, events, q) && AllFitting(events)
    requires P.WellFormed(l) && P.Gets(k, app, l, Concat(q.written), chunks, m)
    ensures m.delivered == l.delivered + Wanted(1, events)
    ensures l.delivered <= m.delivered && Requests(1, events, m.delivered[|l.delivered|..])
  {
    hide Wanted, Requests, P.Gets, P.HandlesAll, Scan, IsFrame, H.Run, Concat;
    var frames := RunIsDelivered(k, app, H.CONNECTED, events, q, l, 0);
    assert H.CONNECTED.written + frames == frames;
    BackToBack(k, Ncp, frames, 0);
    P.GetsHandles(k, app, l, Concat(q.written), chunks, m);
    WantedAreRequests(1, events);
    assert (l.delivered + Wanted(1, events))[|l.delivered|..] == Wanted(1, events);
  }

  /** A request behind any line noise in which no position passes the signature and header test: however noise and
      frame are cut into chunks, the application gets the request, exactly, and nothing else. */
  lemma ArrivesBehindGarbage(k: Checksums, app: P.App, l: P.Link, p: H.Page, cmdId: nat, payload: seq<byte>,
                             noise: seq<byte>, f: seq<byte>, chunks: seq<seq<byte>>, m: P.Link)
    requires P.WellFormed(l) && H.WellFormed(p) && Fitting(cmdId, payload)
    requires H.Commands(k, p, cmdId, payload).written == p.written + [f]
    requires forall q: nat | q < |noise| :: !HeaderAt(k, noise + (f + []), q)
    requires P.Gets(k, app, l, noise + f, chunks, m)
    ensures m.delivered == l.delivered + [H.RequestData(p.nextTsn, cmdId, payload)]
    ensures H.IsRequest(m.delivered[|l.delivered|], p.nextTsn, cmdId, payload)
  {
    hide *;
    var g := AskedOnce(k, app, p, l, cmdId, payload);
    assert g == f by {
      assert (p.written + [g])[|p.written|] == g && (p.written + [f])[|p.written|] == f;
    }
    OneFrameCut(k, noise, f);
    P.GetsHandles(k, app, l, noise + f, chunks, m);
    P.OneHandled(k, app, l, Cut(|noise|, f));
  }

  lemma OneFrameCut(k: Checksums, noise: seq<byte>, f: seq<byte>)
    requires IsFrame(k, f) && forall q: nat | q < |noise| :: !HeaderAt(k, noise + (f + []), q)
    ensures Scan(k, Ncp, noise + f, 0).cuts == [Cut(|noise|, f)]
  {
    hide Scan, IsFrame, HeaderAt, Start;
    Resynchronises(k, Ncp, noise, f, [], 0);
    BackToBack(k, Ncp, [], |noise| + |f|);
    assert f + [] == f;
  }

  /** A frame of length 7 is complete, although it carries no data: the application gets an empty payload. */
  lemma EmptyPayloadIsDispatched(k: Checksums, app: P.App, l: P.Link, seqNo: nat, ackSeq: nat)
    requires P.WellFormed(l) && seqNo < 4 && ackSeq < 4
    ensures var f := DataFrame(k, Flags(false, false, seqNo, ackSeq), []);
            && IsFrame(k, f) && |f| == 9 && LengthField(f) == 7
            && P.Handles(k, app, l, f).delivered == l.delivered + [[]]
  {
    hide Flags, DataFrame, IsFrame, PayloadOk, Payload, P.Handles;
    var flags := Flags(false, false, seqNo, ackSeq);
    var f := DataFrame(k, flags, []);
    DataFrameIsFrame(k, flags, []);
    FlagsReadBack(f, false, false, seqNo, ackSeq);
    PlainIsDelivered(k, app, l, f);
    ShortestLength(k, flags);
  }

  lemma ShortestLength(k: Checksums, flags: byte)
    ensures LengthField(DataFrame(k, flags, [])) == 7
  {
  }

  // ---- One request and its answer ---------------------------------------------------------------

  /** `r` answers request `tsn` of command `cmdId`. */
  predicate Answers(r: seq<byte>, tsn: nat, cmdId: nat) {
    5 <= |r| && P.Sendable(r) && U16(r, 2) == cmdId && r[4] == tsn
  }

  /** `r` repeats the command and the tsn that stand in `d`. */
  predicate Echoes(d: seq<byte>, r: seq<byte>) {
    5 <= |d| && 5 <= |r| && P.Sendable(r) && r[2] == d[2] && r[3] == d[3] && r[4] == d[4]
  }

  /** To this request the application gives one answer, with the command and the tsn it reads in it. */
  ghost predicate AnswersWhatItReads(app: P.App, l: P.Link, tsn: nat, cmdId: nat, payload: seq<byte>) {
    forall d: seq<byte> | H.IsRequest(d, tsn, cmdId, payload) ::
      var replies := app(l.delivered + [d]); |replies| == 1 && Echoes(d, replies[0])
  }

  lemma EchoAnswers(d: seq<byte>, r: seq<byte>, tsn: nat, cmdId: nat, payload: seq<byte>)
    requires H.IsRequest(d, tsn, cmdId, payload) && Echoes(d, r)
    ensures Answers(r, tsn, cmdId) && P.Sendable(r) && 5 <= |r| <= P.TX_BUFFER_SIZE
  {
  }

  lemma ReplyIsUnflagged(k: Checksums, seqNo: nat, r: seq<byte>)
    requires seqNo < 4 && P.Sendable(r)
    ensures var f := DataFrame(k, Flags(false, false, seqNo, 0), r);
            9 <= |f| && IsFrame(k, f) && !IsNack(f) && PayloadOk(k, f) && Payload(f) == r
  {
    hide Flags, DataFrame, IsFrame, PayloadOk, Payload, IsNack;
    var flags := Flags(false, false, seqNo, 0);
    DataFrameIsFrame(k, flags, r);
    FlagsReadBack(DataFrame(k, flags, r), false, false, seqNo, 0);
  }

  lemma OneReply(k: Checksums, l: P.Link, r: seq<byte>)
    requires P.WellFormed(l)
    ensures P.SendsAll(k, l, [r]) == P.SendsData(k, l, r)
  {
    hide P.SendsData;
    assert [r][1..] == [];
  }

  lemma FirmwareAnswers(k: Checksums, app: P.App, l: P.Link, f: seq<byte>, r: seq<byte>)
    requires P.WellFormed(l) && Plain(k, f) && P.Sendable(r)
    requires app(l.delivered + [Payload(f)]) == [r]
    ensures var ack := EmptyFrame(k, Flags(true, false, l.txSeq, PacketSeq(f)));
            var reply := DataFrame(k, Flags(false, false, P.NextSeq(l.txSeq), 0), r);
            P.Handles(k, app, l, f).sent == l.sent + [ack, reply]
  {
    hide Flags, IsFrame, PayloadOk, Payload, DataFrame, EmptyFrame, IsAck, IsNack, PacketType, PacketSeq;
    var ack := EmptyFrame(k, Flags(true, false, l.txSeq, PacketSeq(f)));
    var reply := DataFrame(k, Flags(false, false, P.NextSeq(l.txSeq), 0), r);
    var acked := P.Acks(k, l, f, false);
    var m := acked.(lastRxSeq := PacketSeq(f), lastRxSeqValid := true, delivered := l.delivered + [Payload(f)]);
    OneReply(k, m, r);
    assert P.Handles(k, app, l, f) == P.SendsAll(k, m, [r]);
    assert (l.sent + [ack]) + [reply] == l.sent + [ack, reply];
  }

  lemma PageTakesAnswer(k: Checksums, p: H.Page, ack: seq<byte>, reply: seq<byte>, tsn: nat)
    requires H.WellFormed(p) && |ack| == HEADER_SIZE
    requires 9 <= |reply| && !IsNack(reply) && PayloadOk(k, reply)
    requires tsn in p.pending && Answers(Payload(reply), tsn, p.pending[tsn].cmdId)
    ensures var q := H.Handles(k, H.Handles(k, p, ack), reply);
            && q.settled == p.settled + [H.Answer(p.pending[tsn], Payload(reply))]
            && q.pending == p.pending - {tsn}
  {
    hide Flags, PayloadOk, Payload, EmptyFrame, U16, IsNack, P.Sendable;
  }

  /** From any states of the two sides: the application is handed the request; the answer in which it repeats the
      command and the tsn it reads there comes back to the promise made for the request, and to no other. */
  lemma RoundTrip(k: Checksums, app: P.App, l: P.Link, p: H.Page, cmdId: nat, payload: seq<byte>)
    returns (f: seq<byte>, ack: seq<byte>, reply: seq<byte>, d: seq<byte>, r: seq<byte>)
    requires P.WellFormed(l) && H.WellFormed(p) && cmdId < 0x1_0000 && |payload| + 12 < 0x1_0000
    requires AnswersWhatItReads(app, l, p.nextTsn, cmdId, payload)
    ensures HEADER_SIZE <= |f| && HEADER_SIZE <= |ack| && HEADER_SIZE <= |reply|
    ensures IsFrame(k, f) && IsFrame(k, ack) && IsFrame(k, reply)
    ensures H.IsRequest(d, p.nextTsn, cmdId, payload) && app(l.delivered + [d]) == [r]
    ensures H.Commands(k, p, cmdId, payload).written == p.written + [f]
    ensures P.Handles(k, app, l, f).delivered == l.delivered + [d]
    ensures P.Handles(k, app, l, f).sent == l.sent + [ack, reply]
    ensures var q := H.Handles(k, H.Handles(k, H.Commands(k, p, cmdId, payload), ack), reply);
            && q.settled == p.settled + [H.Answer(H.Request(|p.issued|, p.nextTsn, cmdId), r)]
            && q.pending == p.pending - {p.nextTsn}
  {
    hide Flags, IsFrame, PayloadOk, Payload, DataFrame, EmptyFrame, H.CommandFrame, H.RequestData, U16, IsNack,
      H.Handles, P.Handles, Plain, Answers, Echoes, P.Sendable, H.IsRequest;
    var asked := H.Commands(k, p, cmdId, payload);
    f := CommandIsPlain(k, p, cmdId, payload);
    d := Payload(f);
    var replies := app(l.delivered + [d]);
    assert |replies| == 1 && Echoes(d, replies[0]);
    r := replies[0];
    assert replies == [r];
    EchoAnswers(d, r, p.nextTsn, cmdId, payload);
    ack := EmptyFrame(k, Flags(true, false, l.txSeq, PacketSeq(f)));
    reply := DataFrame(k, Flags(false, false, P.NextSeq(l.txSeq), 0), r);
    P.EmptyFrameSize(k, Flags(true, false, l.txSeq, PacketSeq(f)));
    EmptyFrameIsFrame(k, Flags(true, false, l.txSeq, PacketSeq(f)));
    PlainFrame(k, f);
    PlainIsDelivered(k, app, l, f);
    ReplyIsUnflagged(k, P.NextSeq(l.txSeq), r);
    FirmwareAnswers(k, app, l, f, r);
    PageTakesAnswer(k, asked, ack, reply, p.nextTsn);
    assert asked.pending - {p.nextTsn} == p.pending - {p.nextTsn};
  }

  lemma LaidTwo(a: seq<byte>, b: seq<byte>)
    ensures Laid([a, b], 0) == [Cut(0, a), Cut(|a|, b)]
  {
    assert [a, b][1..] == [b] && [b][1..] == [];
    assert Laid([b], |a|) == [Cut(|a|, b)];
  }

  lemma NoneHandled(k: Checksums, p: H.Page)
    requires H.WellFormed(p)
    ensures H.HandlesAll(k, p, []) == p
  {
  }

  lemma TwoHandled(k: Checksums, p: H.Page, a: seq<byte>, b: seq<byte>)
    requires H.WellFormed(p) && HEADER_SIZE <= |a| && HEADER_SIZE <= |b|
    ensures var cuts := Laid([a, b], 0);
            && |cuts| == 2 && cuts[0].frame == a && cuts[1].frame == b
            && H.HandlesAll(k, p, cuts) == H.Handles(k, H.Handles(k, p, a), b)
  {
    hide H.Handles, H.WellFormed, Laid;
    LaidTwo(a, b);
    H.HandlesFirst(k, p, Cut(0, a), [Cut(|a|, b)]);
    H.HandlesFirst(k, H.Handles(k, p, a), Cut(|a|, b), []);
    assert [Cut(0, a)] + [Cut(|a|, b)] == [Cut(0, a), Cut(|a|, b)];
    assert [Cut(|a|, b)] + [] == [Cut(|a|, b)];
    NoneHandled(k, H.Handles(k, H.Handles(k, p, a), b));
  }

  lemma TwoArrive(k: Checksums, p: H.Page, a: seq<byte>, b: seq<byte>, chunks: seq<seq<byte>>)
    requires H.WellFormed(p) && IsFrame(k, a) && IsFrame(k, b) && HEADER_SIZE <= |a| && HEADER_SIZE <= |b|
    requires Concat(chunks) == a + b
    ensures var cuts := FeedAll(k, Host, FRESH, chunks).cuts;
            && (forall i: nat | i < |cuts| :: HEADER_SIZE <= |cuts[i].frame|)
            && H.HandlesAll(k, p, cuts) == H.Handles(k, H.Handles(k, p, a), b)
  {
    PageIsLossless(k, FRESH, chunks);
    hide *;
    ConcatOfTwo(a, b);
    BackToBack(k, Host, [a, b], 0);
    ChunkedIsWhole(k, Host, chunks);
    TwoHandled(k, p, a, b);
    assert FeedAll(k, Host, FRESH, chunks).cuts == Laid([a, b], 0);
  }

  lemma ConcatOfTwo(a: seq<byte>, b: seq<byte>)
    ensures Concat([a, b]) == a + b
  {
    assert [a, b][1..] == [b] && [b][1..] == [];
    assert Concat([b]) == b + [] == b;
  }

  /** The page gets the frames in these chunks, and is then in state `q`. */
  predicate Takes(k: Checksums, p: H.Page, frames: seq<seq<byte>>, chunks: seq<seq<byte>>, q: H.Page)
    requires H.WellFormed(p)
  {
    var cuts := FeedAll(k, Host, FRESH, chunks).cuts;
    && Concat(chunks) == Concat(frames)
    && (forall i: nat | i < |cuts| :: HEADER_SIZE <= |cuts[i].frame|) && q == H.HandlesAll(k, p, cuts)
  }

  /** The same over the wire: the request in any chunks that fit, ACK and answer back in any chunks at all. */
  lemma RoundTripInChunks(k: Checksums, app: P.App, l: P.Link, p: H.Page, cmdId: nat, payload: seq<byte>,
                          f: seq<byte>, there: seq<seq<byte>>, m: P.Link, back: seq<seq<byte>>, q: H.Page)
    returns (d: seq<byte>, r: seq<byte>)
    requires P.WellFormed(l) && H.WellFormed(p) && cmdId < 0x1_0000 && |payload| + 12 < 0x1_0000
    requires AnswersWhatItReads(app, l, p.nextTsn, cmdId, payload)
    requires H.Commands(k, p, cmdId, payload).written == p.written + [f]
    requires P.Gets(k, app, l, f, there, m) && |l.sent| <= |m.sent|
    requires Takes(k, H.Commands(k, p, cmdId, payload), m.sent[|l.sent|..], back, q)
    ensures H.IsRequest(d, p.nextTsn, cmdId, payload) && app(l.delivered + [d]) == [r]
    ensures m.delivered == l.delivered + [d]
    ensures q.settled == p.settled + [H.Answer(H.Request(|p.issued|, p.nextTsn, cmdId), r)]
    ensures q.pending == p.pending - {p.nextTsn}
  {
    hide P.Gets, P.Handles, P.HandlesAll, H.Handles, H.HandlesAll, H.Commands, H.RequestData, FeedAll, Scan, IsFrame,
      HeaderAt, Answers, Concat, H.IsRequest, AnswersWhatItReads;
    var g, ack, reply;
    g, ack, reply, d, r := RoundTrip(k, app, l, p, cmdId, payload);
    assert g == f by {
      assert (p.written + [g])[|p.written|] == g && (p.written + [f])[|p.written|] == f;
    }
    assert [] + f == f && f + [] == f;
    OneFrameCut(k, [], f);
    P.GetsHandles(k, app, l, f, there, m);
    P.OneHandled(k, app, l, Cut(0, f));
    assert (l.sent + [ack, reply])[|l.sent|..] == [ack, reply];
    ConcatOfTwo(ack, reply);
    TwoArrive(k, H.Commands(k, p, cmdId, payload), ack, reply, back);
  }
}
