/** The serial link of the web page, class ZbossSerial of html/zboss_backup.js, and the two sides of the link
    put together. */
module HostLink {
  import opened Bytes
  import opened Framing
  import opened Reassembly
  import Protocol

  // ---- The page's side as a value ---------------------------------------------------------------

  /** One call of sendCommand; `promise` numbers the calls. */
  datatype Request = Request(promise: nat, tsn: nat, cmdId: nat)

  /** How the promise of a request ended: with the body of a response, payload[5..], or by its timer. */
  datatype Settlement = Answer(request: Request, payload: seq<byte>) | Timeout(request: Request)

  /** `pending` is pendingRequests; `issued` the calls of sendCommand so far, `settled` the promises settled so
      far, `written` the frames handed to the serial port. */
  datatype Page = Page(seqNo: nat, recvSeq: nat, nextTsn: nat, pending: map<nat, Request>,
                       issued: seq<Request>, settled: seq<Settlement>, written: seq<seq<byte>>)

  const CONNECTED := Page(0, 0, 1, map[], [], [], [])

  predicate WellFormed(p: Page) {
    p.seqNo < 4 && p.recvSeq < 4 && p.nextTsn < 0x100
  }

  function RequestData(tsn: nat, cmdId: nat, payload: seq<byte>): (d: seq<byte>)
    requires tsn < 0x100 && cmdId < 0x1_0000
    ensures |d| == 5 + |payload|
  {
    [0, 0] + Le16(cmdId) + [tsn] + payload
  }

  /** Read byte by byte: version 0, type 0 for a request, command, tsn, payload. */
  predicate IsRequest(d: seq<byte>, tsn: nat, cmdId: nat, payload: seq<byte>) {
    && 5 <= |d| && d[0] == 0 && d[1] == 0 && (d[2] as nat) + 0x100 * (d[3] as nat) == cmdId && d[4] == tsn
    && d[5..] == payload
  }

  /** A request is laid out in this way, and in no other. */
  lemma RequestReadBack(tsn: nat, cmdId: nat, payload: seq<byte>, d: seq<byte>)
    requires tsn < 0x100 && cmdId < 0x1_0000
    ensures d == RequestData(tsn, cmdId, payload) <==> IsRequest(d, tsn, cmdId, payload)
  {
    var r := RequestData(tsn, cmdId, payload);
    assert r[5..] == payload;
    if IsRequest(d, tsn, cmdId, payload) {
      assert |d| == |r|;
      assert forall i: nat | 5 <= i < |d| :: d[i] == d[5..][i - 5] && r[i] == r[5..][i - 5];
      assert forall i: nat | i < |d| :: d[i] == r[i];
    }
  }

  /** The frame sendCommand lays out; a length above 16 bits is truncated, not refused. */
  function CommandFrame(k: Checksums, flags: byte, data: seq<byte>): seq<byte> {
    Header(k, (|data| + 7) % 0x1_0000, flags) + Le16(k.payload(data)) + data
  }

  function Commands(k: Checksums, p: Page, cmdId: nat, payload: seq<byte>): (q: Page)
    requires WellFormed(p) && cmdId < 0x1_0000
    ensures WellFormed(q)
  {
    var request := Request(|p.issued|, p.nextTsn, cmdId);
    var frame := CommandFrame(k, Flags(false, false, p.seqNo, p.recvSeq), RequestData(p.nextTsn, cmdId, payload));
    p.(seqNo := (p.seqNo + 1) % 4,
       nextTsn := (p.nextTsn + 1) % 0x100,
       issued := p.issued + [request],
       pending := p.pending[p.nextTsn := request],
       written := p.written + [frame])
  }

  /** The timer of a request: it clears the slot of its tsn, whoever holds that by now. */
  function TimesOut(p: Page, r: Request): (q: Page)
    requires WellFormed(p)
    ensures WellFormed(q)
  {
    p.(pending := p.pending - {r.tsn}, settled := p.settled + [Timeout(r)])
  }

  /** What the page does with one frame. A NACK is only logged; a frame with data is acknowledged before its
      CRC is looked at; a response settles the request of its tsn only if the command matches too. */
  function Handles(k: Checksums, p: Page, f: seq<byte>): (q: Page)
    requires WellFormed(p) && HEADER_SIZE <= |f|
    ensures WellFormed(q)
  {
    var seen := p.(recvSeq := PacketSeq(f));
    if IsNack(f) || |f| < 9 then
      seen
    else
      var acked := seen.(written := seen.written + [EmptyFrame(k, Flags(true, false, 0, PacketSeq(f)))]);
      var payload := Payload(f);
      if !PayloadOk(k, f) || |payload| < 5 then
        acked
      else
        var tsn := payload[4];
        if tsn in p.pending && p.pending[tsn].cmdId == U16(payload, 2) then
          acked.(pending := p.pending - {tsn}, settled := p.settled + [Answer(p.pending[tsn], payload)])
        else
          acked
  }

  function HandlesAll(k: Checksums, p: Page, cuts: seq<Cut>): (q: Page)
    requires WellFormed(p) && forall i: nat | i < |cuts| :: HEADER_SIZE <= |cuts[i].frame|
    ensures WellFormed(q)
    decreases |cuts|
  {
    if cuts == [] then p else HandlesAll(k, Handles(k, p, cuts[0].frame), cuts[1..])
  }

  // ---- What the page writes ---------------------------------------------------------------------

  /** A call writes these bytes. */
  lemma CommandOnWire(k: Checksums, p: Page, cmdId: nat, payload: seq<byte>)
    requires WellFormed(p) && cmdId < 0x1_0000 && |payload| + 12 < 0x1_0000
    ensures var d := [0, 0, cmdId % 0x100, cmdId / 0x100, p.nextTsn] + payload;
            Commands(k, p, cmdId, payload).written == p.written + [WireData(k, p.seqNo, p.recvSeq, d)]
  {
    hide Flags, WireData, Header;
    var d := [0, 0, cmdId % 0x100, cmdId / 0x100, p.nextTsn] + payload;
    assert d == RequestData(p.nextTsn, cmdId, payload);
    FramesOnWire(k, false, p.seqNo, p.recvSeq, d);
  }

  /** A frame with data that is no NACK is acknowledged, before its checksum is looked at; nothing else is. */
  lemma AckOnWire(k: Checksums, p: Page, f: seq<byte>)
    requires WellFormed(p) && HEADER_SIZE <= |f|
    ensures Handles(k, p, f).written
         == if 9 <= |f| && f[5] / 2 % 2 == 0 then p.written + [WireAck(k, false, 0, f[5] / 4 % 4)] else p.written
    ensures Handles(k, p, f).recvSeq == f[5] / 4 % 4
  {
    hide EmptyFrame, Flags, WireAck, PayloadOk, U16;
    FramesOnWire(k, false, 0, PacketSeq(f), []);
  }

  /** The header of a frame the page writes. */
  predicate WellWritten(k: Checksums, f: seq<byte>) {
    && HEADER_SIZE <= |f| && f[0] == 0xde && f[1] == 0xad && PacketType(f) == ZBOSS_NCP_API_HL
    && HeaderOk(k, f) && Unfragmented(f)
  }

  lemma BuiltIsWellWritten(k: Checksums, length: word, isAck: bool, seqNo: nat, ackSeq: nat, tail: seq<byte>)
    requires seqNo < 4 && ackSeq < 4
    ensures WellWritten(k, Header(k, length, Flags(isAck, false, seqNo, ackSeq)) + tail)
  {
    hide Header, HeaderOk, Flags;
    var flags := Flags(isAck, false, seqNo, ackSeq);
    HeaderReadBack(k, length, flags, tail);
    FlagsReadBack(Header(k, length, flags) + tail, isAck, false, seqNo, ackSeq);
  }

  // ---- Promises ---------------------------------------------------------------------------------

  predicate Open(p: Page, promise: nat) {
    forall i: nat | i < |p.settled| :: p.settled[i].request.promise != promise
  }

  predicate Issued(p: Page, r: Request) {
    r.promise < |p.issued| && p.issued[r.promise] == r
  }

  /** An answer carries the sequence number and the command of the request it settles. */
  predicate Addressed(s: Settlement) {
    s.Answer? ==> 5 <= |s.payload| && s.payload[4] == s.request.tsn && U16(s.payload, 2) == s.request.cmdId
  }

  /** Every slot holds an issued, unsettled request under its own tsn, no promise is settled twice, and every answer
      is addressed to the request it settles. */
  ghost predicate Settling(p: Page) {
    && WellFormed(p)
    && (forall t | t in p.pending ::
          Issued(p, p.pending[t]) && p.pending[t].tsn == t && Open(p, p.pending[t].promise))
    && (forall i: nat | i < |p.settled| :: Issued(p, p.settled[i].request) && Addressed(p.settled[i]))
    && (forall i: nat, j: nat | i < j < |p.settled| :: p.settled[i].request.promise != p.settled[j].request.promise)
  }

  lemma CommandsKeepsSettling(k: Checksums, p: Page, cmdId: nat, payload: seq<byte>)
    requires Settling(p) && cmdId < 0x1_0000
    ensures Settling(Commands(k, p, cmdId, payload))
  {
    hide CommandFrame, Flags;
    var q := Commands(k, p, cmdId, payload);
    assert forall r | Issued(p, r) :: Issued(q, r);
    assert Issued(q, Request(|p.issued|, p.nextTsn, cmdId));
    forall t | t in q.pending
      ensures Issued(q, q.pending[t]) && q.pending[t].tsn == t && Open(q, q.pending[t].promise)
    {
      if t != p.nextTsn {
        assert t in p.pending && q.pending[t] == p.pending[t];
      } else {
        assert forall i: nat | i < |p.settled| :: Issued(p, p.settled[i].request);
      }
    }
  }

  /** Settling an issued open request keeps the invariant, provided no slot still holds it. */
  lemma OneMoreSettled(p: Page, q: Page, s: Settlement, tsn: nat)
    requires Settling(p) && WellFormed(q)
    requires q.issued == p.issued && q.settled == p.settled + [s] && q.pending == p.pending - {tsn}
    requires Issued(p, s.request) && Open(p, s.request.promise) && s.request.tsn == tsn && Addressed(s)
    ensures Settling(q)
  {
    forall t | t in q.pending
      ensures Issued(q, q.pending[t]) && q.pending[t].tsn == t && Open(q, q.pending[t].promise)
    {
      assert t in p.pending && t != tsn;
      assert Open(p, p.pending[t].promise) && Issued(p, p.pending[t]);
    }
  }

  lemma HandlesKeepsSettling(k: Checksums, p: Page, f: seq<byte>)
    requires Settling(p) && HEADER_SIZE <= |f|
    ensures Settling(Handles(k, p, f))
  {
    hide EmptyFrame, Flags, PayloadOk, U16;
    var q := Handles(k, p, f);
    if |q.settled| == |p.settled| {
      assert q.issued == p.issued && q.settled == p.settled && q.pending == p.pending;
      assert forall n: nat :: Open(q, n) == Open(p, n);
      assert forall r :: Issued(q, r) == Issued(p, r);
    } else {
      var tsn := Payload(f)[4];
      OneMoreSettled(p, q, Answer(p.pending[tsn], Payload(f)), tsn);
    }
  }

  /** What can happen to the page between two chunks and inside one. */
  datatype Event = Command(cmdId: nat, payload: seq<byte>) | Arrival(frame: seq<byte>) | Timer(request: Request)

  ghost predicate Possible(p: Page, e: Event) {
    match e
    case Command(cmdId, _) => cmdId < 0x1_0000
    case Arrival(f) => HEADER_SIZE <= |f|
    case Timer(r) => Issued(p, r) && Open(p, r.promise)
  }

  function Step(k: Checksums, p: Page, e: Event): (q: Page)
    requires WellFormed(p) && Possible(p, e)
    ensures WellFormed(q)
  {
    match e
    case Command(cmdId, payload) => Commands(k, p, cmdId, payload)
    case Arrival(f) => Handles(k, p, f)
    case Timer(r) => TimesOut(p, r)
  }

  ghost predicate Run(k: Checksums, p: Page, events: seq<Event>, q: Page)
    decreases |events|
  {
    if events == [] then
      p == q
    else
      WellFormed(p) && Possible(p, events[0]) && Run(k, Step(k, p, events[0]), events[1..], q)
  }

  /** In every run, whatever frames arrive and whatever timers fire: a promise is settled at most once, and an
      answer goes to the request that was issued with the tsn and the command in its payload. */
  lemma {:induction false} PromisesSettleOnce(k: Checksums, p: Page, events: seq<Event>, q: Page)
    requires Settling(p) && Run(k, p, events, q)
    ensures Settling(q)
    decreases |events|
  {
    hide Handles, Commands, Settling;
    if events != [] {
      match events[0] {
        case Command(cmdId, payload) => CommandsKeepsSettling(k, p, cmdId, payload);
        case Arrival(f) => HandlesKeepsSettling(k, p, f);
        case Timer(r) => OneMoreSettled(p, TimesOut(p, r), Timeout(r), r.tsn);
      }
      PromisesSettleOnce(k, Step(k, p, events[0]), events[1..], q);
    }
  }

  lemma StepWellWritten(k: Checksums, p: Page, e: Event)
    requires WellFormed(p) && Possible(p, e) && forall f | f in p.written :: WellWritten(k, f)
    ensures forall f | f in Step(k, p, e).written :: WellWritten(k, f)
  {
    hide WellWritten, Header, Flags, PayloadOk, U16;
    match e {
      case Command(cmdId, payload) =>
        var d := RequestData(p.nextTsn, cmdId, payload);
        var header := Header(k, (|d| + 7) % 0x1_0000, Flags(false, false, p.seqNo, p.recvSeq));
        BuiltIsWellWritten(k, (|d| + 7) % 0x1_0000, false, p.seqNo, p.recvSeq, Le16(k.payload(d)) + d);
        assert header + Le16(k.payload(d)) + d == header + (Le16(k.payload(d)) + d);
      case Arrival(f) =>
        BuiltIsWellWritten(k, 5, true, 0, PacketSeq(f), []);
        assert EmptyFrame(k, Flags(true, false, 0, PacketSeq(f))) + []
            == EmptyFrame(k, Flags(true, false, 0, PacketSeq(f)));
      case Timer(_) =>
    }
  }

  /** The counters count the calls: the n-th call since the connection gets tsn 1 + n modulo 256 and packet_seq n
      modulo 4. */
  ghost predicate Counted(p: Page) {
    && WellFormed(p) && p.seqNo == |p.issued| % 4 && p.nextTsn == (1 + |p.issued|) % 256
    && forall n: nat | n < |p.issued| :: p.issued[n].promise == n && p.issued[n].tsn == (1 + n) % 256
  }

  lemma StepCounts(k: Checksums, p: Page, e: Event)
    requires WellFormed(p) && Possible(p, e) && Counted(p)
    ensures Counted(Step(k, p, e))
  {
    hide CommandFrame, Flags, Handles, RequestData, WellFormed;
    match e
    case Command(_, _) => CountersCycle(|p.issued|);
    case Arrival(f) => HandlesKeepsCounters(k, p, f);
    case Timer(_) =>
  }

  lemma CountersCycle(n: nat)
    ensures (n % 4 + 1) % 4 == (n + 1) % 4 && ((1 + n) % 256 + 1) % 256 == (1 + (n + 1)) % 256
  {
  }

  lemma HandlesKeepsCounters(k: Checksums, p: Page, f: seq<byte>)
    requires WellFormed(p) && HEADER_SIZE <= |f|
    ensures var q := Handles(k, p, f); q.issued == p.issued && q.seqNo == p.seqNo && q.nextTsn == p.nextTsn
  {
    hide Flags, PayloadOk, U16, EmptyFrame;
  }

  lemma {:induction false} CountedInEveryRun(k: Checksums, p: Page, events: seq<Event>, q: Page)
    requires Run(k, p, events, q) && (Counted(p) || p == CONNECTED)
    ensures Counted(q)
    decreases |events|
  {
    hide Step, Possible;
    if events != [] {
      StepCounts(k, p, events[0]);
      CountedInEveryRun(k, Step(k, p, events[0]), events[1..], q);
    }
  }

  /** In every run: each frame the page writes has a good header and both fragment bits. */
  lemma {:induction false} WrittenInEveryRun(k: Checksums, p: Page, events: seq<Event>, q: Page)
    requires Run(k, p, events, q) && forall f | f in p.written :: WellWritten(k, f)
    ensures forall f | f in q.written :: WellWritten(k, f)
    decreases |events|
  {
    hide Step, Possible, WellWritten;
    if events != [] {
      StepWellWritten(k, p, events[0]);
      WrittenInEveryRun(k, Step(k, p, events[0]), events[1..], q);
    }
  }

  /** A response that settles the request with this tsn and command, if it still has its slot. */
  predicate Matches(k: Checksums, f: seq<byte>, tsn: nat, cmdId: nat) {
    && 9 <= |f| && !IsNack(f) && PayloadOk(k, f)
    && 5 <= |Payload(f)| && Payload(f)[4] == tsn && U16(Payload(f), 2) == cmdId
  }

  lemma HandlesSettles(k: Checksums, p: Page, f: seq<byte>)
    requires WellFormed(p) && HEADER_SIZE <= |f|
    ensures var q := Handles(k, p, f);
            if exists t :: t in p.pending && Matches(k, f, t, p.pending[t].cmdId) then
              var tsn := Payload(f)[4];
              tsn in p.pending && q.settled == p.settled + [Answer(p.pending[tsn], Payload(f))]
              && q.pending == p.pending - {tsn}
            else
              q.settled == p.settled && q.pending == p.pending
  {
    hide EmptyFrame, Flags, PayloadOk, U16, Payload, IsNack;
    if 9 <= |f| && !IsNack(f) && PayloadOk(k, f) && 5 <= |Payload(f)| {
      var tsn := Payload(f)[4];
      assert tsn in p.pending ==>
          (U16(Payload(f), 2) == p.pending[tsn].cmdId <==> Matches(k, f, tsn, p.pending[tsn].cmdId));
    }
  }

  /** Some frame that arrived carries this payload, unharmed. */
  ghost predicate CameIn(k: Checksums, events: seq<Event>, payload: seq<byte>) {
    exists i: nat :: i < |events| && events[i].Arrival? && 9 <= |events[i].frame|
                     && PayloadOk(k, events[i].frame) && Payload(events[i].frame) == payload
  }

  /** Every answer of a run is the payload of a frame that arrived in it with a good CRC. */
  lemma {:induction false} AnswersCameIn(k: Checksums, p: Page, events: seq<Event>, q: Page)
    requires Run(k, p, events, q)
    ensures |p.settled| <= |q.settled| && q.settled[..|p.settled|] == p.settled
    ensures forall i: nat | |p.settled| <= i < |q.settled| && q.settled[i].Answer? ::
              CameIn(k, events, q.settled[i].payload)
    decreases |events|
  {
    hide Handles, Commands, PayloadOk, Payload, Matches;
    if events != [] {
      var next := Step(k, p, events[0]);
      AnswersCameIn(k, next, events[1..], q);
      assert forall j: nat | j < |events[1..]| :: events[1..][j] == events[j + 1];
      OneSettlement(k, p, events[0]);
      assert q.settled[..|p.settled|] == q.settled[..|next.settled|][..|p.settled|];
      forall i: nat | |p.settled| <= i < |q.settled| && q.settled[i].Answer?
        ensures CameIn(k, events, q.settled[i].payload)
      {
        if i < |next.settled| {
          assert q.settled[i] == q.settled[..|next.settled|][i];
          assert events[0].Arrival?;
        } else {
          var j: nat :| j < |events[1..]| && events[1..][j].Arrival? && 9 <= |events[1..][j].frame|
                       && PayloadOk(k, events[1..][j].frame) && Payload(events[1..][j].frame) == q.settled[i].payload;
          assert events[j + 1] == events[1..][j];
        }
      }
    }
  }

  lemma OneSettlement(k: Checksums, p: Page, e: Event)
    requires WellFormed(p) && Possible(p, e)
    ensures var q := Step(k, p, e);
            && |p.settled| <= |q.settled| <= |p.settled| + 1 && q.settled[..|p.settled|] == p.settled
            && (|p.settled| < |q.settled| && q.settled[|p.settled|].Answer? ==>
                  e.Arrival? && 9 <= |e.frame| && PayloadOk(k, e.frame)
                  && Payload(e.frame) == q.settled[|p.settled|].payload)
  {
    hide Handles, EmptyFrame, Flags, PayloadOk, U16, Payload, CommandFrame;
    if e.Arrival? {
      HandlesSettles(k, p, e.frame);
    }
  }

  // ---- Which answers get lost -------------------------------------------------------------------

  /** A run in which no other request takes the slot of `r` and no frame settles it. */
  ghost predicate RunAside(k: Checksums, p: Page, events: seq<Event>, q: Page, r: Request)
    decreases |events|
  {
    if events == [] then
      p == q
    else
      && WellFormed(p) && Possible(p, events[0])
      && (events[0].Command? ==> p.nextTsn != r.tsn)
      && (events[0].Arrival? ==> !Matches(k, events[0].frame, r.tsn, r.cmdId))
      && RunAside(k, Step(k, p, events[0]), events[1..], q, r)
  }

  /** A timer that clears slot `tsn`, its own or an older request's, goes off. */
  predicate Cleared(events: seq<Event>, tsn: nat) {
    exists i: nat :: i < |events| && events[i].Timer? && events[i].request.tsn == tsn
  }

  lemma ClearedLater(events: seq<Event>, tsn: nat)
    requires events != []
    ensures Cleared(events, tsn) <==>
            (events[0].Timer? && events[0].request.tsn == tsn) || Cleared(events[1..], tsn)
  {
    if Cleared(events, tsn) {
      var i: nat :| i < |events| && events[i].Timer? && events[i].request.tsn == tsn;
      assert i > 0 ==> events[1..][i - 1] == events[i];
    }
    if Cleared(events[1..], tsn) {
      var i: nat :| i < |events[1..]| && events[1..][i].Timer? && events[1..][i].request.tsn == tsn;
      assert events[i + 1] == events[1..][i];
    }
  }

  /** The slot of `r` holds `r`, or nothing any more. */
  predicate Slot(p: Page, r: Request, held: bool) {
    if held then r.tsn in p.pending && p.pending[r.tsn] == r else r.tsn !in p.pending
  }

  lemma StepAside(k: Checksums, p: Page, e: Event, r: Request, held: bool)
    requires WellFormed(p) && Possible(p, e) && Slot(p, r, held)
    requires (e.Command? ==> p.nextTsn != r.tsn) && (e.Arrival? ==> !Matches(k, e.frame, r.tsn, r.cmdId))
    ensures Slot(Step(k, p, e), r, held && !(e.Timer? && e.request.tsn == r.tsn))
  {
    hide Handles, EmptyFrame, Flags, PayloadOk, U16, Payload, CommandFrame;
    if e.Arrival? {
      HandlesSettles(k, p, e.frame);
    }
  }

  lemma {:induction false} SlotAside(k: Checksums, p: Page, events: seq<Event>, q: Page, r: Request, held: bool)
    requires RunAside(k, p, events, q, r) && Slot(p, r, held) && WellFormed(p)
    ensures WellFormed(q) && Slot(q, r, held && !Cleared(events, r.tsn))
    decreases |events|
  {
    hide Step, Matches, Slot, Cleared, Possible;
    if events != [] {
      StepAside(k, p, events[0], r, held);
      ClearedLater(events, r.tsn);
      var still := held && !(events[0].Timer? && events[0].request.tsn == r.tsn);
      SlotAside(k, Step(k, p, events[0]), events[1..], q, r, still);
    } else {
      NothingCleared(r.tsn);
    }
  }

  lemma NothingCleared(tsn: nat)
    ensures !Cleared([], tsn)
  {
  }

  /** From a call to the first frame that answers it, as long as its tsn is not used again: the promise is settled by
      that frame if and only if no timer for this tsn has gone off, be it the request's own or that of an older
      request that had the tsn before. */
  lemma AnswerFindsItsRequest(k: Checksums, p: Page, cmdId: nat, payload: seq<byte>, events: seq<Event>, q: Page,
                              f: seq<byte>)
    requires WellFormed(p) && cmdId < 0x1_0000 && Matches(k, f, p.nextTsn, cmdId)
    requires RunAside(k, Commands(k, p, cmdId, payload), events, q, Request(|p.issued|, p.nextTsn, cmdId))
    ensures WellFormed(q) && HEADER_SIZE <= |f|
    ensures var r := Request(|p.issued|, p.nextTsn, cmdId);
            Handles(k, q, f).settled
              == if Cleared(events, r.tsn) then q.settled else q.settled + [Answer(r, Payload(f))]
  {
    hide Handles, Cleared, RunAside, PayloadOk, U16, Payload, CommandFrame, Flags;
    var r := Request(|p.issued|, p.nextTsn, cmdId);
    SlotAside(k, Commands(k, p, cmdId, payload), events, q, r, true);
    HandlesSettles(k, q, f);
  }

  /** No earlier call with the tsn of the next one is still open. */
  ghost predicate TsnFree(p: Page, tsn: nat) {
    forall x | Issued(p, x) && Open(p, x.promise) :: x.tsn != tsn
  }

  /** The caller has awaited every call it made. */
  ghost predicate Awaited(p: Page) {
    forall x | Issued(p, x) :: !Open(p, x.promise)
  }

  /** Of the requests with the tsn of `r` none but `r` is open. */
  ghost predicate Alone(p: Page, r: Request) {
    forall x | Issued(p, x) && Open(p, x.promise) && x.tsn == r.tsn :: x == r
  }

  lemma CalledIsAlone(k: Checksums, p: Page, cmdId: nat, payload: seq<byte>)
    requires WellFormed(p) && cmdId < 0x1_0000 && TsnFree(p, p.nextTsn)
    ensures Alone(Commands(k, p, cmdId, payload), Request(|p.issued|, p.nextTsn, cmdId))
  {
    hide CommandFrame, Flags;
    var q := Commands(k, p, cmdId, payload);
    forall x | Issued(q, x) && Open(q, x.promise) && x.tsn == p.nextTsn
      ensures x == Request(|p.issued|, p.nextTsn, cmdId)
    {
      assert x.promise < |p.issued| ==> Issued(p, x) && Open(p, x.promise);
    }
  }

  lemma StepKeepsAlone(k: Checksums, p: Page, e: Event, r: Request)
    requires WellFormed(p) && Possible(p, e) && Alone(p, r) && (e.Command? ==> p.nextTsn != r.tsn)
    ensures Alone(Step(k, p, e), r)
  {
    hide EmptyFrame, Flags, PayloadOk, U16, CommandFrame;
    var q := Step(k, p, e);
    forall x | Issued(q, x) && Open(q, x.promise) && x.tsn == r.tsn
      ensures x == r
    {
      assert Issued(p, x);
      assert forall i: nat | i < |p.settled| :: p.settled[i] == q.settled[i];
      assert Open(p, x.promise);
    }
  }

  /** Then only the request's own timer clears its slot. */
  lemma {:induction false} OwnTimerOnly(k: Checksums, p: Page, events: seq<Event>, q: Page, r: Request)
    requires RunAside(k, p, events, q, r) && Alone(p, r)
    ensures Cleared(events, r.tsn) <==> Timer(r) in events
    decreases |events|
  {
    hide Step, Matches, Cleared, Alone;
    if events == [] {
      NothingCleared(r.tsn);
    } else {
      StepKeepsAlone(k, p, events[0], r);
      ClearedLater(events, r.tsn);
      AloneTimer(p, events[0], r);
      OwnTimerOnly(k, Step(k, p, events[0]), events[1..], q, r);
    }
  }

  lemma AloneTimer(p: Page, e: Event, r: Request)
    requires Possible(p, e) && Alone(p, r)
    ensures e.Timer? && e.request.tsn == r.tsn <==> e == Timer(r)
  {
  }

  /** When no older call still holds the tsn, the answer settles the request if and only if the request's own timer
      has not gone off. */
  lemma AnswerUnlessTimedOut(k: Checksums, p: Page, cmdId: nat, payload: seq<byte>, events: seq<Event>, q: Page,
                             f: seq<byte>)
    requires WellFormed(p) && cmdId < 0x1_0000 && Matches(k, f, p.nextTsn, cmdId) && TsnFree(p, p.nextTsn)
    requires RunAside(k, Commands(k, p, cmdId, payload), events, q, Request(|p.issued|, p.nextTsn, cmdId))
    ensures WellFormed(q) && HEADER_SIZE <= |f|
    ensures var r := Request(|p.issued|, p.nextTsn, cmdId);
            Handles(k, q, f).settled
              == if Timer(r) in events then q.settled else q.settled + [Answer(r, Payload(f))]
  {
    hide Handles, Commands, Matches, TsnFree, RunAside, Cleared;
    AnswerFindsItsRequest(k, p, cmdId, payload, events, q, f);
    CalledIsAlone(k, p, cmdId, payload);
    OwnTimerOnly(k, Commands(k, p, cmdId, payload), events, q, Request(|p.issued|, p.nextTsn, cmdId));
  }

  /** That is so for the page, which awaits each call before it makes the next one. */
  lemma AwaitedAnswer(k: Checksums, p: Page, cmdId: nat, payload: seq<byte>, events: seq<Event>, q: Page, f: seq<byte>)
    requires WellFormed(p) && cmdId < 0x1_0000 && Matches(k, f, p.nextTsn, cmdId) && Awaited(p)
    requires RunAside(k, Commands(k, p, cmdId, payload), events, q, Request(|p.issued|, p.nextTsn, cmdId))
    ensures WellFormed(q) && HEADER_SIZE <= |f|
    ensures var r := Request(|p.issued|, p.nextTsn, cmdId);
            && (Timer(r) in events ==> Handles(k, q, f).settled == q.settled)
            && (Timer(r) !in events ==> Handles(k, q, f).settled == q.settled + [Answer(r, Payload(f))])
  {
    hide Handles, Commands, Matches, RunAside;
    AnswerUnlessTimedOut(k, p, cmdId, payload, events, q, f);
  }

  function Calls(cmdId: nat, n: nat): (events: seq<Event>)
    ensures |events| == n && forall i: nat | i < n :: events[i] == Command(cmdId, [])
  {
    seq(n, _ => Command(cmdId, []))
  }

  lemma CallsStep(cmdId: nat, n: nat)
    requires 0 < n
    ensures Calls(cmdId, n)[0] == Command(cmdId, []) && Calls(cmdId, n)[1..] == Calls(cmdId, n - 1)
  {
  }

  lemma OneCall(k: Checksums, p: Page, cmdId: nat, n: nat)
    requires WellFormed(p) && cmdId < 0x1_0000 && 0 < n
    ensures var q := Commands(k, p, cmdId, []);
            && WellFormed(q) && q.issued == p.issued + [Request(|p.issued|, p.nextTsn, cmdId)]
            && q.settled == p.settled && (q.nextTsn + (n - 1)) % 0x100 == (p.nextTsn + n) % 0x100
  {
    hide CommandFrame, Flags, RequestData;
  }

  /** `n` calls one after the other. */
  lemma {:induction false} ManyCommands(k: Checksums, p: Page, cmdId: nat, n: nat) returns (q: Page)
    requires WellFormed(p) && cmdId < 0x1_0000
    ensures Run(k, p, Calls(cmdId, n), q) && WellFormed(q)
    ensures q.nextTsn == (p.nextTsn + n) % 0x100 && q.settled == p.settled
    ensures |q.issued| == |p.issued| + n && p.issued <= q.issued
    ensures n > 0 ==> q.issued[|p.issued|] == Request(|p.issued|, p.nextTsn, cmdId)
    decreases n
  {
    hide Commands, Calls;
    if n == 0 {
      q := p;
      assert Calls(cmdId, 0) == [];
    } else {
      CallsStep(cmdId, n);
      OneCall(k, p, cmdId, n);
      q := ManyCommands(k, Commands(k, p, cmdId, []), cmdId, n - 1);
    }
  }

  /** A caller that does not await, as the page does: after 256 unanswered calls the next one gets the tsn of the
      first, whose timer then clears the slot of the new request; its answer arrives and settles nothing. */
  lemma OldTimerHidesAnswer(k: Checksums, cmdId: nat)
    returns (p: Page, q: Page, f: seq<byte>)
    requires cmdId < 0x1_0000
    ensures Run(k, CONNECTED, Calls(cmdId, 256), p) && WellFormed(p)
    ensures var asked := Commands(k, p, cmdId, []);
            var r := Request(256, 1, cmdId);
            && asked.issued == p.issued + [r] && Matches(k, f, r.tsn, r.cmdId)
            && Run(k, asked, [Timer(Request(0, 1, cmdId)), Arrival(f)], q)
            && q.settled == [Timeout(Request(0, 1, cmdId))] && Open(q, r.promise) && r.tsn !in q.pending
  {
    hide Handles, DataFrame, PayloadOk, Payload, CommandFrame, Flags, IsFrame, IsNack, Calls;
    p := ManyCommands(k, CONNECTED, cmdId, 256);
    var asked := Commands(k, p, cmdId, []);
    var first, r := Request(0, 1, cmdId), Request(256, 1, cmdId);
    var data := RequestData(1, cmdId, []);
    f := DataFrame(k, Flags(false, false, 1, 0), data);
    DataFrameIsFrame(k, Flags(false, false, 1, 0), data);
    FlagsReadBack(f, false, false, 1, 0);
    assert asked.issued[0] == p.issued[0];
    var cleared := TimesOut(asked, first);
    assert Possible(asked, Timer(first));
    q := Handles(k, cleared, f);
    HandlesSettles(k, cleared, f);
    RunOfTwo(k, asked, Timer(first), Arrival(f));
  }

  lemma RunOfTwo(k: Checksums, p: Page, a: Event, b: Event)
    requires WellFormed(p) && Possible(p, a) && Possible(Step(k, p, a), b)
    ensures Run(k, p, [a, b], Step(k, Step(k, p, a), b))
  {
    hide Step, Possible;
    assert [a, b][1..] == [b] && [b][1..] == [];
    var q := Step(k, Step(k, p, a), b);
    assert Run(k, q, [], q);
    assert Run(k, Step(k, p, a), [b], q);
  }

  // ---- How far the loop of processBuffer has come -----------------------------------------------

  /** Parsing and handling the remaining `buffer` completes what parsing and handling `b` would do. */
  ghost predicate Outstanding(k: Checksums, start: Page, b: seq<byte>, at: nat, now: Page, buffer: seq<byte>, pos: nat)
  {
    && WellFormed(start) && WellFormed(now)
    && Leftover(k, Host, buffer) == Leftover(k, Host, b)
    && var all := Scan(k, Host, b, at).cuts;
       var cuts := Scan(k, Host, buffer, pos).cuts;
       && (forall i: nat | i < |all| :: HEADER_SIZE <= |all[i].frame|)
       && (forall i: nat | i < |cuts| :: HEADER_SIZE <= |cuts[i].frame|)
       && HandlesAll(k, now, cuts) == HandlesAll(k, start, all)
  }

  lemma NothingDone(k: Checksums, p: Page, b: seq<byte>, at: nat)
    requires WellFormed(p)
    ensures Outstanding(k, p, b, at, p, b, at)
  {
    hide Scan, Leftover, HandlesAll;
    Protocol.CutsHaveHeaders(k, Host, b, at);
  }

  lemma NothingCut(k: Checksums, start: Page, b: seq<byte>, at: nat, now: Page,
                   buffer: seq<byte>, pos: nat, rest: seq<byte>, next: nat)
    requires Outstanding(k, start, b, at, now, buffer, pos)
    requires Scan(k, Host, buffer, pos) == Scan(k, Host, rest, next)
    requires Leftover(k, Host, buffer) == Leftover(k, Host, rest)
    ensures Outstanding(k, start, b, at, now, rest, next)
  {
    hide Scan, Leftover, HandlesAll, WellFormed;
  }

  lemma GarbagePassed(k: Checksums, start: Page, b: seq<byte>, at: nat, now: Page, buffer: seq<byte>, pos: nat)
    requires HEADER_SIZE <= |buffer|
    requires Outstanding(k, start, b, at, now, buffer, pos)
    ensures Trim(buffer) == buffer[Start(buffer)..] && Start(Trim(buffer)) == 0
    ensures Outstanding(k, start, b, at, now, Trim(buffer), pos + Start(buffer))
  {
    hide Scan, Leftover, Start, Trim, Outstanding;
    RoundMoves(k, Host, buffer, pos);
    NothingCut(k, start, b, at, now, buffer, pos, Trim(buffer), pos + Start(buffer));
  }

  lemma HeaderSkipped(k: Checksums, start: Page, b: seq<byte>, at: nat, now: Page, buffer: seq<byte>, pos: nat)
    requires 2 <= |buffer|
    requires Outstanding(k, start, b, at, now, buffer, pos)
    requires Start(buffer) == 0 && Decide(k, Host, buffer) == Skip
    ensures Outstanding(k, start, b, at, now, buffer[2..], pos + 2)
  {
    hide Scan, Leftover, Start, Trim, Decide, Outstanding;
    RoundSkips(k, Host, buffer, pos);
    NothingCut(k, start, b, at, now, buffer, pos, buffer[2..], pos + 2);
  }

  lemma HandlesFirst(k: Checksums, p: Page, c: Cut, cuts: seq<Cut>)
    requires WellFormed(p) && HEADER_SIZE <= |c.frame| && forall i: nat | i < |cuts| :: HEADER_SIZE <= |cuts[i].frame|
    ensures forall i: nat | i < |[c] + cuts| :: HEADER_SIZE <= |([c] + cuts)[i].frame|
    ensures HandlesAll(k, p, [c] + cuts) == HandlesAll(k, Handles(k, p, c.frame), cuts)
  {
    hide Handles;
    assert ([c] + cuts)[1..] == cuts;
  }

  lemma OneCut(k: Checksums, start: Page, b: seq<byte>, at: nat, now: Page,
               buffer: seq<byte>, pos: nat, c: Cut, rest: seq<byte>, next: nat)
    requires Outstanding(k, start, b, at, now, buffer, pos) && HEADER_SIZE <= |c.frame|
    requires Scan(k, Host, buffer, pos).cuts == [c] + Scan(k, Host, rest, next).cuts
    requires Leftover(k, Host, buffer) == Leftover(k, Host, rest)
    ensures WellFormed(now) && Outstanding(k, start, b, at, Handles(k, now, c.frame), rest, next)
  {
    hide Scan, Leftover, Handles, HandlesAll, WellFormed;
    var cuts := Scan(k, Host, rest, next).cuts;
    assert forall i: nat | i < |cuts| :: cuts[i] == ([c] + cuts)[i + 1];
    HandlesFirst(k, now, c, cuts);
  }

  lemma FrameHandled(k: Checksums, start: Page, b: seq<byte>, at: nat, now: Page, buffer: seq<byte>, pos: nat, n: nat)
    requires HEADER_SIZE <= n <= |buffer|
    requires Outstanding(k, start, b, at, now, buffer, pos)
    requires Start(buffer) == 0 && Decide(k, Host, buffer) == Take(n)
    ensures WellFormed(now) && Outstanding(k, start, b, at, Handles(k, now, buffer[..n]), buffer[n..], pos + n)
  {
    hide Scan, Leftover, Start, Decide, Handles, Outstanding, WellFormed;
    RoundTakes(k, Host, buffer, pos);
    OneCut(k, start, b, at, now, buffer, pos, Cut(pos, buffer[..n]), buffer[n..], pos + n);
  }

  /** The loop stops: too few bytes, or a frame that is not complete. */
  predicate Stuck(k: Checksums, buffer: seq<byte>) {
    |buffer| < HEADER_SIZE || (Start(buffer) == 0 && Decide(k, Host, buffer) == Wait)
  }

  lemma AllDone(k: Checksums, start: Page, b: seq<byte>, at: nat, now: Page, buffer: seq<byte>, pos: nat)
    requires Outstanding(k, start, b, at, now, buffer, pos) && Stuck(k, buffer)
    ensures var cuts := Scan(k, Host, b, at).cuts;
            && WellFormed(start)
            && (forall i: nat | i < |cuts| :: HEADER_SIZE <= |cuts[i].frame|)
            && now == HandlesAll(k, start, cuts)
            && Leftover(k, Host, b) == buffer
  {
    hide Scan, Leftover, Start, Trim, Decide, WellFormed;
    RoundEnds(k, Host, buffer, pos);
  }

  // ---- The class --------------------------------------------------------------------------------

  /** class ZbossSerial. Timers, locks and the port itself are not part of it. */
  class ZbossSerial {
    const k: Checksums
    var seqNo: nat
    var recvSeq: nat
    var nextTsn: nat
    var buffer: seq<byte>
    var pendingRequests: map<nat, Request>
    var written: seq<seq<byte>>
    var issued: seq<Request>
    var settled: seq<Settlement>
    ghost var received: nat

    ghost function State(): Page
      reads this
    {
      Page(seqNo, recvSeq, nextTsn, pendingRequests, issued, settled, written)
    }

    ghost predicate Valid()
      reads this
    {
      WellFormed(State()) && |buffer| <= received
    }

    ghost function Buffered(): Receiver
      reads this
    {
      Receiver(buffer, received)
    }

    constructor (k: Checksums)
      ensures Valid() && State() == CONNECTED && Buffered() == FRESH && this.k == k
    {
      this.k := k;
      seqNo, recvSeq, nextTsn := 0, 0, 1;
      buffer, received := [], 0;
      pendingRequests, written, issued, settled := map[], [], [], [];
    }

    /** sendCommand, up to its await. */
    method SendCommand(cmdId: nat, payload: seq<byte>) returns (request: Request)
      requires Valid() && cmdId < 0x1_0000
      modifies this`seqNo, this`nextTsn, this`pendingRequests, this`written, this`issued
      ensures Valid() && State() == Commands(k, old(State()), cmdId, payload)
      ensures request == Request(|old(issued)|, old(nextTsn), cmdId)
      ensures |payload| + 12 < 0x1_0000 ==>
                var d := [0, 0, cmdId % 0x100, cmdId / 0x100, old(nextTsn)] + payload;
                written == old(written) + [WireData(k, old(seqNo), old(recvSeq), d)]
    {
      hide Flags, CommandFrame, WireData, RequestData;
      if |payload| + 12 < 0x1_0000 {
        CommandOnWire(k, State(), cmdId, payload);
      }
      var tsn := nextTsn;
      nextTsn := (nextTsn + 1) % 0x100;
      var reqData := RequestData(tsn, cmdId, payload);
      var out := CommandFrame(k, Flags(false, false, seqNo, recvSeq), reqData);
      seqNo := (seqNo + 1) % 4;
      request := Request(|issued|, tsn, cmdId);
      issued := issued + [request];
      pendingRequests := pendingRequests[tsn := request];
      written := written + [out];
    }

    /** The search for DE AD; a trailing DE may be the first half of one. */
    method FindStart() returns (start: nat)
      ensures start == Start(buffer)
    {
      start := 0;
      while start + 1 < |buffer|
        invariant start <= |buffer|
        invariant forall i: nat | i < start :: !Plausible(buffer, i)
      {
        if buffer[start] == 0xde && buffer[start + 1] == 0xad {
          StartIs(buffer, start);
          return;
        }
        start := start + 1;
      }
      if start < |buffer| && buffer[start] != 0xde {
        start := start + 1;
      }
      StartIs(buffer, start);
    }

    /** The body of processBuffer for one complete frame. */
    method OnFrame(frame: seq<byte>)
      requires Valid() && (|frame| == HEADER_SIZE || 9 <= |frame|)
      modifies this`recvSeq, this`written, this`pendingRequests, this`settled
      ensures Valid() && State() == Handles(k, old(State()), frame)
    {
      var isNack := IsNack(frame);
      recvSeq := PacketSeq(frame);
      if isNack {
        return;
      }
      if IsAck(frame) && |frame| == HEADER_SIZE {
        return;
      }
      if |frame| > HEADER_SIZE {
        var payload := frame[9..];
        written := written + [EmptyFrame(k, Flags(true, false, 0, recvSeq))];
        var expectedCrc := U16(frame, 7);
        if k.payload(payload) != expectedCrc {
          return;
        }
        if |payload| < 5 {
          return;
        }
        var cmdId, tsn := U16(payload, 2), payload[4] as nat;
        if tsn in pendingRequests && pendingRequests[tsn].cmdId == cmdId {
          settled := settled + [Answer(pendingRequests[tsn], payload)];
          pendingRequests := pendingRequests - {tsn};
        }
      }
    }

    /** readLoop's append and processBuffer. */
    method OnRead(value: seq<byte>)
      requires Valid()
      modifies this
      ensures Valid()
      ensures Buffered() == Feed(k, Host, old(Buffered()), value).next
      ensures var cuts := Feed(k, Host, old(Buffered()), value).cuts;
              && (forall i: nat | i < |cuts| :: HEADER_SIZE <= |cuts[i].frame|)
              && State() == HandlesAll(k, old(State()), cuts)
    {
      hide Scan, Leftover, Outstanding, HandlesAll, WellFormed, Stuck, Feed;
      ghost var start := State();
      ghost var before := Buffered();
      buffer := buffer + value;
      received := received + |value|;
      ghost var b := buffer;
      ghost var at: nat := received - |b|;
      NothingDone(k, start, b, at);
      ghost var pos := ProcessBuffer(start, b, at);
      AllDone(k, start, b, at, State(), buffer, pos);
      FeedIs(k, Host, before, value);
    }

    /** The loop of processBuffer; `pos` is the offset in the stream of what it leaves in the buffer. */
    method ProcessBuffer(ghost start: Page, ghost b: seq<byte>, ghost at: nat) returns (ghost pos: nat)
      requires Valid() && Outstanding(k, start, b, at, State(), buffer, at)
      modifies this`recvSeq, this`written, this`pendingRequests, this`settled, this`buffer
      ensures Valid() && Outstanding(k, start, b, at, State(), buffer, pos)
      ensures Stuck(k, buffer)
    {
      hide Scan, Leftover, Start, Trim, Outstanding, Handles, HandlesAll, Decide, WellFormed;
      pos := at;
      while |buffer| >= HEADER_SIZE
        invariant Valid() && Outstanding(k, start, b, at, State(), buffer, pos)
        decreases |buffer|
      {
        GarbagePassed(k, start, b, at, State(), buffer, pos);
        var first := FindStart();
        buffer := buffer[first..];
        pos := pos + first;
        if |buffer| < HEADER_SIZE {
          return;
        }
        var v := Inspect();
        match v {
          case Wait =>
            return;
          case Skip =>
            HeaderSkipped(k, start, b, at, State(), buffer, pos);
            buffer := buffer[2..];
            pos := pos + 2;
          case Take(size) =>
            FrameHandled(k, start, b, at, State(), buffer, pos, size);
            var frame := buffer[..size];
            buffer := buffer[size..];
            pos := pos + size;
            OnFrame(frame);
        }
      }
    }

    /** The header checks of processBuffer, in its order: length, header CRC, completeness. */
    method Inspect() returns (v: Verdict)
      requires HEADER_SIZE <= |buffer|
      ensures v == Decide(k, Host, buffer)
    {
      var packetLen := U16(buffer, 2);
      if packetLen != 5 && packetLen < 7 {
        return Skip;
      }
      if k.header(buffer[2..6]) != buffer[6] {
        return Skip;
      }
      if |buffer| < packetLen + 2 {
        return Wait;
      }
      return Take(packetLen + 2);
    }
  }
}
