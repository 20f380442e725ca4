/** The firmware's link layer, main/protocol.cpp: reassembly in a fixed 1024-byte buffer, acknowledgement,
    dropping of retransmitted duplicates, and the frames it sends. */
module Protocol {
  import opened Bytes
  import opened Collections
  import opened Framing
  import opened Reassembly

  const TX_BUFFER_SIZE := 2048

  /** The application behind the link: all payloads dispatched so far, the newest last, give the replies it
      hands to send_data before on_rx_data returns. */
  type App = seq<seq<byte>> -> seq<seq<byte>>

  // ---- The link as a value ----------------------------------------------------------------------

  /** m_tx_seq, m_last_rx_seq, m_last_rx_seq_valid, the frames handed to transport::send and the payloads
      handed to app::on_rx_data. */
  datatype Link = Link(txSeq: nat, lastRxSeq: nat, lastRxSeqValid: bool,
                       sent: seq<seq<byte>>, delivered: seq<seq<byte>>)

  const BOOT := Link(1, 0, false, [], [])

  const NEXT_SEQ_MAP := [1, 2, 3, 1]

  function NextSeq(seqNo: nat): (n: nat)
    ensures 1 <= n < 4
  {
    NEXT_SEQ_MAP[seqNo % 4]
  }

  predicate WellFormed(l: Link) {
    l.txSeq < 4 && l.lastRxSeq < 4
  }

  function Sends(l: Link, frame: seq<byte>): Link {
    l.(txSeq := NextSeq(l.txSeq), sent := l.sent + [frame])
  }

  function Acks(k: Checksums, l: Link, f: seq<byte>, nack: bool): Link
    requires WellFormed(l) && HEADER_SIZE <= |f|
  {
    Sends(l, EmptyFrame(k, Flags(true, nack, l.txSeq, PacketSeq(f))))
  }

  predicate Sendable(data: seq<byte>) {
    data != [] && |data| <= TX_BUFFER_SIZE - HEADER_SIZE - 2
  }

  function SendsData(k: Checksums, l: Link, data: seq<byte>): Link
    requires WellFormed(l)
  {
    if Sendable(data) then Sends(l, DataFrame(k, Flags(false, false, l.txSeq, 0), data)) else l
  }

  function SendsAll(k: Checksums, l: Link, replies: seq<seq<byte>>): (m: Link)
    requires WellFormed(l)
    ensures WellFormed(m)
    decreases |replies|
  {
    if replies == [] then l else SendsAll(k, SendsData(k, l, replies[0]), replies[1..])
  }

  /** A flagged data frame with the sequence number last accepted has been dispatched before. */
  predicate Duplicate(valid: bool, lastSeq: nat, retransmit: bool, seqNo: nat) {
    retransmit && valid && seqNo == lastSeq
  }

  /** What the link does with one frame cut from the stream. */
  function Handles(k: Checksums, app: App, l: Link, f: seq<byte>): (m: Link)
    requires WellFormed(l) && HEADER_SIZE <= |f|
    ensures WellFormed(m)
  {
    if |f| < 9 then
      l
    else if !PayloadOk(k, f) then
      Acks(k, l, f, true)
    else if IsAck(f) then
      l
    else if PacketType(f) != ZBOSS_NCP_API_HL then
      Acks(k, l, f, true)
    else
      var acked := Acks(k, l, f, false);
      if Duplicate(l.lastRxSeqValid, l.lastRxSeq, IsNack(f), PacketSeq(f)) then
        acked
      else
        var delivered := l.delivered + [Payload(f)];
        SendsAll(k, acked.(lastRxSeq := PacketSeq(f), lastRxSeqValid := true, delivered := delivered), app(delivered))
  }

  function HandlesAll(k: Checksums, app: App, l: Link, cuts: seq<Cut>): (m: Link)
    requires WellFormed(l) && forall i: nat | i < |cuts| :: HEADER_SIZE <= |cuts[i].frame|
    ensures WellFormed(m)
    decreases |cuts|
  {
    if cuts == [] then l else HandlesAll(k, app, Handles(k, app, l, cuts[0].frame), cuts[1..])
  }

  lemma {:induction false} CutsHaveHeaders(k: Checksums, who: Parser, s: seq<byte>, at: nat)
    ensures forall i: nat | i < |Scan(k, who, s, at).cuts| :: HEADER_SIZE <= |Scan(k, who, s, at).cuts[i].frame|
    decreases |s|
  {
    hide Start, Trim, Decide, Scan;
    var t := Trim(s);
    var p := at + Start(s);
    ScanStep(k, who, s, at);
    match Decide(k, who, t)
    case Wait =>
    case Skip => CutsHaveHeaders(k, who, t[2..], p + 2);
    case Take(n) => CutsHaveHeaders(k, who, t[n..], p + n);
  }

  // ---- Sequence numbers -------------------------------------------------------------------------

  /** The n-th frame handed to the transport carries packet_seq 1 + n mod 3. */
  predicate Numbered(l: Link) {
    && l.txSeq == 1 + |l.sent| % 3
    && l.lastRxSeq < 4
    && forall n: nat | n < |l.sent| :: HEADER_SIZE <= |l.sent[n]| && PacketSeq(l.sent[n]) == 1 + n % 3
  }

  /** Every frame handed to the transport is a complete frame, one whole message, that fits the transmit buffer. */
  predicate WellSent(k: Checksums, l: Link) {
    forall n: nat | n < |l.sent| ::
      IsFrame(k, l.sent[n]) && HEADER_SIZE <= |l.sent[n]| <= TX_BUFFER_SIZE && Unfragmented(l.sent[n])
  }

  lemma NextSeqCycles(n: nat)
    ensures NextSeq(1 + n % 3) == 1 + (n + 1) % 3
  {
  }

  lemma SendsKeepsNumbers(k: Checksums, l: Link, f: seq<byte>)
    requires Numbered(l) && WellSent(k, l)
    requires IsFrame(k, f) && HEADER_SIZE <= |f| <= TX_BUFFER_SIZE && PacketSeq(f) == l.txSeq && Unfragmented(f)
    ensures Numbered(Sends(l, f)) && WellSent(k, Sends(l, f))
  {
    hide IsFrame;
    NextSeqCycles(|l.sent|);
    assert IsFrame(k, f);
    IsFrameSize(k, f);
  }

  lemma IsFrameSize(k: Checksums, f: seq<byte>)
    requires IsFrame(k, f)
    ensures HEADER_SIZE <= |f|
  {
    hide HeaderOk;
  }

  lemma AcksKeepsNumbers(k: Checksums, l: Link, f: seq<byte>, nack: bool)
    requires Numbered(l) && WellSent(k, l) && HEADER_SIZE <= |f|
    ensures Numbered(Acks(k, l, f, nack)) && WellSent(k, Acks(k, l, f, nack))
  {
    hide IsFrame, WellSent, Sends, EmptyFrame, Flags;
    var flags := Flags(true, nack, l.txSeq, PacketSeq(f));
    var g := EmptyFrame(k, flags);
    EmptyFrameIsFrame(k, flags);
    EmptyFrameSize(k, flags);
    FlagsReadBack(g, true, nack, l.txSeq, PacketSeq(f));
    SendsKeepsNumbers(k, l, g);
  }

  lemma EmptyFrameSize(k: Checksums, flags: byte)
    ensures |EmptyFrame(k, flags)| == HEADER_SIZE
  {
  }

  lemma SendsDataKeepsNumbers(k: Checksums, l: Link, data: seq<byte>)
    requires Numbered(l) && WellSent(k, l)
    ensures Numbered(SendsData(k, l, data)) && WellSent(k, SendsData(k, l, data))
    ensures SendsData(k, l, data).delivered == l.delivered
  {
    hide IsFrame, WellSent, DataFrame, Flags, PayloadOk;
    if Sendable(data) {
      var flags := Flags(false, false, l.txSeq, 0);
      var g := DataFrame(k, flags, data);
      DataFrameIsFrame(k, flags, data);
      FlagsReadBack(g, false, false, l.txSeq, 0);
      SendsKeepsNumbers(k, l, g);
    }
  }

  lemma {:induction false} SendsAllKeepsNumbers(k: Checksums, l: Link, replies: seq<seq<byte>>)
    requires Numbered(l) && WellSent(k, l)
    ensures Numbered(SendsAll(k, l, replies)) && WellSent(k, SendsAll(k, l, replies))
    ensures SendsAll(k, l, replies).delivered == l.delivered
    decreases |replies|
  {
    hide SendsData, WellSent, Numbered;
    NumberedIsWellFormed(l);
    if replies != [] {
      SendsDataKeepsNumbers(k, l, replies[0]);
      NumberedIsWellFormed(SendsData(k, l, replies[0]));
      SendsAllKeepsNumbers(k, SendsData(k, l, replies[0]), replies[1..]);
    }
  }

  /** Replies only add frames behind those already sent. */
  lemma {:induction false} SendsAllExtends(k: Checksums, l: Link, replies: seq<seq<byte>>)
    requires WellFormed(l)
    ensures var m := SendsAll(k, l, replies);
            && |l.sent| <= |m.sent| && m.sent[..|l.sent|] == l.sent
            && m.delivered == l.delivered && m.lastRxSeq == l.lastRxSeq && m.lastRxSeqValid == l.lastRxSeqValid
    decreases |replies|
  {
    hide DataFrame, Flags, Sendable;
    if replies != [] {
      var next := SendsData(k, l, replies[0]);
      SendsAllExtends(k, next, replies[1..]);
      var m := SendsAll(k, l, replies);
      assert l.sent == m.sent[..|next.sent|][..|l.sent|];
    }
  }

  lemma NumberedIsWellFormed(l: Link)
    requires Numbered(l)
    ensures WellFormed(l)
  {
  }

  /** Handling any frame keeps the numbering, whatever it makes the application send. */
  lemma HandlesKeepsNumbers(k: Checksums, app: App, l: Link, f: seq<byte>)
    requires Numbered(l) && WellSent(k, l) && HEADER_SIZE <= |f|
    ensures Numbered(Handles(k, app, l, f)) && WellSent(k, Handles(k, app, l, f))
  {
    hide WellSent, Acks, SendsAll, PayloadOk;
    AcksKeepsNumbers(k, l, f, true);
    AcksKeepsNumbers(k, l, f, false);
    if 9 <= |f| && !Duplicate(l.lastRxSeqValid, l.lastRxSeq, IsNack(f), PacketSeq(f)) {
      var delivered := l.delivered + [Payload(f)];
      var m := Acks(k, l, f, false).(lastRxSeq := PacketSeq(f), lastRxSeqValid := true, delivered := delivered);
      SameSent(k, Acks(k, l, f, false), m);
      SendsAllKeepsNumbers(k, m, app(delivered));
    }
  }

  lemma SameSent(k: Checksums, l: Link, m: Link)
    requires WellSent(k, l) && l.sent == m.sent
    ensures WellSent(k, m)
  {
    hide IsFrame;
  }

  lemma {:induction false} HandlesAllKeepsNumbers(k: Checksums, app: App, l: Link, cuts: seq<Cut>)
    requires Numbered(l) && WellSent(k, l)
    requires forall i: nat | i < |cuts| :: HEADER_SIZE <= |cuts[i].frame|
    ensures Numbered(HandlesAll(k, app, l, cuts)) && WellSent(k, HandlesAll(k, app, l, cuts))
    decreases |cuts|
  {
    hide Handles, Numbered, WellSent;
    NumberedIsWellFormed(l);
    if cuts != [] {
      HandlesKeepsNumbers(k, app, l, cuts[0].frame);
      HandlesAllKeepsNumbers(k, app, Handles(k, app, l, cuts[0].frame), cuts[1..]);
    }
  }

  // ---- The bytes of the answers -----------------------------------------------------------------

  lemma AckOnWire(k: Checksums, l: Link, f: seq<byte>, nack: bool)
    requires WellFormed(l) && HEADER_SIZE <= |f|
    ensures Acks(k, l, f, nack)
         == l.(txSeq := NextSeq(l.txSeq), sent := l.sent + [WireAck(k, nack, l.txSeq, PacketSeq(f))])
  {
    hide EmptyFrame, Flags, WireAck, NextSeq;
    FramesOnWire(k, nack, l.txSeq, PacketSeq(f), []);
  }

  /** A payload of 1 to 2039 bytes goes out as these bytes under the current number; of others nothing goes out. */
  lemma DataOnWire(k: Checksums, l: Link, data: seq<byte>)
    requires WellFormed(l)
    ensures SendsData(k, l, data)
         == if 1 <= |data| <= 2039 then
              l.(txSeq := NextSeq(l.txSeq), sent := l.sent + [WireData(k, l.txSeq, 0, data)])
            else
              l
  {
    hide DataFrame, Flags, WireData, NextSeq;
    if 1 <= |data| <= 2039 {
      FramesOnWire(k, false, l.txSeq, 0, data);
    }
  }

  /** What a frame is answered with, byte by byte: too short ones and ACKs with nothing, damaged ones and foreign types
      with a NACK; everything else with an ACK first, and unless it is a flagged repeat its payload is dispatched. */
  lemma AnswerOnWire(k: Checksums, app: App, l: Link, f: seq<byte>)
    requires WellFormed(l) && HEADER_SIZE <= |f|
    ensures |f| < 9 ==> Handles(k, app, l, f) == l
    ensures 9 <= |f| ==>
              var m, damaged := Handles(k, app, l, f), (f[7] as nat) + 0x100 * (f[8] as nat) != k.payload(f[9..]);
              var seqNo, retransmit := f[5] / 4 % 4, f[5] / 2 % 2 == 1;
              if damaged || (f[5] % 2 == 0 && f[4] != 0x06) then
                m == l.(txSeq := NextSeq(l.txSeq), sent := l.sent + [WireAck(k, true, l.txSeq, seqNo)])
              else if f[5] % 2 == 1 then
                m == l
              else if retransmit && l.lastRxSeqValid && l.lastRxSeq == seqNo then
                m == l.(txSeq := NextSeq(l.txSeq), sent := l.sent + [WireAck(k, false, l.txSeq, seqNo)])
              else
                && |l.sent| < |m.sent| && m.sent[..|l.sent|] == l.sent
                && m.sent[|l.sent|] == WireAck(k, false, l.txSeq, seqNo)
                && m.delivered == l.delivered + [f[9..]] && m.lastRxSeqValid && m.lastRxSeq == seqNo
  {
    hide WireAck, NextSeq, Acks, SendsAll;
    AckOnWire(k, l, f, true);
    AckOnWire(k, l, f, false);
    if 9 <= |f| {
      var acked := Acks(k, l, f, false);
      var delivered := l.delivered + [Payload(f)];
      SendsAllExtends(k, acked.(lastRxSeq := PacketSeq(f), lastRxSeqValid := true, delivered := delivered),
                      app(delivered));
    }
  }

  // ---- How far the loop of on_rx_int has come ---------------------------------------------------

  /** Parsing and handling `b` from position `p` on completes what parsing and handling all of it would do. */
  ghost predicate Outstanding(k: Checksums, app: App, start: Link, now: Link, b: seq<byte>, at: nat, p: nat) {
    && p <= |b| && WellFormed(start) && WellFormed(now)
    && Leftover(k, Ncp, b[p..]) == Leftover(k, Ncp, b)
    && var all := Scan(k, Ncp, b, at).cuts;
       var cuts := Scan(k, Ncp, b[p..], at + p).cuts;
       && (forall i: nat | i < |all| :: HEADER_SIZE <= |all[i].frame|)
       && (forall i: nat | i < |cuts| :: HEADER_SIZE <= |cuts[i].frame|)
       && HandlesAll(k, app, now, cuts) == HandlesAll(k, app, start, all)
  }

  lemma NothingDone(k: Checksums, app: App, l: Link, b: seq<byte>, at: nat)
    requires WellFormed(l)
    ensures Outstanding(k, app, l, l, b, at, 0)
  {
    hide Scan, Leftover, HandlesAll;
    assert b[0..] == b;
    CutsHaveHeaders(k, Ncp, b, at);
  }

  lemma GarbagePassed(k: Checksums, app: App, start: Link, now: Link, b: seq<byte>, at: nat, p: nat)
    requires Outstanding(k, app, start, now, b, at, p)
    requires HEADER_SIZE <= |b| - p && Start(b[p..]) < |b| - p
    ensures var q := p + Start(b[p..]);
            && Outstanding(k, app, start, now, b, at, q)
            && Start(b[q..]) == 0
  {
    hide Scan, Leftover, HandlesAll, Start, Trim, WellFormed;
    RoundMoves(k, Ncp, b[p..], at + p);
    assert b[p..][Start(b[p..])..] == b[p + Start(b[p..])..];
  }

  lemma HeaderSkipped(k: Checksums, app: App, start: Link, now: Link, b: seq<byte>, at: nat, p: nat)
    requires Outstanding(k, app, start, now, b, at, p)
    requires Start(b[p..]) == 0 && Decide(k, Ncp, b[p..]) == Skip
    ensures Outstanding(k, app, start, now, b, at, p + 2)
  {
    hide Scan, Leftover, HandlesAll, Start, Decide, Trim, WellFormed;
    RoundSkips(k, Ncp, b[p..], at + p);
    assert b[p..][2..] == b[p + 2..];
  }

  lemma FrameHandled(k: Checksums, app: App, start: Link, now: Link, b: seq<byte>, at: nat, p: nat, n: nat)
    requires Outstanding(k, app, start, now, b, at, p)
    requires Start(b[p..]) == 0 && Decide(k, Ncp, b[p..]) == Take(n)
    ensures Outstanding(k, app, start, Handles(k, app, now, b[p..p + n]), b, at, p + n)
  {
    hide Scan, Leftover, Start, Decide, Trim, Handles;
    RoundTakes(k, Ncp, b[p..], at + p);
    assert b[p..][n..] == b[p + n..];
    assert b[p..][..n] == b[p..p + n];
    CutsHaveHeaders(k, Ncp, b[p + n..], at + p + n);
  }

  /** The loop stops at `p`: too few bytes, no signature, or a frame that is not complete. */
  predicate Stuck(k: Checksums, b: seq<byte>, p: nat) {
    p <= |b| && (|b| - p < HEADER_SIZE || Start(b[p..]) == |b| - p
              || (Start(b[p..]) == 0 && Decide(k, Ncp, b[p..]) == Wait))
  }

  lemma AllDone(k: Checksums, app: App, start: Link, now: Link, b: seq<byte>, at: nat, p: nat)
    requires Outstanding(k, app, start, now, b, at, p)
    requires Stuck(k, b, p)
    ensures var cuts := Scan(k, Ncp, b, at).cuts;
            && WellFormed(start)
            && (forall i: nat | i < |cuts| :: HEADER_SIZE <= |cuts[i].frame|)
            && now == HandlesAll(k, app, start, cuts)
            && Leftover(k, Ncp, b) == b[p..]
  {
    hide Scan, Leftover, Start, Trim, Decide, WellFormed;
    RoundEnds(k, Ncp, b[p..], at + p);
  }

  // ---- What reaches the application -------------------------------------------------------------

  /** A frame that may be dispatched: data of the right type behind a good payload CRC. */
  predicate Dispatchable(k: Checksums, f: seq<byte>) {
    9 <= |f| && PayloadOk(k, f) && !IsAck(f) && PacketType(f) == ZBOSS_NCP_API_HL
  }

  /** One that the host does not flag as a retransmission. */
  predicate Unflagged(k: Checksums, f: seq<byte>) {
    Dispatchable(k, f) && !IsNack(f)
  }

  predicate Increasing(at: seq<nat>) {
    forall i: nat, j: nat | i < j < |at| :: at[i] < at[j]
  }

  /** `payloads` are those of the frames at the positions `at`, in their order; no unflagged one is left out. */
  predicate PayloadsOf(k: Checksums, frames: seq<seq<byte>>, at: seq<nat>, payloads: seq<seq<byte>>) {
    && |at| == |payloads| && Increasing(at)
    && (forall i: nat | i < |at| ::
          at[i] < |frames| && Dispatchable(k, frames[at[i]]) && payloads[i] == Payload(frames[at[i]]))
    && (forall j: nat | j < |frames| && Unflagged(k, frames[j]) :: j in at)
  }

  function Frames(cuts: seq<Cut>): (frames: seq<seq<byte>>)
    ensures |frames| == |cuts| && forall i: nat | i < |cuts| :: frames[i] == cuts[i].frame
  {
    seq(|cuts|, i requires 0 <= i < |cuts| => cuts[i].frame)
  }

  lemma HandlesDelivers(k: Checksums, app: App, l: Link, f: seq<byte>) returns (dispatched: bool)
    requires WellFormed(l) && HEADER_SIZE <= |f|
    ensures (Unflagged(k, f) ==> dispatched) && (dispatched ==> Dispatchable(k, f) && 9 <= |f|)
    ensures Handles(k, app, l, f).delivered == if dispatched then l.delivered + [Payload(f)] else l.delivered
  {
    hide PayloadOk, SendsAll, Flags, EmptyFrame;
    dispatched := Dispatchable(k, f) && !Duplicate(l.lastRxSeqValid, l.lastRxSeq, IsNack(f), PacketSeq(f));
    if dispatched {
      var delivered := l.delivered + [Payload(f)];
      var acked := Acks(k, l, f, false);
      SendsAllExtends(k, acked.(lastRxSeq := PacketSeq(f), lastRxSeqValid := true, delivered := delivered),
                      app(delivered));
    }
  }

  lemma OneMorePayload(k: Checksums, frames: seq<seq<byte>>, f: seq<byte>, at: seq<nat>, payloads: seq<seq<byte>>)
    requires PayloadsOf(k, frames, at, payloads) && Dispatchable(k, f)
    ensures PayloadsOf(k, frames + [f], at + [|frames|], payloads + [Payload(f)])
  {
    hide Dispatchable, Unflagged, Payload;
    var all := frames + [f];
    assert forall j: nat | j < |frames| :: all[j] == frames[j];
    assert all[|frames|] == f;
    assert (at + [|frames|])[|at|] == |frames|;
    assert forall j: nat | j in at :: j in at + [|frames|];
  }

  lemma NoMorePayload(k: Checksums, frames: seq<seq<byte>>, f: seq<byte>, at: seq<nat>, payloads: seq<seq<byte>>)
    requires PayloadsOf(k, frames, at, payloads) && !Unflagged(k, f)
    ensures PayloadsOf(k, frames + [f], at, payloads)
  {
    hide Dispatchable, Unflagged, Payload;
    var all := frames + [f];
    assert forall j: nat | j < |frames| :: all[j] == frames[j];
  }

  /** What frames bring to the application: these payloads, behind those it has already. */
  lemma {:induction false} DispatchedInOrder(k: Checksums, app: App, l: Link, cuts: seq<Cut>)
    returns (at: seq<nat>, payloads: seq<seq<byte>>)
    requires WellFormed(l) && forall i: nat | i < |cuts| :: HEADER_SIZE <= |cuts[i].frame|
    ensures HandlesAll(k, app, l, cuts).delivered == l.delivered + payloads
    ensures PayloadsOf(k, Frames(cuts), at, payloads)
    decreases |cuts|
  {
    hide Handles, PayloadsOf, Dispatchable, Unflagged;
    if cuts == [] {
      at, payloads := [], [];
      NoPayloads(k);
      assert Frames(cuts) == [];
    } else {
      var n := |cuts| - 1;
      var f := cuts[n].frame;
      at, payloads := DispatchedInOrder(k, app, l, cuts[..n]);
      var before := HandlesAll(k, app, l, cuts[..n]);
      assert cuts[..n] + [cuts[n]] == cuts;
      HandlesAllAppend(k, app, l, cuts[..n], [cuts[n]]);
      OneHandled(k, app, before, cuts[n]);
      var dispatched := HandlesDelivers(k, app, before, f);
      assert Frames(cuts) == Frames(cuts[..n]) + [f];
      if dispatched {
        OneMorePayload(k, Frames(cuts[..n]), f, at, payloads);
        at, payloads := at + [n], payloads + [Payload(f)];
      } else {
        NoMorePayload(k, Frames(cuts[..n]), f, at, payloads);
      }
    }
  }

  lemma OneHandled(k: Checksums, app: App, l: Link, c: Cut)
    requires WellFormed(l) && HEADER_SIZE <= |c.frame|
    ensures HandlesAll(k, app, l, [c]) == Handles(k, app, l, c.frame)
  {
    hide Handles;
    assert [c][1..] == [];
  }

  lemma NoPayloads(k: Checksums)
    ensures PayloadsOf(k, [], [], [])
  {
  }

  // ---- A whole run since boot -------------------------------------------------------------------

  lemma FedHeaders(k: Checksums, r: Receiver, chunk: seq<byte>)
    requires Fits(Ncp, r) && Admissible(Ncp, chunk)
    ensures forall i: nat | i < |Feed(k, Ncp, r, chunk).cuts| :: HEADER_SIZE <= |Feed(k, Ncp, r, chunk).cuts[i].frame|
  {
    hide Scan, Leftover;
    var b := Arrived(Ncp, r, chunk);
    CutsHaveHeaders(k, Ncp, b, r.end + |chunk| - |b|);
  }

  /** The link after one call of OnRx for each chunk. */
  function Runs(k: Checksums, app: App, l: Link, r: Receiver, chunks: seq<seq<byte>>): (m: Link)
    requires WellFormed(l) && Fits(Ncp, r) && forall i: nat | i < |chunks| :: Admissible(Ncp, chunks[i])
    ensures WellFormed(m)
    decreases |chunks|
  {
    if chunks == [] then
      l
    else
      var f := Feed(k, Ncp, r, chunks[0]);
      FedHeaders(k, r, chunks[0]);
      Runs(k, app, HandlesAll(k, app, l, f.cuts), f.next, chunks[1..])
  }

  lemma {:induction false} HandlesAllAppend(k: Checksums, app: App, l: Link, a: seq<Cut>, b: seq<Cut>)
    requires WellFormed(l)
    requires forall i: nat | i < |a + b| :: HEADER_SIZE <= |(a + b)[i].frame|
    ensures forall i: nat | i < |a| :: HEADER_SIZE <= |a[i].frame|
    ensures forall i: nat | i < |b| :: HEADER_SIZE <= |b[i].frame|
    ensures HandlesAll(k, app, l, a + b) == HandlesAll(k, app, HandlesAll(k, app, l, a), b)
    decreases |a|
  {
    hide Handles, WellFormed;
    assert forall i: nat | i < |a| :: a[i] == (a + b)[i];
    assert forall i: nat | i < |b| :: b[i] == (a + b)[|a| + i];
    if a == [] {
      assert a + b == b;
    } else {
      assert (a + b)[1..] == a[1..] + b;
      HandlesAllAppend(k, app, Handles(k, app, l, a[0].frame), a[1..], b);
    }
  }

  lemma {:induction false} RunsHandlesFed(k: Checksums, app: App, l: Link, r: Receiver, chunks: seq<seq<byte>>)
    requires WellFormed(l) && Fits(Ncp, r) && forall i: nat | i < |chunks| :: Admissible(Ncp, chunks[i])
    ensures var cuts := FeedAll(k, Ncp, r, chunks).cuts;
            && (forall i: nat | i < |cuts| :: HEADER_SIZE <= |cuts[i].frame|)
            && Runs(k, app, l, r, chunks) == HandlesAll(k, app, l, cuts)
    decreases |chunks|
  {
    hide Handles, Feed, WellFormed, Fits, Admissible;
    if chunks != [] {
      var f := Feed(k, Ncp, r, chunks[0]);
      FedHeaders(k, r, chunks[0]);
      RunsHandlesFed(k, app, HandlesAll(k, app, l, f.cuts), f.next, chunks[1..]);
      HandlesAllAppend(k, app, l, f.cuts, FeedAll(k, Ncp, f.next, chunks[1..]).cuts);
    }
  }

  /** A fresh receiver gets the bytes `x` in these chunks and evicts no live byte; the link is then in state `m`. */
  predicate Gets(k: Checksums, app: App, l: Link, x: seq<byte>, chunks: seq<seq<byte>>, m: Link)
    requires WellFormed(l)
  {
    && Concat(chunks) == x && (forall i: nat | i < |chunks| :: Admissible(Ncp, chunks[i]))
    && Lossless(k, Ncp, FRESH, chunks) && m == Runs(k, app, l, FRESH, chunks)
  }

  /** What it does is to handle the frames of the stream. */
  lemma GetsHandles(k: Checksums, app: App, l: Link, x: seq<byte>, chunks: seq<seq<byte>>, m: Link)
    requires WellFormed(l) && Gets(k, app, l, x, chunks, m)
    ensures forall i: nat | i < |Scan(k, Ncp, x, 0).cuts| :: HEADER_SIZE <= |Scan(k, Ncp, x, 0).cuts[i].frame|
    ensures m == HandlesAll(k, app, l, Scan(k, Ncp, x, 0).cuts)
  {
    hide FeedAll, Runs, HandlesAll, Lossless, Concat, Scan;
    ChunkedIsWhole(k, Ncp, chunks);
    RunsHandlesFed(k, app, l, FRESH, chunks);
  }

  /** However the host's bytes are cut into chunks, the firmware dispatches the same payloads, in the same
      order, and answers with the same frames, as long as it evicts no live byte. */
  lemma RunIsChunkInvariant(k: Checksums, app: App, l: Link, x: seq<byte>, a: seq<seq<byte>>, m: Link,
                            b: seq<seq<byte>>, n: Link)
    requires WellFormed(l) && Gets(k, app, l, x, a, m) && Gets(k, app, l, x, b, n)
    ensures m == n
  {
    hide Gets, HandlesAll;
    GetsHandles(k, app, l, x, a, m);
    GetsHandles(k, app, l, x, b, n);
  }

  /** Whatever bytes arrive, in whatever chunks: every frame the firmware has sent is a complete, valid frame of at
      most 2048 bytes and the n-th one carries packet_seq 1 + n mod 3. It is so at boot, and stays so. */
  lemma RunKeepsNumbers(k: Checksums, app: App, l: Link, r: Receiver, chunks: seq<seq<byte>>)
    requires forall i: nat | i < |chunks| :: Admissible(Ncp, chunks[i])
    requires Numbered(l) && WellSent(k, l) && Fits(Ncp, r)
    ensures WellFormed(l)
    ensures Numbered(Runs(k, app, l, r, chunks)) && WellSent(k, Runs(k, app, l, r, chunks))
  {
    hide FeedAll, Runs, HandlesAll, IsFrame;
    NumberedIsWellFormed(l);
    RunsHandlesFed(k, app, l, r, chunks);
    HandlesAllKeepsNumbers(k, app, l, FeedAll(k, Ncp, r, chunks).cuts);
  }

  lemma BootIsNumbered(k: Checksums)
    ensures Numbered(BOOT) && WellSent(k, BOOT) && Fits(Ncp, FRESH)
  {
  }

  /** After a boot nothing counts as a repeat: the first good data frame is dispatched, flagged or not, and
      acknowledged under number 1. */
  lemma FirstFrameIsDispatched(k: Checksums, app: App, f: seq<byte>)
    requires 9 <= |f| && (f[7] as nat) + 0x100 * (f[8] as nat) == k.payload(f[9..]) && f[5] % 2 == 0 && f[4] == 0x06
    ensures var m := Handles(k, app, BOOT, f);
            m.delivered == [f[9..]] && m.sent != [] && m.sent[0] == WireAck(k, false, 1, f[5] / 4 % 4)
  {
    hide Handles, WireAck;
    AnswerOnWire(k, app, BOOT, f);
  }

  /** The buffer holds the end of the bytes `x` that have arrived so far. */
  predicate Holds(x: seq<byte>, r: Receiver) {
    r.end == |x| && |r.buf| <= |x| && r.buf == x[|x| - |r.buf|..]
  }

  /** Whatever bytes arrive, in whatever chunks, evictions included: what the link hands to the application are the
      payloads, in order, of good frames of the stream with a good payload CRC; every such frame that is dispatchable
      and not flagged as a retransmission is among them. */
  lemma OnlyGoodPayloads(k: Checksums, app: App, l: Link, x: seq<byte>, r: Receiver, chunks: seq<seq<byte>>)
    returns (f: Fed, at: seq<nat>, payloads: seq<seq<byte>>)
    requires WellFormed(l) && Fits(Ncp, r) && Holds(x, r)
    requires forall i: nat | i < |chunks| :: Admissible(Ncp, chunks[i])
    ensures f == FeedAll(k, Ncp, r, chunks) && Sound(k, Ncp, x + Concat(chunks), f.cuts, f.next)
    ensures Runs(k, app, l, r, chunks).delivered == l.delivered + payloads
    ensures PayloadsOf(k, Frames(f.cuts), at, payloads)
  {
    hide FeedAll, Runs, HandlesAll, PayloadsOf;
    f := FeedAll(k, Ncp, r, chunks);
    FeedAllSound(k, Ncp, x, [], r, chunks);
    assert [] + f.cuts == f.cuts;
    RunsHandlesFed(k, app, l, r, chunks);
    at, payloads := DispatchedInOrder(k, app, l, f.cuts);
  }

  // ---- The buffer code --------------------------------------------------------------------------

  lemma SliceIs(a: array<byte>, b: seq<byte>, from: nat, to: nat)
    requires |b| <= a.Length && b == a[..|b|] && from <= to <= |b|
    ensures a[from..to] == b[from..to]
    ensures to == |b| ==> b[from..to] == b[from..]
  {
    var x, y := a[from..to], b[from..to];
    assert |x| == |y| && forall i: nat | i < |x| :: x[i] == a[from + i] == y[i];
  }

  /** class protocol. The checksums and the application are what the firmware was linked with. */
  class Protocol {
    const k: Checksums
    const app: App
    const rxBuffer: array<byte>
    var rxBufferPos: nat
    var txSeq: nat
    var lastRxSeq: nat
    var lastRxSeqValid: bool
    var sent: seq<seq<byte>>
    var delivered: seq<seq<byte>>
    ghost var received: nat

    ghost predicate Valid()
      reads this, rxBuffer
    {
      && rxBuffer.Length == RX_BUFFER_SIZE
      && rxBufferPos <= RX_BUFFER_SIZE && rxBufferPos <= received
      && WellFormed(State())
    }

    ghost function State(): Link
      reads this
    {
      Link(txSeq, lastRxSeq, lastRxSeqValid, sent, delivered)
    }

    ghost function Buffered(): Receiver
      reads this, rxBuffer
      requires Valid()
    {
      Receiver(rxBuffer[..rxBufferPos], received)
    }

    /** init_int. */
    constructor (k: Checksums, app: App)
      ensures Valid() && State() == BOOT && Buffered() == FRESH
      ensures this.k == k && this.app == app && fresh(rxBuffer)
    {
      this.k := k;
      this.app := app;
      rxBuffer := new byte[RX_BUFFER_SIZE];
      rxBufferPos := 0;
      txSeq := 1;
      lastRxSeq := 0;
      lastRxSeqValid := false;
      sent := [];
      delivered := [];
      received := 0;
    }

    /** send_ack and send_nack. */
    method SendAck(hdr: seq<byte>, nack: bool)
      requires Valid() && HEADER_SIZE <= |hdr|
      modifies this`txSeq, this`sent
      ensures Valid() && State() == Acks(k, old(State()), hdr, nack)
      ensures sent == old(sent) + [WireAck(k, nack, old(txSeq), PacketSeq(hdr))]
    {
      AckOnWire(k, State(), hdr, nack);
      var rsp := EmptyFrame(k, Flags(true, nack, txSeq, PacketSeq(hdr)));
      txSeq := NextSeq(txSeq);
      sent := sent + [rsp];
    }

    /** send_data_int; `accepted` is what transport::send answers, false is ESP_FAIL. The number is used up even if
        the transport refuses the frame. */
    method SendData(data: seq<byte>, accepted: bool) returns (ok: bool)
      requires Valid()
      modifies this`txSeq, this`sent
      ensures Valid() && State() == SendsData(k, old(State()), data)
      ensures sent == old(sent) + if 1 <= |data| <= 2039 then [WireData(k, old(txSeq), 0, data)] else []
      ensures ok <==> data == [] || (Sendable(data) && accepted)
    {
      DataOnWire(k, State(), data);
      if |data| == 0 {
        return true;
      }
      if |data| > TX_BUFFER_SIZE - HEADER_SIZE - 2 {
        return false;
      }
      var frame := DataFrame(k, Flags(false, false, txSeq, 0), data);
      txSeq := NextSeq(txSeq);
      sent := sent + [frame];
      return accepted;
    }

    /** app::on_rx_data: the application takes the payload and sends its replies. */
    method Dispatch(data: seq<byte>)
      requires Valid()
      modifies this`txSeq, this`sent, this`delivered
      ensures Valid()
      ensures State() == var d := old(delivered) + [data];
                         SendsAll(k, old(State()).(delivered := d), app(d))
    {
      delivered := delivered + [data];
      var replies := app(delivered);
      ghost var start := State();
      var i := 0;
      while i < |replies|
        invariant 0 <= i <= |replies|
        invariant Valid()
        invariant SendsAll(k, State(), replies[i..]) == SendsAll(k, start, replies)
      {
        assert replies[i..][0] == replies[i] && replies[i..][1..] == replies[i + 1..];
        var accepted: bool := *;
        var _ := SendData(replies[i], accepted);
        i := i + 1;
      }
    }

    /** on_rx_packet: `data` is absent for a frame without data. */
    method OnRxPacket(hdr: seq<byte>, data: Option<seq<byte>>)
      requires Valid() && HEADER_SIZE <= |hdr|
      requires data.Some? ==> 9 <= |hdr| && data.value == Payload(hdr) && PayloadOk(k, hdr)
      requires data.None? ==> |hdr| < 9
      modifies this`txSeq, this`sent, this`lastRxSeq, this`lastRxSeqValid, this`delivered
      ensures Valid() && State() == Handles(k, app, old(State()), hdr)
    {
      hide PayloadOk, Acks, SendsAll;
      if IsAck(hdr) {
        return;
      }
      if data.None? {
        return;
      }
      if PacketType(hdr) != ZBOSS_NCP_API_HL {
        SendAck(hdr, true);
        return;
      }
      if IsNack(hdr) && lastRxSeqValid && PacketSeq(hdr) == lastRxSeq {
        SendAck(hdr, false);
        return;
      }
      SendAck(hdr, false);
      lastRxSeq := PacketSeq(hdr);
      lastRxSeqValid := true;
      Dispatch(data.value);
    }

    /** One cut frame: the payload CRC decides between on_rx_packet and a NACK. */
    method OnFrame(frame: seq<byte>)
      requires Valid() && (|frame| == HEADER_SIZE || 9 <= |frame|)
      modifies this`txSeq, this`sent, this`lastRxSeq, this`lastRxSeqValid, this`delivered
      ensures Valid() && State() == Handles(k, app, old(State()), frame)
    {
      hide Acks, SendsAll;
      if |frame| == HEADER_SIZE {
        OnRxPacket(frame, None);
      } else {
        var expected := U16(frame, 7);
        var data := frame[9..];
        if k.payload(data) != expected {
          SendAck(frame, true);
        } else {
          OnRxPacket(frame, Some(data));
        }
      }
    }

    /** find_signature on rxBuffer[from..end]; -1 for nullptr. */
    method FindSignature(from: nat, end: nat) returns (p: int)
      requires Valid() && from <= end <= rxBuffer.Length
      ensures p == -1 ==> Start(rxBuffer[from..end]) == end - from
      ensures p != -1 ==> from <= p < end && p == from + Start(rxBuffer[from..end])
    {
      ghost var s := rxBuffer[from..end];
      p := from;
      while p != end
        invariant from <= p <= end
        invariant forall i: nat | i < p - from :: !Plausible(s, i)
      {
        assert rxBuffer[p] == s[p - from];
        if rxBuffer[p] == 0xde {
          if p + 1 == end {
            StartIs(s, p - from);
            return;
          }
          assert rxBuffer[p + 1] == s[p + 1 - from];
          if rxBuffer[p + 1] == 0xad {
            StartIs(s, p - from);
            return;
          }
        }
        p := p + 1;
      }
      StartIs(s, end - from);
      return -1;
    }

    /** When `size` bytes do not fit behind the buffer, its newest bytes move to the front. */
    method MakeRoom(size: nat)
      requires Valid() && size <= RX_BUFFER_SIZE
      modifies this`rxBufferPos, rxBuffer
      ensures Valid() && rxBufferPos + size <= RX_BUFFER_SIZE
      ensures rxBuffer[..rxBufferPos] == Evict(old(rxBuffer[..rxBufferPos]), size)
    {
      if rxBufferPos + size > RX_BUFFER_SIZE {
        var overflow := rxBufferPos + size - RX_BUFFER_SIZE;
        if overflow < rxBufferPos {
          forall i | 0 <= i < rxBufferPos - overflow {
            rxBuffer[i] := rxBuffer[overflow + i];
          }
        }
        rxBufferPos := RX_BUFFER_SIZE - size;
      }
    }

    /** The memcpy of on_rx_int. */
    method CopyIn(data: seq<byte>)
      requires Valid() && rxBufferPos + |data| <= RX_BUFFER_SIZE
      modifies this`rxBufferPos, this`received, rxBuffer
      ensures Valid() && received == old(received) + |data|
      ensures rxBuffer[..rxBufferPos] == old(rxBuffer[..rxBufferPos]) + data
    {
      forall i | 0 <= i < |data| {
        rxBuffer[rxBufferPos + i] := data[i];
      }
      received := received + |data|;
      rxBufferPos := rxBufferPos + |data|;
    }

    /** The header checks on_rx_int makes at a signature, in its order. */
    method Inspect(from: nat, end: nat) returns (v: Verdict)
      requires Valid() && from + HEADER_SIZE <= end <= rxBuffer.Length
      ensures v == Decide(k, Ncp, rxBuffer[from..end])
    {
      ghost var t := rxBuffer[from..end];
      var packetLen: nat := rxBuffer[from + 2] as nat + 0x100 * (rxBuffer[from + 3] as nat);
      assert packetLen == LengthField(t);
      assert rxBuffer[from + 2..from + 6] == t[2..6] by {
        assert forall i: nat | i < 4 :: t[2..6][i] == rxBuffer[from + 2 + i];
      }
      if k.header(rxBuffer[from + 2..from + 6]) != rxBuffer[from + 6] {
        return Skip;
      }
      if end - from < packetLen + 2 {
        return Wait;
      }
      if packetLen == 5 {
        return Take(HEADER_SIZE);
      }
      if packetLen < 7 {
        return Skip;
      }
      var dataLen: nat := packetLen - 5 - 2;
      return Take(HEADER_SIZE + 2 + dataLen);
    }

    /** on_rx_int: every frame that completes in the buffer is handled, the tail moves to the front. */
    method OnRx(data: seq<byte>)
      requires Valid() && |data| <= RX_BUFFER_SIZE
      modifies this, rxBuffer
      ensures Valid()
      ensures Buffered() == Feed(k, Ncp, old(Buffered()), data).next
      ensures var cuts := Feed(k, Ncp, old(Buffered()), data).cuts;
              && (forall i: nat | i < |cuts| :: HEADER_SIZE <= |cuts[i].frame|)
              && State() == HandlesAll(k, app, old(State()), cuts)
    {
      hide Scan, Leftover, Handles, HandlesAll, Outstanding, Stuck, Evict, WellFormed, Feed;
      ghost var start := State();
      ghost var before := Buffered();
      MakeRoom(|data|);
      CopyIn(data);
      ghost var b := rxBuffer[..rxBufferPos];
      ghost var at: nat := received - rxBufferPos;
      NothingDone(k, app, start, b, at);
      var rxData: nat := Rounds(start, b, at);
      AllDone(k, app, start, State(), b, at, rxData);
      FeedIs(k, Ncp, before, data);
      MoveTail(rxData, b);
    }

    /** The loop of on_rx_int; the result is where it stops. */
    method Rounds(ghost start: Link, ghost b: seq<byte>, ghost at: nat) returns (rxData: nat)
      requires Valid() && b == rxBuffer[..rxBufferPos] && Outstanding(k, app, start, State(), b, at, 0)
      modifies this`txSeq, this`sent, this`lastRxSeq, this`lastRxSeqValid, this`delivered
      ensures Valid() && Outstanding(k, app, start, State(), b, at, rxData)
      ensures rxData <= rxBufferPos && Stuck(k, b, rxData)
    {
      hide Scan, Leftover, Start, Trim, Handles, HandlesAll, Outstanding, Decide;
      rxData := 0;
      var end := rxBufferPos;
      while end - rxData >= HEADER_SIZE
        invariant rxData <= end && Valid()
        invariant Outstanding(k, app, start, State(), b, at, rxData)
      {
        var p := FindSignature(rxData, end);
        SliceIs(rxBuffer, b, rxData, end);
        if p == -1 {
          return;
        }
        GarbagePassed(k, app, start, State(), b, at, rxData);
        rxData := p;
        if end - rxData < HEADER_SIZE {
          return;
        }
        var v := Inspect(rxData, end);
        SliceIs(rxBuffer, b, rxData, end);
        if v == Wait {
          return;
        }
        rxData := Passes(start, b, at, rxData, v);
      }
    }

    /** Skips the signature of a bad header, or handles the complete frame. */
    method Passes(ghost start: Link, ghost b: seq<byte>, ghost at: nat, rxData: nat, v: Verdict) returns (next: nat)
      requires Valid() && b == rxBuffer[..rxBufferPos] && Outstanding(k, app, start, State(), b, at, rxData)
      requires rxData <= |b| && Start(b[rxData..]) == 0 && v == Decide(k, Ncp, b[rxData..]) && v != Wait
      modifies this`txSeq, this`sent, this`lastRxSeq, this`lastRxSeqValid, this`delivered
      ensures Valid() && Outstanding(k, app, start, State(), b, at, next)
      ensures rxData < next <= rxBufferPos
    {
      hide Scan, Leftover, Start, Trim, Handles, HandlesAll, Outstanding, Decide;
      if v == Skip {
        HeaderSkipped(k, app, start, State(), b, at, rxData);
        return rxData + 2;
      }
      FrameHandled(k, app, start, State(), b, at, rxData, v.size);
      SliceIs(rxBuffer, b, rxData, rxData + v.size);
      OnFrame(rxBuffer[rxData..rxData + v.size]);
      return rxData + v.size;
    }

    /** The bytes from `rxData` on become the buffer. */
    method MoveTail(rxData: nat, ghost b: seq<byte>)
      requires Valid() && b == rxBuffer[..rxBufferPos] && rxData <= rxBufferPos
      modifies this`rxBufferPos, rxBuffer
      ensures Valid() && rxBuffer[..rxBufferPos] == b[rxData..]
    {
      var rxDataSize := rxBufferPos - rxData;
      if rxData != 0 && rxDataSize != 0 {
        forall i | 0 <= i < rxDataSize {
          rxBuffer[i] := rxBuffer[rxData + i];
        }
      }
      rxBufferPos := rxDataSize;
    }
  }
}
