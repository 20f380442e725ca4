/** Frames that arrive in arbitrary chunks: what the receive buffers of the firmware and of the web page
    hold between chunks, and why cutting the stream differently does not change the frames. */
module Reassembly {
  import opened Bytes
  import opened Framing

  // ---- One chunk --------------------------------------------------------------------------------

  /** What a parser's loop leaves in its buffer. The firmware keeps garbage without any signature, the page
      drops it; neither looks at fewer than seven bytes. */
  function Leftover(k: Checksums, who: Parser, s: seq<byte>): (l: seq<byte>)
    ensures |l| <= |s|
    decreases |s|
  {
    if |s| < HEADER_SIZE then
      s
    else
      var t := Trim(s);
      if who == Ncp && t == [] then
        s
      else
        match Decide(k, who, t)
        case Wait => t
        case Skip => Leftover(k, who, t[2..])
        case Take(n) => Leftover(k, who, t[n..])
  }

  /** The oldest bytes go when `n` new ones do not fit behind them. */
  function Evict(buf: seq<byte>, n: nat): (b: seq<byte>)
    requires |buf| <= RX_BUFFER_SIZE && n <= RX_BUFFER_SIZE
    ensures |b| <= |buf| && b == buf[|buf| - |b|..]
    ensures |b| + n <= RX_BUFFER_SIZE && (b == buf || |b| + n == RX_BUFFER_SIZE)
  {
    if |buf| + n > RX_BUFFER_SIZE then buf[|buf| + n - RX_BUFFER_SIZE..] else buf
  }

  /** A receive buffer and the number of bytes that have arrived so far. */
  datatype Receiver = Receiver(buf: seq<byte>, end: nat)

  predicate Fits(who: Parser, r: Receiver) {
    |r.buf| <= r.end && (who == Ncp ==> |r.buf| <= RX_BUFFER_SIZE)
  }

  /** The firmware is handed at most BUF_SIZE = 1024 bytes at a time. */
  predicate Admissible(who: Parser, chunk: seq<byte>) {
    who == Ncp ==> |chunk| <= RX_BUFFER_SIZE
  }

  function Arrived(who: Parser, r: Receiver, chunk: seq<byte>): (b: seq<byte>)
    requires Fits(who, r) && Admissible(who, chunk)
    ensures |b| <= |r.buf| + |chunk|
    ensures who == Ncp ==> |b| <= RX_BUFFER_SIZE
  {
    if who == Ncp then Evict(r.buf, |chunk|) + chunk else r.buf + chunk
  }

  datatype Fed = Fed(cuts: seq<Cut>, next: Receiver)

  function Feed(k: Checksums, who: Parser, r: Receiver, chunk: seq<byte>): (f: Fed)
    requires Fits(who, r) && Admissible(who, chunk)
    ensures Fits(who, f.next)
    ensures f.next.end == r.end + |chunk|
  {
    var b := Arrived(who, r, chunk);
    var end := r.end + |chunk|;
    Fed(Scan(k, who, b, end - |b|).cuts, Receiver(Leftover(k, who, b), end))
  }

  function FeedAll(k: Checksums, who: Parser, r: Receiver, chunks: seq<seq<byte>>): (f: Fed)
    requires Fits(who, r) && forall i: nat | i < |chunks| :: Admissible(who, chunks[i])
    ensures Fits(who, f.next)
    decreases |chunks|
  {
    if chunks == [] then
      Fed([], r)
    else
      var one := Feed(k, who, r, chunks[0]);
      var more := FeedAll(k, who, one.next, chunks[1..]);
      Fed(one.cuts + more.cuts, more.next)
  }

  const FRESH := Receiver([], 0)

  lemma {:induction false} LeftoverIsLiveRest(k: Checksums, who: Parser, s: seq<byte>, at: nat)
    ensures Trim(Leftover(k, who, s)) == Scan(k, who, s, at).rest
    decreases |s|
  {
    LeftoverStep(k, who, s);
    hide *;
    var t := Trim(s);
    var p := at + Start(s);
    ScanStep(k, who, s, at);
    TrimIdempotent(s);
    match Decide(k, who, t)
    case Wait =>
    case Skip => LeftoverIsLiveRest(k, who, t[2..], p + 2);
    case Take(n) => LeftoverIsLiveRest(k, who, t[n..], p + n);
  }

  /** One round of the loop. */
  lemma LeftoverStep(k: Checksums, who: Parser, s: seq<byte>)
    ensures match Decide(k, who, Trim(s))
            case Wait => Leftover(k, who, s) == s || Leftover(k, who, s) == Trim(s)
            case Skip => Leftover(k, who, s) == Leftover(k, who, Trim(s)[2..])
            case Take(n) => Leftover(k, who, s) == Leftover(k, who, Trim(s)[n..])
  {
    hide Trim, Start, Decide, HeaderOk;
    if |s| < 7 {
      assert |Trim(s)| < 7;
    }
    if Trim(s) == [] {
      EmptyWaits(k, who);
    }
  }

  // The rounds of the parsers' loops, seen from the unparsed part of the buffer.

  lemma RoundMoves(k: Checksums, who: Parser, s: seq<byte>, at: nat)
    requires HEADER_SIZE <= |s| && (who == Ncp ==> Start(s) < |s|)
    ensures Trim(s) == s[Start(s)..] && Start(Trim(s)) == 0
    ensures Scan(k, who, s, at) == Scan(k, who, s[Start(s)..], at + Start(s))
    ensures Leftover(k, who, s) == Leftover(k, who, s[Start(s)..])
  {
    hide Start, Scan, Decide;
    TrimIs(s);
    TrimIdempotent(s);
    ScanOfTrim(k, who, s, at);
    var t := Trim(s);
    if |t| < 7 {
      ShortWaits(k, who, t);
    }
  }

  lemma RoundEnds(k: Checksums, who: Parser, s: seq<byte>, at: nat)
    requires |s| < HEADER_SIZE || (who == Ncp && Start(s) == |s|) || (Start(s) == 0 && Decide(k, who, s) == Wait)
    ensures Scan(k, who, s, at).cuts == []
    ensures Leftover(k, who, s) == s
  {
    hide Start, Scan, Decide, Trim;
    if Start(s) == 0 {
      NothingToTrim(s);
    }
    ScanStep(k, who, s, at);
    if |Trim(s)| < 7 {
      ShortWaits(k, who, Trim(s));
    }
  }

  lemma RoundSkips(k: Checksums, who: Parser, t: seq<byte>, at: nat)
    requires Start(t) == 0 && Decide(k, who, t) == Skip
    ensures Scan(k, who, t, at) == Scan(k, who, t[2..], at + 2)
    ensures Leftover(k, who, t) == Leftover(k, who, t[2..])
  {
    hide Start, Scan, Decide, Trim;
    NothingToTrim(t);
    ScanStep(k, who, t, at);
  }

  lemma RoundTakes(k: Checksums, who: Parser, t: seq<byte>, at: nat)
    requires Start(t) == 0 && Decide(k, who, t).Take?
    ensures var n := Decide(k, who, t).size;
            && Scan(k, who, t, at).cuts == [Cut(at, t[..n])] + Scan(k, who, t[n..], at + n).cuts
            && Leftover(k, who, t) == Leftover(k, who, t[n..])
  {
    hide Start, Scan, Decide, Trim;
    NothingToTrim(t);
    ScanStep(k, who, t, at);
  }

  lemma ShortWaits(k: Checksums, who: Parser, t: seq<byte>)
    requires |t| < HEADER_SIZE
    ensures Decide(k, who, t) == Wait
  {
  }

  lemma EmptyWaits(k: Checksums, who: Parser)
    ensures Decide(k, who, []) == Wait
  {
  }

  // ---- Chunk invariance -------------------------------------------------------------------------

  /** The new chunk pushes no live byte out of the buffer. */
  predicate KeepsLive(who: Parser, r: Receiver, chunk: seq<byte>) {
    who == Ncp ==> |Trim(r.buf)| + |chunk| <= RX_BUFFER_SIZE
  }

  predicate Lossless(k: Checksums, who: Parser, r: Receiver, chunks: seq<seq<byte>>)
    requires Fits(who, r) && forall i: nat | i < |chunks| :: Admissible(who, chunks[i])
    decreases |chunks|
  {
    chunks != [] ==>
      && KeepsLive(who, r, chunks[0])
      && Lossless(k, who, Feed(k, who, r, chunks[0]).next, chunks[1..])
  }

  /** The receiver stands where the scan of the whole stream `x` stands. */
  predicate InStep(k: Checksums, who: Parser, r: Receiver, x: seq<byte>) {
    Trim(r.buf) == Scan(k, who, x, 0).rest && r.end == |x|
  }

  lemma ArrivedLive(who: Parser, r: Receiver, chunk: seq<byte>)
    requires Fits(who, r) && Admissible(who, chunk) && KeepsLive(who, r, chunk)
    ensures Trim(Arrived(who, r, chunk)) == Trim(Trim(r.buf) + chunk)
  {
    hide Start, Trim, Evict;
    var kept := if who == Ncp then Evict(r.buf, |chunk|) else r.buf;
    assert kept == r.buf[|r.buf| - |kept|..];
    TrimOfSuffix(r.buf, |kept|);
    TrimAppend(kept, chunk);
  }

  lemma FeedIs(k: Checksums, who: Parser, r: Receiver, chunk: seq<byte>)
    requires Fits(who, r) && Admissible(who, chunk)
    ensures var b := Arrived(who, r, chunk);
            var end := r.end + |chunk|;
            Feed(k, who, r, chunk) == Fed(Scan(k, who, b, end - |b|).cuts, Receiver(Leftover(k, who, b), end))
  {
    hide Scan, Leftover, Arrived;
  }

  lemma FeedInStep(k: Checksums, who: Parser, r: Receiver, chunk: seq<byte>, x: seq<byte>)
    requires Fits(who, r) && Admissible(who, chunk) && KeepsLive(who, r, chunk)
    requires InStep(k, who, r, x)
    ensures var f := Feed(k, who, r, chunk);
            InStep(k, who, f.next, x + chunk)
            && Scan(k, who, x + chunk, 0).cuts == Scan(k, who, x, 0).cuts + f.cuts
  {
    hide Start, Trim, Scan, Leftover, KeepsLive, Feed, Arrived;
    FeedIs(k, who, r, chunk);
    var b := Arrived(who, r, chunk);
    var rest := Scan(k, who, x, 0).rest;
    var end := r.end + |chunk|;
    ScanResumes(k, who, x, chunk, 0);
    ArrivedLive(who, r, chunk);
    ScanOfTrim(k, who, b, end - |b|);
    ScanOfTrim(k, who, rest + chunk, |x| - |rest|);
    LeftoverIsLiveRest(k, who, b, end - |b|);
    assert end - |b| + Start(b) == |x| - |rest| + Start(rest + chunk);
  }

  lemma {:induction false} FeedAllInStep(k: Checksums, who: Parser, r: Receiver, chunks: seq<seq<byte>>, x: seq<byte>)
    requires Fits(who, r) && forall i: nat | i < |chunks| :: Admissible(who, chunks[i])
    requires Lossless(k, who, r, chunks)
    requires InStep(k, who, r, x)
    ensures var f := FeedAll(k, who, r, chunks);
            InStep(k, who, f.next, x + Concat(chunks))
            && Scan(k, who, x + Concat(chunks), 0).cuts == Scan(k, who, x, 0).cuts + f.cuts
    decreases |chunks|
  {
    hide Scan, Feed, InStep, KeepsLive;
    if chunks == [] {
      assert x + Concat(chunks) == x;
    } else {
      var one := Feed(k, who, r, chunks[0]);
      FeedInStep(k, who, r, chunks[0], x);
      FeedAllInStep(k, who, one.next, chunks[1..], x + chunks[0]);
      assert x + chunks[0] + Concat(chunks[1..]) == x + Concat(chunks);
      var more := FeedAll(k, who, one.next, chunks[1..]);
      assert (Scan(k, who, x, 0).cuts + one.cuts) + more.cuts == Scan(k, who, x, 0).cuts + (one.cuts + more.cuts);
    }
  }

  lemma FreshInStep(k: Checksums, who: Parser)
    ensures InStep(k, who, FRESH, [])
  {
  }

  /** However a stream is cut into chunks, a receiver that evicts no live byte dispatches the frames of the
      stream and is left with its live rest. */
  lemma ChunkedIsWhole(k: Checksums, who: Parser, chunks: seq<seq<byte>>)
    requires forall i: nat | i < |chunks| :: Admissible(who, chunks[i])
    requires Lossless(k, who, FRESH, chunks)
    ensures var f := FeedAll(k, who, FRESH, chunks);
            var o := Scan(k, who, Concat(chunks), 0);
            f.cuts == o.cuts && Trim(f.next.buf) == o.rest
  {
    hide Scan, Trim;
    FreshInStep(k, who);
    FeedAllInStep(k, who, FRESH, chunks, []);
    assert [] + Concat(chunks) == Concat(chunks);
    ScanStep(k, who, [], 0);
    EmptyScan(k, who);
  }

  lemma EmptyScan(k: Checksums, who: Parser)
    ensures Scan(k, who, [], 0) == Outcome([], [])
  {
  }

  /** Two ways of cutting one stream give the same frames and the same live leftover. */
  lemma ChunkInvariance(k: Checksums, who: Parser, a: seq<seq<byte>>, b: seq<seq<byte>>)
    requires forall i: nat | i < |a| :: Admissible(who, a[i])
    requires forall i: nat | i < |b| :: Admissible(who, b[i])
    requires Concat(a) == Concat(b)
    requires Lossless(k, who, FRESH, a) && Lossless(k, who, FRESH, b)
    ensures FeedAll(k, who, FRESH, a).cuts == FeedAll(k, who, FRESH, b).cuts
    ensures Trim(FeedAll(k, who, FRESH, a).next.buf) == Trim(FeedAll(k, who, FRESH, b).next.buf)
  {
    hide *;
    ChunkedIsWhole(k, who, a);
    ChunkedIsWhole(k, who, b);
  }

  /** Firmware and web page, fed the same stream in chunks of their own, cut the same frames at the same offsets. */
  lemma FirmwareAndPageAgree(k: Checksums, ncp: seq<seq<byte>>, host: seq<seq<byte>>)
    requires forall i: nat | i < |ncp| :: Admissible(Ncp, ncp[i])
    requires forall i: nat | i < |host| :: Admissible(Host, host[i])
    requires Concat(ncp) == Concat(host)
    requires Lossless(k, Ncp, FRESH, ncp)
    ensures FeedAll(k, Ncp, FRESH, ncp).cuts == FeedAll(k, Host, FRESH, host).cuts
  {
    PageIsLossless(k, FRESH, host);
    hide *;
    ChunkedIsWhole(k, Ncp, ncp);
    ChunkedIsWhole(k, Host, host);
    ParsersAgree(k, Concat(ncp), 0);
  }

  lemma {:induction false} PageIsLossless(k: Checksums, r: Receiver, chunks: seq<seq<byte>>)
    requires Fits(Host, r) && forall i: nat | i < |chunks| :: Admissible(Host, chunks[i])
    ensures Lossless(k, Host, r, chunks)
    decreases |chunks|
  {
    hide Feed;
    if chunks != [] {
      PageIsLossless(k, Feed(k, Host, r, chunks[0]).next, chunks[1..]);
    }
  }

  // ---- With evictions ---------------------------------------------------------------------------

  /** The buffer is the end of the stream; every frame cut so far is a valid piece of it, in order, disjoint,
      before the buffer, and never longer than the firmware's buffer. */
  predicate Sound(k: Checksums, who: Parser, x: seq<byte>, cuts: seq<Cut>, r: Receiver) {
    && r.end == |x| && |r.buf| <= |x|
    && r.buf == x[|x| - |r.buf|..]
    && InOrder(cuts)
    && (forall i: nat | i < |cuts| :: GoodCut(k, x, cuts[i]) && End(cuts[i]) <= |x| - |r.buf|)
    && (who == Ncp ==> forall i: nat | i < |cuts| :: |cuts[i].frame| <= RX_BUFFER_SIZE)
  }

  lemma {:induction false} LeftoverIsSuffix(k: Checksums, who: Parser, s: seq<byte>)
    ensures Leftover(k, who, s) == s[|s| - |Leftover(k, who, s)|..]
    decreases |s|
  {
    LeftoverStep(k, who, s);
    TrimIs(s);
    hide *;
    var t := Trim(s);
    match Decide(k, who, t)
    case Wait =>
    case Skip => LeftoverIsSuffix(k, who, t[2..]);
    case Take(n) => LeftoverIsSuffix(k, who, t[n..]);
  }

  predicate Before(c: Cut, end: nat, size: nat) {
    End(c) <= end && |c.frame| <= size
  }

  /** The loop never leaves behind a byte of a frame it has cut. */
  lemma {:induction false} CutsBeforeLeftover(k: Checksums, who: Parser, s: seq<byte>, at: nat)
    ensures forall c | c in Scan(k, who, s, at).cuts :: Before(c, at + |s| - |Leftover(k, who, s)|, |s|)
    decreases |s|
  {
    LeftoverStep(k, who, s);
    hide *;
    var t := Trim(s);
    var p := at + Start(s);
    ScanStep(k, who, s, at);
    match Decide(k, who, t)
    case Wait =>
    case Skip =>
      CutsBeforeLeftover(k, who, t[2..], p + 2);
      BeforeWeakens(Scan(k, who, t[2..], p + 2).cuts, at + |s| - |Leftover(k, who, s)|, |t| - 2, |s|);
    case Take(n) =>
      CutsBeforeLeftover(k, who, t[n..], p + n);
      BeforeWeakens(Scan(k, who, t[n..], p + n).cuts, at + |s| - |Leftover(k, who, s)|, |t| - n, |s|);
      FirstBefore(Cut(p, t[..n]), at + |s| - |Leftover(k, who, s)|, |s|);
  }

  lemma BeforeWeakens(cuts: seq<Cut>, end: nat, size: nat, more: nat)
    requires size <= more
    requires forall c | c in cuts :: Before(c, end, size)
    ensures forall c | c in cuts :: Before(c, end, more)
  {
  }

  lemma FirstBefore(c: Cut, end: nat, size: nat)
    requires c.at + |c.frame| <= end && |c.frame| <= size
    ensures Before(c, end, size)
  {
  }

  lemma GoodCutInLongerStream(k: Checksums, x: seq<byte>, y: seq<byte>, c: Cut)
    requires GoodCut(k, x, c)
    ensures GoodCut(k, x + y, c)
  {
    hide HeaderOk;
    assert (x + y)[c.at..End(c)] == x[c.at..End(c)];
    assert (x + y)[c.at..] == x[c.at..] + y;
    HeaderOkAppend(k, x[c.at..], y);
  }

  lemma JoinedInOrder(a: seq<Cut>, b: seq<Cut>, at: nat)
    requires InOrder(a) && (forall i: nat | i < |a| :: End(a[i]) <= at)
    requires InOrder(b) && (forall j: nat | j < |b| :: at <= b[j].at)
    ensures InOrder(a + b)
  {
    var all := a + b;
    forall i: nat, j: nat | i < j < |all|
      ensures End(all[i]) <= all[j].at
    {
      assert i < |a| ==> all[i] == a[i];
      assert i >= |a| ==> all[i] == b[i - |a|];
      assert j < |a| ==> all[j] == a[j];
      assert j >= |a| ==> all[j] == b[j - |a|];
    }
  }

  lemma FeedSound(k: Checksums, who: Parser, x: seq<byte>, cuts: seq<Cut>, r: Receiver, chunk: seq<byte>)
    requires Fits(who, r) && Admissible(who, chunk)
    requires Sound(k, who, x, cuts, r)
    ensures var f := Feed(k, who, r, chunk);
            Sound(k, who, x + chunk, cuts + f.cuts, f.next)
  {
    hide Scan, Leftover, GoodCut, HeaderAt, InOrder, Covered;
    var f := Feed(k, who, r, chunk);
    var b := Arrived(who, r, chunk);
    var s := x + chunk;
    var at := |s| - |b|;
    assert b == s[at..];
    FramesFrom(k, who, s, at);
    CutsBeforeLeftover(k, who, b, at);
    LeftoverIsSuffix(k, who, b);
    var all := cuts + f.cuts;
    forall i: nat | i < |all|
      ensures GoodCut(k, s, all[i]) && End(all[i]) <= |s| - |f.next.buf|
      ensures who == Ncp ==> |all[i].frame| <= RX_BUFFER_SIZE
    {
      if i < |cuts| {
        assert all[i] == cuts[i];
        GoodCutInLongerStream(k, x, chunk, cuts[i]);
      } else {
        assert all[i] == f.cuts[i - |cuts|];
        assert all[i] in Scan(k, who, b, at).cuts;
        assert Before(all[i], |s| - |f.next.buf|, |b|);
      }
    }
    JoinedInOrder(cuts, f.cuts, at);
  }

  lemma {:induction false} FeedAllSound(k: Checksums, who: Parser, x: seq<byte>, cuts: seq<Cut>, r: Receiver,
                                        chunks: seq<seq<byte>>)
    requires Fits(who, r) && forall i: nat | i < |chunks| :: Admissible(who, chunks[i])
    requires Sound(k, who, x, cuts, r)
    ensures var f := FeedAll(k, who, r, chunks);
            Sound(k, who, x + Concat(chunks), cuts + f.cuts, f.next)
    decreases |chunks|
  {
    hide Sound, Feed;
    if chunks == [] {
      assert x + Concat(chunks) == x && cuts + [] == cuts;
    } else {
      var one := Feed(k, who, r, chunks[0]);
      FeedSound(k, who, x, cuts, r, chunks[0]);
      FeedAllSound(k, who, x + chunks[0], cuts + one.cuts, one.next, chunks[1..]);
      assert x + chunks[0] + Concat(chunks[1..]) == x + Concat(chunks);
      var more := FeedAll(k, who, one.next, chunks[1..]);
      assert (cuts + one.cuts) + more.cuts == cuts + (one.cuts + more.cuts);
    }
  }

  /** With or without evictions, after any chunks at all: the buffer is a suffix of the input and the
      dispatched frames are disjoint, in-order, valid pieces of it, at most 1024 bytes each. */
  lemma AlwaysSound(k: Checksums, who: Parser, chunks: seq<seq<byte>>)
    requires forall i: nat | i < |chunks| :: Admissible(who, chunks[i])
    ensures var f := FeedAll(k, who, FRESH, chunks);
            Sound(k, who, Concat(chunks), f.cuts, f.next)
  {
    FeedAllSound(k, who, [], [], FRESH, chunks);
    assert [] + Concat(chunks) == Concat(chunks);
    var f := FeedAll(k, who, FRESH, chunks);
    assert [] + f.cuts == f.cuts;
  }

  /** What eviction costs, exactly: when the live part of the buffer is the beginning of a frame and the next
      chunk brings the rest of it, the frame is dispatched from its first byte if and only if the live bytes
      and the whole chunk fit into the buffer. */
  lemma PendingFrameSurvives(k: Checksums, r: Receiver, f: seq<byte>, n: nat, y: seq<byte>)
    requires Fits(Ncp, r)
    requires IsFrame(k, f) && n < |f|
    requires Trim(r.buf) == f[..n]
    requires |f[n..] + y| <= RX_BUFFER_SIZE
    ensures var at := r.end - n;
            at >= 0 && (Cut(at, f) in Feed(k, Ncp, r, f[n..] + y).cuts <==> n + |f[n..] + y| <= RX_BUFFER_SIZE)
  {
    hide Scan, Leftover, Start, HeaderAt;
    var chunk := f[n..] + y;
    var at := r.end - n;
    var b := Arrived(Ncp, r, chunk);
    var from := r.end + |chunk| - |b|;
    var cuts := Scan(k, Ncp, b, from).cuts;
    if n + |chunk| <= RX_BUFFER_SIZE {
      ArrivedLive(Ncp, r, chunk);
      assert f[..n] + chunk == f + y;
      FrameComesFirst(k, Ncp, f, y);
      ScanOfTrim(k, Ncp, b, from);
      ScanStep(k, Ncp, f + y, at);
      assert cuts[0] == Cut(at, f);
    } else {
      assert at < from;
      CutsFrom(k, Ncp, b, from);
    }
  }

  lemma {:induction false} CutsFrom(k: Checksums, who: Parser, s: seq<byte>, at: nat)
    ensures forall c | c in Scan(k, who, s, at).cuts :: at <= c.at
    decreases |s|
  {
    hide *;
    var t := Trim(s);
    var p := at + Start(s);
    ScanStep(k, who, s, at);
    match Decide(k, who, t)
    case Wait =>
    case Skip => CutsFrom(k, who, t[2..], p + 2);
    case Take(n) => CutsFrom(k, who, t[n..], p + n);
  }
}
