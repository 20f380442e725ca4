/** The routing gate in front of the link: the bytes it drops before the first DE AD belong to no frame. */
module GatedFrames {
  import opened Bytes
  import opened Framing
  import opened Reassembly
  import P = Protocol
  import R = RoutingGate

  // ---- The gate and the parsers search alike ----------------------------------------------------

  lemma SignatureIsStart(s: seq<byte>)
    requires R.FirstSignature(s) < |s|
    ensures Start(s) == R.FirstSignature(s) && Trim(s) == R.Qualified(s)
  {
    hide Start, R.FirstSignature;
    var r := R.FirstSignature(s);
    assert R.Signature(s, r);
    forall i: nat | i < r
      ensures !Plausible(s, i)
    {
      assert !R.Signature(s, i);
    }
    StartIs(s, r);
  }

  /** Without a signature the parsers wait for the byte behind a final DE, or for anything. */
  lemma NoSignatureNoFrame(k: Checksums, who: Parser, s: seq<byte>, at: nat)
    requires R.FirstSignature(s) == |s|
    ensures Scan(k, who, s, at).cuts == []
  {
    hide Start, R.FirstSignature, Scan, Decide;
    var r := Start(s);
    assert r < |s| ==> Plausible(s, r) && !R.Signature(s, r);
    ShortWaits(k, who, Trim(s));
    ScanStep(k, who, s, at);
  }

  /** The stream from its first DE AD on has the frames of the stream, at the same offsets. */
  lemma GateKeepsFrames(k: Checksums, who: Parser, s: seq<byte>)
    ensures Scan(k, who, R.Qualified(s), R.FirstSignature(s)).cuts == Scan(k, who, s, 0).cuts
  {
    hide Start, Trim, R.FirstSignature, Scan;
    if R.FirstSignature(s) < |s| {
      SignatureIsStart(s);
      ScanOfTrim(k, who, s, 0);
    } else {
      NoSignatureNoFrame(k, who, s, 0);
      NoFrames(k, who, R.FirstSignature(s));
    }
  }

  lemma NoFrames(k: Checksums, who: Parser, at: nat)
    ensures Scan(k, who, [], at).cuts == []
  {
  }

  /** With one interface talking, in any reads: the pumped bytes have exactly the frames of what it received. */
  lemma PumpedFrames(k: Checksums, who: Parser, log: seq<R.Read>, i: R.Iface)
    requires R.Chunks(log) && forall j: nat | j < |log| :: log[j].iface == i
    ensures var x := R.Stream(log, i);
            Scan(k, who, R.Pumped(R.Gated(log).segments), R.FirstSignature(x)).cuts == Scan(k, who, x, 0).cuts
  {
    hide Scan, R.FirstSignature, R.Pumped, R.Gated, R.Stream;
    R.PumpedIsQualified(log, i);
    GateKeepsFrames(k, who, R.Stream(log, i));
  }

  // ---- From the reads to the application --------------------------------------------------------

  /** Where a stream begins does not matter for its frames. */
  lemma {:induction false} FramesAnywhere(k: Checksums, who: Parser, s: seq<byte>, a: nat, b: nat)
    ensures P.Frames(Scan(k, who, s, a).cuts) == P.Frames(Scan(k, who, s, b).cuts)
    decreases |s|
  {
    hide Start, Trim, Scan, Decide;
    ScanStep(k, who, s, a);
    ScanStep(k, who, s, b);
    var t, r := Trim(s), Start(s);
    match Decide(k, who, t) {
      case Wait =>
      case Skip =>
        FramesAnywhere(k, who, t[2..], a + r + 2, b + r + 2);
      case Take(n) =>
        FramesAnywhere(k, who, t[n..], a + r + n, b + r + n);
        FirstFrame(Cut(a + r, t[..n]), Scan(k, who, t[n..], a + r + n).cuts);
        FirstFrame(Cut(b + r, t[..n]), Scan(k, who, t[n..], b + r + n).cuts);
    }
  }

  lemma FirstFrame(c: Cut, cuts: seq<Cut>)
    ensures P.Frames([c] + cuts) == [c.frame] + P.Frames(cuts)
  {
  }

  /** The link looks at the frames, not at their offsets. */
  lemma {:induction false} OffsetsDoNotMatter(k: Checksums, app: P.App, l: P.Link, a: seq<Cut>, b: seq<Cut>)
    requires P.WellFormed(l) && P.Frames(a) == P.Frames(b)
    requires forall i: nat | i < |a| :: HEADER_SIZE <= |a[i].frame|
    ensures |a| == |b| && forall i: nat | i < |b| :: HEADER_SIZE <= |b[i].frame|
    ensures P.HandlesAll(k, app, l, a) == P.HandlesAll(k, app, l, b)
    decreases |a|
  {
    hide P.Handles;
    assert |P.Frames(a)| == |P.Frames(b)|;
    assert forall i: nat | i < |b| :: b[i].frame == P.Frames(b)[i] == P.Frames(a)[i] == a[i].frame;
    if a != [] {
      FirstFrame(a[0], a[1..]);
      FirstFrame(b[0], b[1..]);
      assert a == [a[0]] + a[1..] && b == [b[0]] + b[1..];
      assert P.Frames(a)[1..] == P.Frames(a[1..]) && P.Frames(b)[1..] == P.Frames(b[1..]);
      OffsetsDoNotMatter(k, app, P.Handles(k, app, l, a[0].frame), a[1..], b[1..]);
    }
  }

  /** However the interface's bytes are cut into reads, and the pumped bytes into chunks that evict no live byte: the
      link does what it does with the frames of all the bytes received. */
  lemma LinkSeesStream(k: Checksums, app: P.App, l: P.Link, log: seq<R.Read>, i: R.Iface, chunks: seq<seq<byte>>,
                       m: P.Link)
    requires R.Chunks(log) && forall j: nat | j < |log| :: log[j].iface == i
    requires P.WellFormed(l) && P.Gets(k, app, l, R.Pumped(R.Gated(log).segments), chunks, m)
    ensures var cuts := Scan(k, Ncp, R.Stream(log, i), 0).cuts;
            && (forall j: nat | j < |cuts| :: HEADER_SIZE <= |cuts[j].frame|)
            && m == P.HandlesAll(k, app, l, cuts)
  {
    hide Scan, R.FirstSignature, R.Pumped, R.Gated, R.Stream, P.Gets, P.HandlesAll, P.Frames;
    var x, y := R.Stream(log, i), R.Pumped(R.Gated(log).segments);
    PumpedFrames(k, Ncp, log, i);
    FramesAnywhere(k, Ncp, y, 0, R.FirstSignature(x));
    P.GetsHandles(k, app, l, y, chunks, m);
    OffsetsDoNotMatter(k, app, l, Scan(k, Ncp, y, 0).cuts, Scan(k, Ncp, x, 0).cuts);
  }
}
