/** The routing gate of main/transport.cpp: host bytes enter the shared stream only from the interface that last
    showed a frame signature, which may straddle two reads. */
module RoutingGate {
  import opened Bytes

  datatype Iface = Usb | Uart

  datatype Active = Nobody | Talks(iface: Iface)

  /** What was pumped between two takeovers. */
  datatype Segment = Segment(iface: Iface, bytes: seq<byte>)

  datatype Gate = Gate(active: Active, usbPendingDe: bool, uartPendingDe: bool, segments: seq<Segment>)

  const BOOT := Gate(Nobody, false, false, [])

  predicate Signature(s: seq<byte>, i: nat) {
    i + 1 < |s| && s[i] == 0xde && s[i + 1] == 0xad
  }

  /** Position of the first DE AD, the length if there is none. */
  function FirstSignature(s: seq<byte>): (r: nat)
    ensures r <= |s|
    ensures forall i: nat | i < r :: !Signature(s, i)
    ensures r < |s| ==> Signature(s, r)
  {
    if s == [] || Signature(s, 0) then
      0
    else
      assert forall i: nat | 1 <= i :: Signature(s, i) == Signature(s[1..], i - 1);
      1 + FirstSignature(s[1..])
  }

  /** The stream from its first signature on. */
  function Qualified(s: seq<byte>): seq<byte> {
    s[FirstSignature(s)..]
  }

  lemma FirstSignatureIs(s: seq<byte>, r: nat)
    requires r <= |s|
    requires forall i: nat | i < r :: !Signature(s, i)
    requires r < |s| ==> Signature(s, r)
    ensures FirstSignature(s) == r
  {
    var q := FirstSignature(s);
    assert q < |s| ==> Signature(s, q);
    assert r < |s| ==> Signature(s, r);
  }

  predicate EndsInDe(s: seq<byte>) {
    s != [] && s[|s| - 1] == 0xde
  }

  function Pending(g: Gate, i: Iface): bool {
    if i == Usb then g.usbPendingDe else g.uartPendingDe
  }

  function WithPending(g: Gate, i: Iface, de: bool): Gate {
    if i == Usb then g.(usbPendingDe := de) else g.(uartPendingDe := de)
  }

  function Extend(segments: seq<Segment>, bytes: seq<byte>): (r: seq<Segment>)
    requires segments != []
    ensures |r| == |segments|
  {
    var n := |segments| - 1;
    segments[n := segments[n].(bytes := segments[n].bytes + bytes)]
  }

  /** The chunk with the DE that ended the previous read put back. */
  function Seen(pendingDe: bool, chunk: seq<byte>): (s: seq<byte>) {
    if pendingDe then [0xde] + chunk else chunk
  }

  /** One read of `chunk` on interface `i`: the active one is pumped through, another one takes over as soon as
      its bytes, with the DE that ended its previous read put back, show a signature. */
  function Reads(g: Gate, i: Iface, chunk: seq<byte>): (h: Gate)
    requires chunk != [] && (g.active == Talks(i) ==> g.segments != [])
  {
    if g.active == Talks(i) then
      WithPending(g, i, EndsInDe(chunk)).(segments := Extend(g.segments, chunk))
    else
      var found := Qualified(Seen(Pending(g, i), chunk));
      if found == [] then
        WithPending(g, i, EndsInDe(chunk))
      else
        WithPending(g, i, false).(active := Talks(i), segments := g.segments + [Segment(i, found)])
  }

  // ---- The code ---------------------------------------------------------------------------------

  /** The routing state of class transport; `pumped` is what rx_pump has been handed. */
  class Transport {
    var active: Active
    var usbPendingDe: bool
    var uartPendingDe: bool
    var pumped: seq<byte>
    ghost var segments: seq<Segment>

    ghost function State(): Gate
      reads this
    {
      Gate(active, usbPendingDe, uartPendingDe, segments)
    }

    ghost predicate Valid()
      reads this
    {
      pumped == Pumped(segments) && (active != Nobody ==> segments != [])
    }

    constructor ()
      ensures Valid() && State() == BOOT
    {
      active, usbPendingDe, uartPendingDe, pumped := Nobody, false, false, [];
      segments := [];
    }

    method RxPump(data: seq<byte>)
      requires pumped == Pumped(segments) && segments != []
      modifies this`pumped, this`segments
      ensures segments == Extend(old(segments), data) && pumped == Pumped(segments)
    {
      PumpedExtend(segments, data);
      pumped := pumped + data;
      segments := Extend(segments, data);
    }

    method SetPending(i: Iface, de: bool)
      modifies this`usbPendingDe, this`uartPendingDe
      ensures State() == WithPending(old(State()), i, de)
    {
      if i == Usb {
        usbPendingDe := de;
      } else {
        uartPendingDe := de;
      }
    }

    /** The search loop of rx_qualified_pump; -1 if there is no signature. */
    method FindSignature(data: seq<byte>) returns (sig: int)
      ensures sig == -1 ==> FirstSignature(data) == |data|
      ensures sig != -1 ==> 0 <= sig < |data| && sig == FirstSignature(data)
    {
      sig := -1;
      var i := 0;
      while i + 1 < |data|
        invariant 0 <= i <= |data|
        invariant forall j: nat | j < i :: !Signature(data, j)
      {
        if data[i] == 0xde && data[i + 1] == 0xad {
          FirstSignatureIs(data, i);
          sig := i;
          return;
        }
        i := i + 1;
      }
      FirstSignatureIs(data, |data|);
    }

    /** Where the chunk shows a signature: -1 if nowhere; `spans` if its DE came with the previous read. */
    method Search(pendingDe: bool, data: seq<byte>) returns (spans: bool, sig: int)
      requires data != []
      ensures var found := Qualified(Seen(pendingDe, data));
              if spans then found == [0xde] + data
              else if sig == -1 then found == []
              else 0 <= sig < |data| && found == data[sig..]
    {
      hide FirstSignature;
      spans, sig := pendingDe && data[0] == 0xad, -1;
      if spans {
        SpanningSignature(data);
      } else {
        sig := FindSignature(data);
        NotSpanning(pendingDe, data);
      }
    }

    /** rx_qualified_pump. */
    method RxQualifiedPump(iface: Iface, data: seq<byte>)
      requires Valid() && data != []
      modifies this
      ensures Valid() && State() == Reads(old(State()), iface, data)
    {
      hide FirstSignature, Pumped, Extend, Seen, Qualified, Signature;
      if active == Talks(iface) {
        SetPending(iface, data[|data| - 1] == 0xde);
        RxPump(data);
        return;
      }
      var pendingDe := if iface == Usb then usbPendingDe else uartPendingDe;
      var spans, sig := Search(pendingDe, data);
      if !spans && sig < 0 {
        SetPending(iface, data[|data| - 1] == 0xde);
        return;
      }
      SetPending(iface, false);
      TakeRoute(iface, spans, if spans then data else data[sig..]);
    }

    /** The interface becomes the active one; the DE of a spanning signature was swallowed with the previous read. */
    method TakeRoute(iface: Iface, spans: bool, data: seq<byte>)
      requires Valid()
      modifies this`active, this`pumped, this`segments
      ensures Valid() && active == Talks(iface)
      ensures segments == old(segments) + [Segment(iface, if spans then [0xde] + data else data)]
    {
      hide Pumped, Extend;
      active := Talks(iface);
      TakeOver(iface);
      if spans {
        RxPump([0xde]);
        RxPump(data);
        ExtendTwice(old(segments), iface, [0xde], data);
      } else {
        RxPump(data);
        ExtendOnce(old(segments), iface, data);
      }
    }

    ghost method TakeOver(iface: Iface)
      requires pumped == Pumped(segments)
      modifies this`segments
      ensures segments == old(segments) + [Segment(iface, [])] && pumped == Pumped(segments)
    {
      PumpedAppend(segments, Segment(iface, []));
      segments := segments + [Segment(iface, [])];
    }
  }

  function Pumped(segments: seq<Segment>): (s: seq<byte>)
  {
    if segments == [] then [] else Pumped(segments[..|segments| - 1]) + segments[|segments| - 1].bytes
  }

  lemma PumpedAppend(segments: seq<Segment>, s: Segment)
    ensures Pumped(segments + [s]) == Pumped(segments) + s.bytes
  {
    assert (segments + [s])[..|segments|] == segments;
  }

  lemma PumpedExtend(segments: seq<Segment>, data: seq<byte>)
    requires segments != []
    ensures Pumped(Extend(segments, data)) == Pumped(segments) + data
  {
    var n := |segments| - 1;
    assert Extend(segments, data)[..n] == segments[..n];
  }

  lemma SpanningSignature(data: seq<byte>)
    requires data != [] && data[0] == 0xad
    ensures Qualified([0xde] + data) == [0xde] + data
  {
    FirstSignatureIs([0xde] + data, 0);
  }

  lemma ExtendOnce(segments: seq<Segment>, i: Iface, data: seq<byte>)
    ensures Extend(segments + [Segment(i, [])], data) == segments + [Segment(i, data)]
  {
    assert [] + data == data;
  }

  lemma ExtendTwice(segments: seq<Segment>, i: Iface, a: seq<byte>, b: seq<byte>)
    ensures Extend(Extend(segments + [Segment(i, [])], a), b) == segments + [Segment(i, a + b)]
  {
    ExtendOnce(segments, i, a);
  }

  /** A DE put back in front of something other than AD changes nothing. */
  lemma NotSpanning(pendingDe: bool, data: seq<byte>)
    requires data != [] && !(pendingDe && data[0] == 0xad)
    ensures Qualified(Seen(pendingDe, data)) == Qualified(data)
  {
    hide FirstSignature;
    if pendingDe {
      var s := [0xde] + data;
      var r := FirstSignature(data);
      forall i: nat | i < 1 + r
        ensures !Signature(s, i)
      {
        if 0 < i {
          assert !Signature(data, i - 1);
        }
      }
      assert r < |data| ==> Signature(data, r);
      FirstSignatureIs(s, 1 + r);
    }
  }

  // ---- Whole runs -------------------------------------------------------------------------------

  datatype Read = Read(iface: Iface, chunk: seq<byte>)

  predicate Chunks(log: seq<Read>) {
    forall i: nat | i < |log| :: log[i].chunk != []
  }

  /** The gate after the reads since boot. */
  function Gated(log: seq<Read>): (g: Gate)
    requires Chunks(log)
    ensures g.active != Nobody ==> g.segments != []
  {
    if log == [] then
      BOOT
    else
      var n := |log| - 1;
      Reads(Gated(log[..n]), log[n].iface, log[n].chunk)
  }

  /** Everything interface `i` has received. */
  function Stream(log: seq<Read>, i: Iface): (s: seq<byte>) {
    if log == [] then
      []
    else
      var n := |log| - 1;
      Stream(log[..n], i) + (if log[n].iface == i then log[n].chunk else [])
  }

  lemma QualifiedDrop(s: seq<byte>, from: nat)
    requires from <= |s| && forall i: nat | i < from :: !Signature(s, i)
    ensures Qualified(s[from..]) == Qualified(s)
  {
    hide FirstSignature;
    var t := s[from..];
    var r := FirstSignature(t);
    forall i: nat | i < from + r
      ensures !Signature(s, i)
    {
      if from <= i {
        assert !Signature(t, i - from);
      }
    }
    assert r < |t| ==> Signature(t, r);
    FirstSignatureIs(s, from + r);
  }

  lemma NoSignatureAppears(x: seq<byte>, chunk: seq<byte>, i: nat)
    requires i < |x| && !Signature(x, i) && (i + 1 == |x| ==> x[i] != 0xde)
    ensures !Signature(x + chunk, i)
  {
    var s := x + chunk;
    assert s[i] == x[i];
    if i + 1 < |x| {
      assert s[i + 1] == x[i + 1];
    }
  }

  lemma SeenIsSuffix(x: seq<byte>, chunk: seq<byte>)
    ensures Seen(EndsInDe(x), chunk) == (x + chunk)[if EndsInDe(x) then |x| - 1 else |x|..]
  {
  }

  /** The DE that ended the stream so far is all the matcher needs to remember. */
  lemma Straddle(x: seq<byte>, chunk: seq<byte>)
    requires FirstSignature(x) == |x|
    ensures Qualified(x + chunk) == Qualified(Seen(EndsInDe(x), chunk))
  {
    hide FirstSignature, Qualified, Seen, Signature;
    var from := if EndsInDe(x) then |x| - 1 else |x|;
    forall i: nat | i < from
      ensures !Signature(x + chunk, i)
    {
      NoSignatureAppears(x, chunk, i);
    }
    SeenIsSuffix(x, chunk);
    QualifiedDrop(x + chunk, from);
  }

  lemma QualifiedGrows(x: seq<byte>, chunk: seq<byte>)
    requires FirstSignature(x) < |x|
    ensures Qualified(x + chunk) == Qualified(x) + chunk
    ensures FirstSignature(x + chunk) < |x + chunk|
  {
    hide FirstSignature;
    var r := FirstSignature(x);
    forall i: nat | i < r
      ensures !Signature(x + chunk, i)
    {
      assert !Signature(x, i);
    }
    assert Signature(x, r);
    FirstSignatureIs(x + chunk, r);
  }

  /** With one interface talking, what is pumped is exactly its stream from the first DE AD on, however the
      stream is cut into reads. */
  lemma {:induction false} OnlyOneTalks(log: seq<Read>, i: Iface)
    requires Chunks(log) && forall j: nat | j < |log| :: log[j].iface == i
    ensures var g := Gated(log);
            var x := Stream(log, i);
            if Qualified(x) == [] then
              g.active == Nobody && g.segments == [] && Pending(g, i) == EndsInDe(x)
            else
              g.active == Talks(i) && g.segments == [Segment(i, Qualified(x))]
  {
    hide FirstSignature, Seen, EndsInDe;
    if log == [] {
      NothingRead();
    } else {
      var n := |log| - 1;
      var chunk := log[n].chunk;
      var x := Stream(log[..n], i);
      OnlyOneTalks(log[..n], i);
      if Qualified(x) == [] {
        Straddle(x, chunk);
        LastDe(x, chunk);
      } else {
        QualifiedGrows(x, chunk);
      }
    }
  }

  lemma NothingRead()
    ensures Qualified([]) == [] && !EndsInDe([])
  {
  }

  lemma LastDe(x: seq<byte>, chunk: seq<byte>)
    requires chunk != []
    ensures EndsInDe(x + chunk) == EndsInDe(chunk)
  {
  }

  /** The bytes pumped through a chunked reading of one interface. */
  lemma PumpedIsQualified(log: seq<Read>, i: Iface)
    requires Chunks(log) && forall j: nat | j < |log| :: log[j].iface == i
    ensures Pumped(Gated(log).segments) == Qualified(Stream(log, i))
  {
    OnlyOneTalks(log, i);
    PumpedAppend([], Segment(i, Qualified(Stream(log, i))));
    assert [] + [Segment(i, Qualified(Stream(log, i)))] == [Segment(i, Qualified(Stream(log, i)))];
  }

  // ---- Two interfaces ---------------------------------------------------------------------------

  /** The segment starts with a signature and is one piece of what its interface received. */
  ghost predicate Traced(s: Segment, stream: seq<byte>) {
    Signature(s.bytes, 0) && exists p: nat :: At(stream, p, s.bytes)
  }

  predicate Suffix(stream: seq<byte>, s: seq<byte>) {
    |s| <= |stream| && stream[|stream| - |s|..] == s
  }

  /** The bytes that have arrived on the two interfaces. */
  datatype Streams = Streams(usb: seq<byte>, uart: seq<byte>)

  function Of(x: Streams, i: Iface): seq<byte> {
    if i == Usb then x.usb else x.uart
  }

  function Arrive(x: Streams, i: Iface, chunk: seq<byte>): (y: Streams)
    ensures Of(y, i) == Of(x, i) + chunk
    ensures forall j | j != i :: Of(y, j) == Of(x, j)
  {
    if i == Usb then x.(usb := x.usb + chunk) else x.(uart := x.uart + chunk)
  }

  ghost predicate AllTraced(g: Gate, x: Streams) {
    && (forall j: nat | j < |g.segments| :: Traced(g.segments[j], Of(x, g.segments[j].iface)))
    && (forall j: nat | j + 1 < |g.segments| :: g.segments[j].iface != g.segments[j + 1].iface)
    && (forall i | Pending(g, i) :: EndsInDe(Of(x, i)))
    && match g.active
       case Nobody => g.segments == []
       case Talks(i) =>
         g.segments != [] &&
         var last := g.segments[|g.segments| - 1];
         last.iface == i && Suffix(Of(x, i), last.bytes)
  }

  lemma TracedGrows(s: Segment, stream: seq<byte>, chunk: seq<byte>)
    requires Traced(s, stream)
    ensures Traced(s, stream + chunk)
  {
    hide FirstSignature;
    hide Signature;
    var p: nat :| At(stream, p, s.bytes);
    var n := p + |s.bytes|;
    assert (stream + chunk)[p..n] == stream[p..n];
    assert At(stream + chunk, p, s.bytes);
  }

  lemma SuffixTraced(s: Segment, stream: seq<byte>)
    requires Suffix(stream, s.bytes) && Signature(s.bytes, 0)
    ensures Traced(s, stream)
  {
    hide FirstSignature;
    assert At(stream, |stream| - |s.bytes|, s.bytes);
  }

  lemma FoundIsSuffix(de: bool, stream: seq<byte>, chunk: seq<byte>)
    requires de ==> EndsInDe(stream)
    ensures Suffix(stream + chunk, Qualified(Seen(de, chunk)))
    ensures Qualified(Seen(de, chunk)) != [] ==> Signature(Qualified(Seen(de, chunk)), 0)
  {
    hide FirstSignature;
    var seen := Seen(de, chunk);
    var whole := stream + chunk;
    assert seen == whole[|whole| - |seen|..];
    var r := FirstSignature(seen);
    assert r < |seen| ==> Signature(seen, r);
    assert seen[r..] == whole[|whole| - |seen| + r..];
  }

  lemma OldSegmentsTraced(segments: seq<Segment>, x: Streams, i: Iface, chunk: seq<byte>)
    requires forall j: nat | j < |segments| :: Traced(segments[j], Of(x, segments[j].iface))
    ensures forall j: nat | j < |segments| :: Traced(segments[j], Of(Arrive(x, i, chunk), segments[j].iface))
  {
    hide Traced, Of, Arrive;
    forall j: nat | j < |segments|
      ensures Traced(segments[j], Of(Arrive(x, i, chunk), segments[j].iface))
    {
      if segments[j].iface == i {
        TracedGrows(segments[j], Of(x, i), chunk);
      }
    }
  }

  lemma PumpingKeepsTraced(g: Gate, x: Streams, i: Iface, chunk: seq<byte>)
    requires AllTraced(g, x) && chunk != [] && g.active == Talks(i)
    ensures AllTraced(Reads(g, i, chunk), Arrive(x, i, chunk))
  {
    hide Traced, Of, Arrive, EndsInDe;
    var n := |g.segments| - 1;
    var last := g.segments[n];
    var h := Reads(g, i, chunk);
    OldSegmentsTraced(g.segments, x, i, chunk);
    LastDe(Of(x, i), chunk);
    LastGrows(last, Of(x, i), chunk);
    assert h.segments == g.segments[n := last.(bytes := last.bytes + chunk)];
    assert forall j: nat | j < n :: h.segments[j] == g.segments[j];
  }

  lemma LastGrows(last: Segment, stream: seq<byte>, chunk: seq<byte>)
    requires Traced(last, stream) && Suffix(stream, last.bytes)
    ensures Suffix(stream + chunk, last.bytes + chunk)
    ensures Traced(last.(bytes := last.bytes + chunk), stream + chunk)
  {
    assert (stream + chunk)[|stream| - |last.bytes|..] == stream[|stream| - |last.bytes|..] + chunk;
    LastIsSigned(last, stream, chunk);
    SuffixTraced(last.(bytes := last.bytes + chunk), stream + chunk);
  }

  lemma TakeoverKeepsTraced(g: Gate, x: Streams, i: Iface, chunk: seq<byte>)
    requires AllTraced(g, x) && chunk != [] && g.active != Talks(i)
    ensures AllTraced(Reads(g, i, chunk), Arrive(x, i, chunk))
  {
    hide Traced, Of, Arrive, EndsInDe, Qualified, Seen, Suffix, Signature;
    OldSegmentsTraced(g.segments, x, i, chunk);
    LastDe(Of(x, i), chunk);
    FoundIsSuffix(Pending(g, i), Of(x, i), chunk);
    var found := Qualified(Seen(Pending(g, i), chunk));
    var h := Reads(g, i, chunk);
    if found != [] {
      SuffixTraced(Segment(i, found), Of(x, i) + chunk);
      var n := |g.segments|;
      assert h.segments == g.segments + [Segment(i, found)];
      assert forall j: nat | j < n :: h.segments[j] == g.segments[j];
      assert n > 0 ==> h.segments[n - 1].iface != i;
    } else {
      assert h.segments == g.segments && h.active == g.active;
    }
  }

  lemma ReadKeepsTraced(g: Gate, x: Streams, i: Iface, chunk: seq<byte>)
    requires AllTraced(g, x) && chunk != []
    ensures AllTraced(Reads(g, i, chunk), Arrive(x, i, chunk))
  {
    hide AllTraced, Reads, Arrive;
    if g.active == Talks(i) {
      PumpingKeepsTraced(g, x, i, chunk);
    } else {
      TakeoverKeepsTraced(g, x, i, chunk);
    }
  }

  lemma LastIsSigned(s: Segment, stream: seq<byte>, chunk: seq<byte>)
    requires Traced(s, stream)
    ensures Signature(s.bytes + chunk, 0)
  {
  }

  /** Whoever talks in whatever order: every run of bytes pumped after a takeover starts with DE AD and is one
      piece of what that interface received; the active interface's bytes are pumped to the last. */
  lemma {:induction false} SegmentsAreSigned(log: seq<Read>)
    requires Chunks(log)
    ensures AllTraced(Gated(log), Streams(Stream(log, Usb), Stream(log, Uart)))
  {
    hide Reads, Traced, EndsInDe;
    if log == [] {
    } else {
      var n := |log| - 1;
      SegmentsAreSigned(log[..n]);
      var usb, uart := Stream(log[..n], Usb), Stream(log[..n], Uart);
      ReadKeepsTraced(Gated(log[..n]), Streams(usb, uart), log[n].iface, log[n].chunk);
      assert usb + [] == usb && uart + [] == uart;
    }
  }

  /** The last read of `i` made it the active interface. */
  predicate JustTookOver(log: seq<Read>, i: Iface)
    requires Chunks(log)
  {
    log != [] &&
    var n := |log| - 1;
    if log[n].iface == i then
      Gated(log[..n]).active != Talks(i) && Gated(log).active == Talks(i)
    else
      JustTookOver(log[..n], i)
  }

  lemma PendingStep(g: Gate, j: Iface, chunk: seq<byte>, i: Iface)
    requires chunk != [] && (g.active == Talks(j) ==> g.segments != [])
    ensures var h := Reads(g, j, chunk);
            Pending(h, i) <==>
            if j == i then EndsInDe(chunk) && !(g.active != Talks(i) && h.active == Talks(i)) else Pending(g, i)
  {
    hide FirstSignature, Qualified, EndsInDe, Seen, Extend;
  }

  /** When the matcher remembers a final DE, exactly: always, except that the read with which an interface took
      over is forgotten. */
  lemma {:induction false} MatcherMemory(log: seq<Read>, i: Iface)
    requires Chunks(log)
    ensures Pending(Gated(log), i) <==> EndsInDe(Stream(log, i)) && !JustTookOver(log, i)
  {
    hide Reads, EndsInDe;
    if log == [] {
      NothingRead();
    } else {
      var n := |log| - 1;
      MatcherMemory(log[..n], i);
      PendingStep(Gated(log[..n]), log[n].iface, log[n].chunk, i);
      var x := Stream(log[..n], i);
      assert x + [] == x;
      LastDe(x, log[n].chunk);
    }
  }

  /** What that costs: an interface that is not active and whose stream so far ends in DE reads a chunk that starts
      with AD. It takes over at the signature across the two reads if and only if its last read was no takeover. */
  lemma StraddlingTakeover(log: seq<Read>, i: Iface, chunk: seq<byte>)
    requires Chunks(log) && chunk != [] && chunk[0] == 0xad
    requires Gated(log).active != Talks(i) && EndsInDe(Stream(log, i))
    ensures Chunks(log + [Read(i, chunk)])
    ensures Gated(log + [Read(i, chunk)]).segments == Gated(log).segments + [Segment(i, [0xde] + chunk)]
       <==> !JustTookOver(log, i)
  {
    hide FirstSignature, Gated, JustTookOver, Qualified;
    MatcherMemory(log, i);
    GatedStep(log, Read(i, chunk));
    var g := Gated(log);
    var h := Reads(g, i, chunk);
    if Pending(g, i) {
      SpanningSignature(chunk);
    } else if Qualified(chunk) != [] {
      NoDeInFront(chunk);
      assert h.segments == g.segments + [Segment(i, Qualified(chunk))];
      assert h.segments[|g.segments|] != Segment(i, [0xde] + chunk);
      assert (g.segments + [Segment(i, [0xde] + chunk)])[|g.segments|] == Segment(i, [0xde] + chunk);
    } else {
      assert |h.segments| == |g.segments|;
    }
  }

  lemma GatedStep(log: seq<Read>, r: Read)
    requires Chunks(log) && r.chunk != []
    ensures Chunks(log + [r]) && Gated(log + [r]) == Reads(Gated(log), r.iface, r.chunk)
  {
    hide Reads;
    assert (log + [r])[..|log|] == log;
  }

  lemma NoDeInFront(chunk: seq<byte>)
    requires chunk != [] && chunk[0] == 0xad
    ensures |Qualified(chunk)| <= |chunk|
  {
  }

  /** A run in which it happens: the second signature of the UART is dropped. */
  lemma StraddlingSignatureMissed()
    ensures var g := Reads(Reads(Reads(BOOT, Uart, [0xde, 0xad, 0xde]), Usb, [0xde, 0xad]), Uart, [0xad, 0x05]);
            g.active == Talks(Usb) && g.segments == [Segment(Uart, [0xde, 0xad, 0xde]), Segment(Usb, [0xde, 0xad])]
  {
    hide FirstSignature;
    FirstSignatureIs([0xde, 0xad, 0xde], 0);
    FirstSignatureIs([0xde, 0xad], 0);
    FirstSignatureIs([0xad, 0x05], 2);
  }
}
