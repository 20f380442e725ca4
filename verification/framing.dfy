/** Frames of the ZBOSS NCP serial protocol in a byte stream, and the two parsers that cut them out of it.

    Parsing is specified as a function of the whole stream (Scan); the buffer code of main/protocol.cpp and
    html/zboss_backup.js, which sees the stream in arbitrary chunks, is proved to compute it. Nothing here
    depends on which checksums are used, so they are a parameter; module Firmware supplies the CRC-8 and CRC-16. */
module Framing {
  import opened Bytes

  datatype Checksums = Checksums(header: seq<byte> -> byte, payload: seq<byte> -> word)

  /** The firmware's parser and the one of the web page. They test a header in different orders. */
  datatype Parser = Ncp | Host

  const SIGNATURE: seq<byte> := [0xde, 0xad]
  const HEADER_SIZE := 7
  const RX_BUFFER_SIZE := 1024

  // ---- Finding the signature --------------------------------------------------------------------

  /** A 0xDE followed by 0xAD, or a 0xDE in the last position: what find_signature stops at. */
  predicate Plausible(s: seq<byte>, i: nat)
    requires i < |s|
  {
    s[i] == 0xde && (i + 1 == |s| || s[i + 1] == 0xad)
  }

  /** Position of the first plausible signature, the length if there is none. */
  function Start(s: seq<byte>): (r: nat)
    ensures r <= |s|
    ensures forall i: nat | i < r :: !Plausible(s, i)
    ensures r < |s| ==> Plausible(s, r)
  {
    if s == [] || Plausible(s, 0) then
      0
    else
      assert forall i: nat | 1 <= i < |s| :: Plausible(s, i) == Plausible(s[1..], i - 1);
      1 + Start(s[1..])
  }

  /** The stream without its dead garbage prefix. */
  function Trim(s: seq<byte>): (t: seq<byte>)
    ensures |t| + Start(s) == |s|
  {
    s[Start(s)..]
  }

  lemma StartIs(s: seq<byte>, r: nat)
    requires r <= |s|
    requires forall i: nat | i < r :: !Plausible(s, i)
    requires r < |s| ==> Plausible(s, r)
    ensures Start(s) == r
  {
    var q := Start(s);
    assert q < |s| ==> Plausible(s, q);
    assert r < |s| ==> Plausible(s, r);
  }

  /** Bytes that cannot start a frame do not change what remains after trimming. */
  lemma TrimDrop(s: seq<byte>, a: nat)
    requires a <= |s|
    requires forall i: nat | i < a :: !Plausible(s, i)
    ensures Trim(s[a..]) == Trim(s)
    ensures Start(s) == a + Start(s[a..])
  {
    var t := s[a..];
    var r := a + Start(t);
    forall i: nat | i < r
      ensures !Plausible(s, i)
    {
      if a <= i {
        assert !Plausible(t, i - a);
      }
    }
    assert r < |s| ==> Plausible(t, r - a);
    StartIs(s, r);
  }

  /** A buffer that starts at a plausible signature, or is empty, has nothing to trim. */
  lemma NothingToTrim(s: seq<byte>)
    requires Start(s) == 0
    ensures Trim(s) == s
  {
    hide Start;
  }

  lemma TrimIdempotent(s: seq<byte>)
    ensures Trim(Trim(s)) == Trim(s)
    ensures Start(Trim(s)) == 0
  {
    TrimDrop(s, Start(s));
  }

  /** Garbage stays garbage when more bytes arrive. */
  lemma TrimAppend(x: seq<byte>, y: seq<byte>)
    ensures Trim(x + y) == Trim(Trim(x) + y)
    ensures |Trim(x + y)| <= |Trim(x)| + |y|
  {
    var a := Start(x);
    forall i: nat | i < a
      ensures !Plausible(x + y, i)
    {
      assert !Plausible(x, i);
    }
    assert (x + y)[a..] == Trim(x) + y;
    TrimDrop(x + y, a);
  }

  /** Evicting only garbage leaves the live part as it was. */
  lemma TrimOfSuffix(s: seq<byte>, n: nat)
    requires |Trim(s)| <= n <= |s|
    ensures Trim(s[|s| - n..]) == Trim(s)
  {
    TrimDrop(s, |s| - n);
  }

  // ---- One decision of the parsers --------------------------------------------------------------

  datatype Verdict = Wait | Skip | Take(size: nat)

  predicate HeaderOk(k: Checksums, t: seq<byte>)
    requires HEADER_SIZE <= |t|
  {
    k.header(t[2..6]) == t[6]
  }

  function LengthField(t: seq<byte>): nat
    requires HEADER_SIZE <= |t|
  {
    U16(t, 2)
  }

  /** What a parser does with a buffer that starts at a plausible signature. The firmware checks header
      CRC, completeness, length in this order; the web page checks length, header CRC, completeness. */
  function Decide(k: Checksums, who: Parser, t: seq<byte>): (v: Verdict)
    ensures v.Take? ==> (v.size == 7 || 9 <= v.size) && v.size <= |t|
    ensures v.Skip? ==> 7 <= |t|
  {
    if |t| < HEADER_SIZE then
      Wait
    else
      var n := LengthField(t);
      if who == Host && n != 5 && n < 7 then
        Skip
      else if !HeaderOk(k, t) then
        Skip
      else if |t| < n + 2 then
        Wait
      else if n == 5 then
        Take(HEADER_SIZE)
      else if n < 7 then
        Skip
      else
        Take(n + 2)
  }

  /** A decision once taken is not revised when more bytes arrive. */
  lemma DecideStable(k: Checksums, who: Parser, t: seq<byte>, y: seq<byte>)
    requires Decide(k, who, t) != Wait
    ensures Decide(k, who, t + y) == Decide(k, who, t)
  {
    assert (t + y)[2..6] == t[2..6];
  }

  // ---- The meaning of a stream ------------------------------------------------------------------

  /** A frame and its offset in the stream. */
  datatype Cut = Cut(at: nat, frame: seq<byte>)

  function End(c: Cut): nat { c.at + |c.frame| }

  datatype Outcome = Outcome(cuts: seq<Cut>, rest: seq<byte>)

  /** The frames of a stream whose first byte has offset `at`, and the live bytes left over. */
  function Scan(k: Checksums, who: Parser, s: seq<byte>, at: nat): (o: Outcome)
    ensures |o.rest| <= |s|
    decreases |s|
  {
    var t := Trim(s);
    var p := at + Start(s);
    match Decide(k, who, t)
    case Wait => Outcome([], t)
    case Skip => Scan(k, who, t[2..], p + 2)
    case Take(n) =>
      var o := Scan(k, who, t[n..], p + n);
      Outcome([Cut(p, t[..n])] + o.cuts, o.rest)
  }

  /** The three ways Scan goes on, one decision unfolded. */
  lemma ScanStep(k: Checksums, who: Parser, s: seq<byte>, at: nat)
    ensures match Decide(k, who, Trim(s))
            case Wait => Scan(k, who, s, at) == Outcome([], Trim(s))
            case Skip => Scan(k, who, s, at) == Scan(k, who, Trim(s)[2..], at + Start(s) + 2)
            case Take(n) =>
              var o := Scan(k, who, Trim(s)[n..], at + Start(s) + n);
              Scan(k, who, s, at) == Outcome([Cut(at + Start(s), Trim(s)[..n])] + o.cuts, o.rest)
  {
    hide Start, Decide, Trim;
  }

  lemma ScanOfTrim(k: Checksums, who: Parser, s: seq<byte>, at: nat)
    ensures Scan(k, who, Trim(s), at + Start(s)) == Scan(k, who, s, at)
  {
    hide *;
    TrimIdempotent(s);
    ScanStep(k, who, s, at);
    ScanStep(k, who, Trim(s), at + Start(s));
  }

  /** A parser can stop anywhere: what it has cut stays cut, and going on from its live leftover
      gives the frames of the whole stream. */
  lemma {:induction false} ScanResumes(k: Checksums, who: Parser, x: seq<byte>, y: seq<byte>, at: nat)
    ensures var a := Scan(k, who, x, at);
            var b := Scan(k, who, a.rest + y, at + |x| - |a.rest|);
            Scan(k, who, x + y, at) == Outcome(a.cuts + b.cuts, b.rest)
    decreases |x|
  {
    hide *;
    var t := Trim(x);
    var p := at + Start(x);
    var v := Decide(k, who, t);
    ScanStep(k, who, x, at);
    if v == Wait {
      TrimAppend(x, y);
      StartAppend(x, y);
      ScanOfTrim(k, who, x + y, at);
      ScanOfTrim(k, who, t + y, p);
    } else {
      var n := if v.Skip? then 2 else v.size;
      ResumedStep(k, who, x, y, at);
      ScanResumes(k, who, t[n..], y, p + n);
      var a := Scan(k, who, t[n..], p + n);
      var b := Scan(k, who, a.rest + y, at + |x| - |a.rest|);
      if v.Take? {
        var first := [Cut(p, t[..n])];
        assert (first + a.cuts) + b.cuts == first + (a.cuts + b.cuts);
      }
    }
  }

  /** A decision taken on `x` is taken on `x + y` too, and leaves `y` behind the same remainder. */
  lemma ResumedStep(k: Checksums, who: Parser, x: seq<byte>, y: seq<byte>, at: nat)
    requires Decide(k, who, Trim(x)) != Wait
    ensures var t := Trim(x);
            var v := Decide(k, who, t);
            var n := if v.Skip? then 2 else v.size;
            var o := Scan(k, who, t[n..] + y, at + Start(x) + n);
            Scan(k, who, x + y, at) ==
            if v.Skip? then o else Outcome([Cut(at + Start(x), t[..n])] + o.cuts, o.rest)
  {
    hide *;
    var t := Trim(x);
    var v := Decide(k, who, t);
    var n := if v.Skip? then 2 else v.size;
    TrimAppend(x, y);
    StartAppend(x, y);
    DecidedIsTrimmed(k, who, x, y);
    DecideStable(k, who, t, y);
    ScanStep(k, who, x + y, at);
    assert (t + y)[n..] == t[n..] + y;
    assert (t + y)[..n] == t[..n];
  }

  lemma DecidedIsTrimmed(k: Checksums, who: Parser, x: seq<byte>, y: seq<byte>)
    requires Decide(k, who, Trim(x)) != Wait
    ensures Trim(Trim(x) + y) == Trim(x) + y
    ensures Start(Trim(x) + y) == 0
  {
    hide Start, HeaderOk;
    var t := Trim(x);
    assert Plausible(x, Start(x));
    assert Plausible(t + y, 0);
    StartIs(t + y, 0);
  }

  lemma StartAppend(x: seq<byte>, y: seq<byte>)
    ensures Start(x + y) == Start(x) + Start(Trim(x) + y)
  {
    var a := Start(x);
    forall i: nat | i < a
      ensures !Plausible(x + y, i)
    {
      assert !Plausible(x, i);
    }
    assert (x + y)[a..] == Trim(x) + y;
    TrimDrop(x + y, a);
  }

  /** The frames of a prefix are a prefix of the frames. */
  lemma ScanPrefix(k: Checksums, who: Parser, x: seq<byte>, y: seq<byte>, at: nat)
    ensures Scan(k, who, x, at).cuts <= Scan(k, who, x + y, at).cuts
  {
    ScanResumes(k, who, x, y, at);
  }

  // ---- The two parsers agree --------------------------------------------------------------------

  predicate WaitsForEighth(k: Checksums, t: seq<byte>) {
    |t| == 7 && LengthField(t) == 6 && HeaderOk(k, t)
  }

  lemma DecisionsAgree(k: Checksums, t: seq<byte>)
    ensures WaitsForEighth(k, t) ==> Decide(k, Ncp, t) == Wait && Decide(k, Host, t) == Skip
    ensures !WaitsForEighth(k, t) ==> Decide(k, Ncp, t) == Decide(k, Host, t)
  {
  }

  lemma TooShort(k: Checksums, who: Parser, s: seq<byte>, at: nat)
    requires |s| < 7
    ensures Scan(k, who, s, at).cuts == []
  {
    hide Start;
  }

  /** After every prefix of every stream the firmware and the web page have cut the same frames at the
      same offsets. Their leftovers differ only while a header announcing length 6 waits for its eighth
      byte in the firmware: the page has already skipped it. */
  lemma {:induction false} ParsersAgree(k: Checksums, s: seq<byte>, at: nat)
    ensures Scan(k, Host, s, at).cuts == Scan(k, Ncp, s, at).cuts
    ensures Scan(k, Host, s, at).rest == Scan(k, Ncp, s, at).rest
         || WaitsForEighth(k, Scan(k, Ncp, s, at).rest)
    decreases |s|
  {
    hide Scan, Start, Trim, Decide, LengthField, HeaderOk;
    var t := Trim(s);
    var p := at + Start(s);
    ScanStep(k, Host, s, at);
    ScanStep(k, Ncp, s, at);
    DecisionsAgree(k, t);
    if WaitsForEighth(k, t) {
      TooShort(k, Host, t[2..], p + 2);
    } else {
      match Decide(k, Ncp, t)
      case Wait =>
      case Skip => ParsersAgree(k, t[2..], p + 2);
      case Take(n) => ParsersAgree(k, t[n..], p + n);
    }
  }

  // ---- Which positions become frames ------------------------------------------------------------

  /** A signature with a good header CRC and a possible length starts at `q`. */
  predicate HeaderAt(k: Checksums, s: seq<byte>, q: nat) {
    && q + HEADER_SIZE <= |s|
    && s[q] == 0xde && s[q + 1] == 0xad
    && HeaderOk(k, s[q..])
    && (LengthField(s[q..]) == 5 || 7 <= LengthField(s[q..]))
  }

  /** The cut is a piece of the stream, has a valid header and the length its header announces. */
  predicate GoodCut(k: Checksums, s: seq<byte>, c: Cut) {
    && At(s, c.at, c.frame)
    && HeaderAt(k, s, c.at)
    && |c.frame| == LengthField(s[c.at..]) + 2
  }

  predicate InOrder(cuts: seq<Cut>) {
    forall i: nat, j: nat | i < j < |cuts| :: End(cuts[i]) <= cuts[j].at
  }

  predicate Covered(cuts: seq<Cut>, q: nat) {
    exists i: nat :: i < |cuts| && cuts[i].at <= q < End(cuts[i])
  }

  /** From offset `at` on, the frames are disjoint, in order and valid, and no valid header is passed over:
      it is inside a frame or belongs to the undecided rest. */
  predicate Framed(k: Checksums, s: seq<byte>, at: nat, o: Outcome) {
    && |o.rest| + at <= |s|
    && o.rest == s[|s| - |o.rest|..]
    && InOrder(o.cuts)
    && (forall i: nat | i < |o.cuts| ::
          GoodCut(k, s, o.cuts[i]) && at <= o.cuts[i].at && End(o.cuts[i]) <= |s| - |o.rest|)
    && (forall q: nat | HeaderAt(k, s, q) && at <= q < |s| - |o.rest| :: Covered(o.cuts, q))
  }

  lemma FramesOfStream(k: Checksums, who: Parser, s: seq<byte>)
    ensures Framed(k, s, 0, Scan(k, who, s, 0))
  {
    FramesFrom(k, who, s, 0);
    assert s[0..] == s;
  }

  lemma {:induction false} FramesFrom(k: Checksums, who: Parser, s: seq<byte>, at: nat)
    requires at <= |s|
    ensures Framed(k, s, at, Scan(k, who, s[at..], at))
    decreases |s| - at
  {
    hide *;
    var x := s[at..];
    var t := Trim(x);
    var p := at + Start(x);
    ScanStep(k, who, x, at);
    NoHeaderBefore(k, s, at);
    LocalStep(k, who, s, at);
    match Decide(k, who, t)
    case Wait =>
      FramedNothing(k, s, at, p);
    case Skip =>
      assert t[2..] == s[p + 2..];
      FramesFrom(k, who, s, p + 2);
      FramedSkip(k, s, at, p, Scan(k, who, t[2..], p + 2));
    case Take(n) =>
      assert t[n..] == s[p + n..];
      FramesFrom(k, who, s, p + n);
      FramedTake(k, s, at, Cut(p, t[..n]), Scan(k, who, t[n..], p + n));
  }

  lemma FramedNothing(k: Checksums, s: seq<byte>, at: nat, p: nat)
    requires at <= p <= |s|
    requires forall q: nat | HeaderAt(k, s, q) && at <= q :: p <= q
    ensures Framed(k, s, at, Outcome([], s[p..]))
  {
    hide HeaderAt;
  }

  lemma FramedSkip(k: Checksums, s: seq<byte>, at: nat, p: nat, o: Outcome)
    requires at <= p
    requires Framed(k, s, p + 2, o)
    requires forall q: nat | HeaderAt(k, s, q) && at <= q :: p <= q
    requires !HeaderAt(k, s, p) && !HeaderAt(k, s, p + 1)
    ensures Framed(k, s, at, o)
  {
    hide HeaderAt, GoodCut, Covered, InOrder;
  }

  lemma FramedTake(k: Checksums, s: seq<byte>, at: nat, c: Cut, o: Outcome)
    requires at <= c.at
    requires Framed(k, s, End(c), o)
    requires GoodCut(k, s, c)
    requires forall q: nat | HeaderAt(k, s, q) && at <= q :: c.at <= q
    ensures Framed(k, s, at, Outcome([c] + o.cuts, o.rest))
  {
    hide HeaderAt, GoodCut, Covered, InOrder;
    FirstCut(c, o.cuts, End(c));
    var all := [c] + o.cuts;
    forall i: nat | i < |all|
      ensures GoodCut(k, s, all[i]) && at <= all[i].at && End(all[i]) <= |s| - |o.rest|
    {
      if 0 < i {
        assert all[i] == o.cuts[i - 1];
      }
    }
  }

  /** One decision at offset `at` of the stream, seen in the stream. */
  lemma LocalStep(k: Checksums, who: Parser, s: seq<byte>, at: nat)
    requires at <= |s|
    ensures var x := s[at..];
            var p := at + Start(x);
            && Trim(x) == s[p..]
            && match Decide(k, who, Trim(x))
               case Wait => true
               case Skip => !HeaderAt(k, s, p) && !HeaderAt(k, s, p + 1)
               case Take(n) => GoodCut(k, s, Cut(p, Trim(x)[..n])) && End(Cut(p, Trim(x)[..n])) == p + n
  {
    hide Start, HeaderOk;
    var x := s[at..];
    var p := at + Start(x);
    var t := Trim(x);
    assert t == s[p..];
    match Decide(k, who, t)
    case Wait =>
    case Skip =>
      assert Plausible(x, Start(x));
      assert s[p + 1] == 0xad;
      assert !HeaderAt(k, s, p);
    case Take(n) =>
      assert Plausible(x, Start(x));
      assert HeaderAt(k, s, p);
      assert s[p..p + n] == t[..n];
  }

  /** Adding a first cut keeps order and adds its own positions to the covered ones. */
  lemma FirstCut(c: Cut, cuts: seq<Cut>, from: nat)
    requires InOrder(cuts)
    requires End(c) == from
    requires forall i: nat | i < |cuts| :: from <= cuts[i].at
    ensures InOrder([c] + cuts)
    ensures forall q: nat | c.at <= q < from :: Covered([c] + cuts, q)
    ensures forall q: nat | Covered(cuts, q) :: Covered([c] + cuts, q)
    ensures forall i: nat | i < |cuts| :: ([c] + cuts)[i + 1] == cuts[i]
  {
    var all := [c] + cuts;
    assert forall i: nat | 0 < i < |all| :: all[i] == cuts[i - 1];
    forall q: nat | c.at <= q < from
      ensures Covered(all, q)
    {
      assert all[0].at <= q < End(all[0]);
    }
    forall q: nat | Covered(cuts, q)
      ensures Covered(all, q)
    {
      var i: nat :| i < |cuts| && cuts[i].at <= q < End(cuts[i]);
      assert all[i + 1].at <= q < End(all[i + 1]);
    }
  }

  lemma NoHeaderBefore(k: Checksums, s: seq<byte>, at: nat)
    requires at <= |s|
    ensures forall q: nat | HeaderAt(k, s, q) && at <= q :: at + Start(s[at..]) <= q
  {
    forall q: nat | HeaderAt(k, s, q) && at <= q
      ensures at + Start(s[at..]) <= q
    {
      assert Plausible(s[at..], q - at);
    }
  }

  // ---- Building frames --------------------------------------------------------------------------

  const ZBOSS_NCP_API_HL: byte := 0x06

  /** The flags byte of ncp_header_t, least significant bit first. */
  function Flags(isAck: bool, isNack: bool, seqNo: nat, ackSeq: nat): byte
    requires seqNo < 4 && ackSeq < 4
  {
    (if isAck then 1 else 0) + (if isNack then 2 else 0) + 4 * seqNo + 16 * ackSeq + 64 + 128
  }

  function IsAck(f: seq<byte>): bool requires HEADER_SIZE <= |f| { f[5] % 2 == 1 }

  function IsNack(f: seq<byte>): bool requires HEADER_SIZE <= |f| { f[5] / 2 % 2 == 1 }

  function PacketSeq(f: seq<byte>): (n: nat) requires HEADER_SIZE <= |f| ensures n < 4 { f[5] / 4 % 4 }

  function AckSeq(f: seq<byte>): (n: nat) requires HEADER_SIZE <= |f| ensures n < 4 { f[5] / 16 % 4 }

  /** first_fragment and last_fragment are both set: the frame is a whole message. */
  predicate Unfragmented(f: seq<byte>)
    requires HEADER_SIZE <= |f|
  {
    f[5] / 64 == 3
  }

  function PacketType(f: seq<byte>): byte requires HEADER_SIZE <= |f| { f[4] }

  function Header(k: Checksums, length: word, flags: byte): (h: seq<byte>)
    ensures |h| == HEADER_SIZE
  {
    var inner := Le16(length) + [ZBOSS_NCP_API_HL, flags];
    SIGNATURE + inner + [k.header(inner)]
  }

  /** A frame without data. */
  function EmptyFrame(k: Checksums, flags: byte): seq<byte> {
    Header(k, 5, flags)
  }

  /** A frame with data, as send_data_int and sendCommand lay it out. */
  function DataFrame(k: Checksums, flags: byte, data: seq<byte>): seq<byte>
    requires |data| + 7 < 0x1_0000
  {
    Header(k, |data| + 7, flags) + Le16(k.payload(data)) + data
  }

  function Payload(f: seq<byte>): seq<byte>
    requires 9 <= |f|
  {
    f[9..]
  }

  predicate PayloadOk(k: Checksums, f: seq<byte>)
    requires 9 <= |f|
  {
    U16(f, 7) == k.payload(Payload(f))
  }

  /** A complete frame and nothing else. */
  predicate IsFrame(k: Checksums, f: seq<byte>) {
    HeaderAt(k, f, 0) && |f| == LengthField(f) + 2
  }

  lemma FlagsReadBack(f: seq<byte>, isAck: bool, isNack: bool, seqNo: nat, ackSeq: nat)
    requires HEADER_SIZE <= |f| && seqNo < 4 && ackSeq < 4
    requires f[5] == Flags(isAck, isNack, seqNo, ackSeq)
    ensures IsAck(f) == isAck && IsNack(f) == isNack && PacketSeq(f) == seqNo && AckSeq(f) == ackSeq
    ensures Unfragmented(f)
  {
  }

  /** The bytes on the wire of an ACK or NACK without data. */
  function WireAck(k: Checksums, nack: bool, seqNo: nat, ackSeq: nat): seq<byte>
    requires seqNo < 4 && ackSeq < 4
  {
    var flags := (if nack then 0xc3 else 0xc1) + 4 * seqNo + 16 * ackSeq;
    [0xde, 0xad, 0x05, 0x00, 0x06, flags, k.header([0x05, 0x00, 0x06, flags])]
  }

  /** The bytes on the wire of a data frame. */
  function WireData(k: Checksums, seqNo: nat, ackSeq: nat, data: seq<byte>): seq<byte>
    requires seqNo < 4 && ackSeq < 4 && |data| + 7 < 0x1_0000
  {
    var flags, lo, hi := 0xc0 + 4 * seqNo + 16 * ackSeq, (|data| + 7) % 0x100, (|data| + 7) / 0x100;
    var crc := k.payload(data);
    [0xde, 0xad, lo, hi, 0x06, flags, k.header([lo, hi, 0x06, flags]), crc % 0x100, crc / 0x100] + data
  }

  /** These are the bytes of the frames that are built. */
  lemma FramesOnWire(k: Checksums, nack: bool, seqNo: nat, ackSeq: nat, data: seq<byte>)
    requires seqNo < 4 && ackSeq < 4
    ensures EmptyFrame(k, Flags(true, nack, seqNo, ackSeq)) == WireAck(k, nack, seqNo, ackSeq)
    ensures |data| + 7 < 0x1_0000 ==>
              DataFrame(k, Flags(false, false, seqNo, ackSeq), data) == WireData(k, seqNo, ackSeq, data)
  {
    var ack, flags := Flags(true, nack, seqNo, ackSeq), Flags(false, false, seqNo, ackSeq);
    assert Le16(5) + [ZBOSS_NCP_API_HL, ack] == [0x05, 0x00, 0x06, ack];
    if |data| + 7 < 0x1_0000 {
      var lo, hi := (|data| + 7) % 0x100, (|data| + 7) / 0x100;
      assert Le16(|data| + 7) + [ZBOSS_NCP_API_HL, flags] == [lo, hi, 0x06, flags];
      assert DataFrame(k, flags, data) == Header(k, |data| + 7, flags) + Le16(k.payload(data)) + data;
    }
  }

  lemma HeaderReadBack(k: Checksums, length: word, flags: byte, tail: seq<byte>)
    ensures var f := Header(k, length, flags) + tail;
            && f[0] == 0xde && f[1] == 0xad && f[4] == ZBOSS_NCP_API_HL && f[5] == flags
            && HeaderOk(k, f) && LengthField(f) == length
  {
    var f := Header(k, length, flags) + tail;
    var inner := Le16(length) + [ZBOSS_NCP_API_HL, flags];
    assert f[2..6] == inner;
  }

  lemma EmptyFrameIsFrame(k: Checksums, flags: byte)
    ensures IsFrame(k, EmptyFrame(k, flags))
    ensures EmptyFrame(k, flags)[5] == flags
  {
    HeaderReadBack(k, 5, flags, []);
    var f := EmptyFrame(k, flags);
    assert f + [] == f && f[0..] == f;
  }

  /** What the sender put in is what the receiver takes out. */
  lemma DataFrameIsFrame(k: Checksums, flags: byte, data: seq<byte>)
    requires |data| + 7 < 0x1_0000
    ensures var f := DataFrame(k, flags, data);
            && IsFrame(k, f)
            && |f| == |data| + 9
            && f[5] == flags
            && PacketType(f) == ZBOSS_NCP_API_HL
            && PayloadOk(k, f)
            && Payload(f) == data
  {
    var h := Header(k, |data| + 7, flags);
    var f := DataFrame(k, flags, data);
    var crc := Le16(k.payload(data));
    assert f == h + (crc + data);
    HeaderReadBack(k, |data| + 7, flags, crc + data);
    assert f[0..] == f;
    assert f[9..] == data;
    U16OfLe16(h, k.payload(data), data);
  }

  // ---- Resynchronisation ------------------------------------------------------------------------

  lemma TrimIs(s: seq<byte>)
    ensures Trim(s) == s[Start(s)..]
  {
    hide Start;
  }

  lemma HeaderOkAppend(k: Checksums, f: seq<byte>, y: seq<byte>)
    requires HEADER_SIZE <= |f|
    ensures HeaderOk(k, f + y) == HeaderOk(k, f)
  {
    assert (f + y)[2..6] == f[2..6];
  }

  lemma FrameComesFirst(k: Checksums, who: Parser, f: seq<byte>, y: seq<byte>)
    requires IsFrame(k, f)
    ensures Start(f + y) == 0 && Trim(f + y) == f + y
    ensures Decide(k, who, f + y) == Take(|f|)
    ensures (f + y)[..|f|] == f && (f + y)[|f|..] == y
  {
    hide Start, HeaderOk;
    var t := f + y;
    assert f[0..] == f;
    HeaderOkAppend(k, f, y);
    assert Plausible(t, 0);
    StartIs(t, 0);
  }

  /** The false header before a frame is skipped, and the two skipped bytes still lie in the garbage. */
  lemma FalseHeader(k: Checksums, who: Parser, g: seq<byte>, f: seq<byte>, y: seq<byte>)
    requires IsFrame(k, f)
    requires Start(g + f + y) < |g|
    requires !HeaderAt(k, g + f + y, Start(g + f + y))
    ensures Decide(k, who, Trim(g + f + y)) == Skip
    ensures Start(g + f + y) + 2 <= |g|
  {
    hide Start, HeaderOk;
    var s := g + f + y;
    var r := Start(s);
    assert s[|g|] == f[0] && |f| >= 7;
    assert Plausible(s, r) && s[r + 1] == 0xad;
    assert Trim(s) == s[r..];
    assert |Trim(s)| >= 8;
  }

  lemma StartsByFrame(k: Checksums, g: seq<byte>, f: seq<byte>, y: seq<byte>)
    requires IsFrame(k, f)
    ensures Start(g + f + y) <= |g|
    ensures Start(g + f + y) == |g| ==> Trim(g + f + y) == f + y
  {
    hide Start, HeaderOk;
    var s := g + f + y;
    assert s[|g|] == f[0] && s[|g| + 1] == f[1];
    assert Plausible(s, |g|);
    assert s[|g|..] == f + y;
  }

  lemma GarbageSuffix(k: Checksums, g: seq<byte>, z: seq<byte>, n: nat)
    requires n <= |g|
    requires forall q: nat | q < |g| :: !HeaderAt(k, g + z, q)
    ensures (g + z)[n..] == g[n..] + z
    ensures forall q: nat | q < |g| - n :: !HeaderAt(k, g[n..] + z, q)
  {
    hide HeaderOk;
    var s := g + z;
    forall q: nat | q < |g| - n
      ensures !HeaderAt(k, g[n..] + z, q)
    {
      assert (g[n..] + z)[q..] == s[q + n..];
      assert !HeaderAt(k, s, q + n);
    }
  }

  /** A frame behind any garbage is delivered at its place, provided no position in the garbage passes the
      signature and header test; skipping the two bytes of a false header never jumps over its start. */
  lemma {:induction false} Resynchronises(k: Checksums, who: Parser, g: seq<byte>, f: seq<byte>, y: seq<byte>, at: nat)
    requires IsFrame(k, f)
    requires forall q: nat | q < |g| :: !HeaderAt(k, g + (f + y), q)
    ensures var o := Scan(k, who, y, at + |g| + |f|);
            Scan(k, who, g + (f + y), at) == Outcome([Cut(at + |g|, f)] + o.cuts, o.rest)
    decreases |g|
  {
    hide *;
    var s := g + (f + y);
    assert s == g + f + y;
    var r := Start(s);
    ScanStep(k, who, s, at);
    StartsByFrame(k, g, f, y);
    FrameComesFirst(k, who, f, y);
    if r < |g| {
      FalseHeader(k, who, g, f, y);
      GarbageSuffix(k, g, f + y, r + 2);
      assert Trim(s)[2..] == s[r + 2..] by { TrimIs(s); }
      Resynchronises(k, who, g[r + 2..], f, y, at + r + 2);
    }
  }

  /** The cuts a sequence of back-to-back frames should give. */
  function Laid(frames: seq<seq<byte>>, at: nat): (cuts: seq<Cut>)
    ensures |cuts| == |frames|
    ensures forall i: nat | i < |frames| :: cuts[i].frame == frames[i]
  {
    if frames == [] then [] else [Cut(at, frames[0])] + Laid(frames[1..], at + |frames[0]|)
  }

  /** Frames sent back to back are cut apart again, nothing is left over. */
  lemma {:induction false} BackToBack(k: Checksums, who: Parser, frames: seq<seq<byte>>, at: nat)
    requires forall i: nat | i < |frames| :: IsFrame(k, frames[i])
    ensures Scan(k, who, Concat(frames), at) == Outcome(Laid(frames, at), [])
  {
    hide Scan, Start, IsFrame, HeaderAt;
    if frames == [] {
      ScanStep(k, who, [], at);
    } else {
      var f, rest := frames[0], frames[1..];
      BackToBack(k, who, rest, at + |f|);
      Resynchronises(k, who, [], f, Concat(rest), at);
      assert [] + (f + Concat(rest)) == Concat(frames);
    }
  }

  /** However much of a run of frames has reached the other side, the frames cut there are the first ones sent. */
  lemma PartialTransmission(k: Checksums, who: Parser, frames: seq<seq<byte>>, wire: seq<byte>)
    requires forall i: nat | i < |frames| :: IsFrame(k, frames[i])
    requires wire <= Concat(frames)
    ensures Scan(k, who, wire, 0).cuts <= Laid(frames, 0)
  {
    BackToBack(k, who, frames, 0);
    ScanPrefix(k, who, wire, Concat(frames)[|wire|..], 0);
    assert wire + Concat(frames)[|wire|..] == Concat(frames);
  }
}
