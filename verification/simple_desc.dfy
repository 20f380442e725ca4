/** The tolerant re-parser of Simple_Desc_rsp in main/zb_ncp.cpp (section 2.4.4.1.5 of the Zigbee specification gives
    the wire format) against the formatter for descriptors ZBOSS has decoded itself, in main/commands_impl.h. */
module SimpleDesc {
  import opened Bytes

  const STATUS_CATEGORY_ZDO: byte := 5
  const MAX_CLUSTERS := 32
  const OUTDATA_SIZE := 128

  /** version, type, a two-byte command_id and tsn, packed. */
  const CMD_SIZE := 5

  // ---- The cap on both lists --------------------------------------------------------------------

  /** The larger count goes down first, the output count at a tie, until 32 are left. */
  function Cap(ins: nat, outs: nat): (c: (nat, nat))
    ensures c.0 <= ins && c.1 <= outs && c.0 + c.1 <= MAX_CLUSTERS
    ensures ins + outs <= MAX_CLUSTERS ==> c == (ins, outs)
    decreases ins + outs
  {
    if ins + outs <= MAX_CLUSTERS then (ins, outs) else if ins > outs then Cap(ins - 1, outs) else Cap(ins, outs - 1)
  }

  method Capped(ins: nat, outs: nat) returns (a: nat, b: nat)
    ensures (a, b) == Cap(ins, outs)
  {
    a, b := ins, outs;
    while a + b > 32
      invariant Cap(a, b) == Cap(ins, outs)
      decreases a + b
    {
      if a > b {
        a := a - 1;
      } else {
        b := b - 1;
      }
    }
  }

  /** The input count survives the cap, or no output cluster is left, exactly in these cases. */
  lemma {:induction false} CapKeepsInputs(ins: nat, outs: nat)
    ensures Cap(ins, outs).0 == ins || Cap(ins, outs).1 == 0
       <==> ins + outs <= MAX_CLUSTERS || ins <= 16 || outs == 0
    ensures ins + outs > MAX_CLUSTERS ==> Cap(ins, outs).0 + Cap(ins, outs).1 == MAX_CLUSTERS
    ensures ins + outs > MAX_CLUSTERS && 16 < ins && 0 < outs ==> Cap(ins, outs).0 < ins && 0 < Cap(ins, outs).1
    decreases ins + outs
  {
    if ins + outs > MAX_CLUSTERS {
      if ins > outs {
        CapKeepsInputs(ins - 1, outs);
      } else {
        CapKeepsInputs(ins, outs - 1);
      }
    }
  }

  /** What the cap leaves, in numbers: above 32 the shorter list stays whole as long as it has at most 16 clusters, and
      of two longer ones 16 each are left. */
  lemma {:induction false} CapInNumbers(ins: nat, outs: nat)
    ensures Cap(ins, outs)
         == if ins + outs <= 32 then (ins, outs)
            else if ins <= 16 then (ins, 32 - ins)
            else if outs <= 16 then (32 - outs, outs)
            else (16, 16)
    decreases ins + outs
  {
    if ins + outs > MAX_CLUSTERS {
      if ins > outs {
        CapInNumbers(ins - 1, outs);
      } else {
        CapInNumbers(ins, outs - 1);
      }
    }
  }

  // ---- The descriptor as ZBOSS decodes it -------------------------------------------------------

  datatype Descriptor = Descriptor(endpoint: byte, profileId: word, deviceId: word, version: byte,
                                   ins: seq<word>, outs: seq<word>)

  predicate Valid(d: Descriptor) {
    d.version < 16 && |d.ins| < 0x100 && |d.outs| < 0x100
  }

  /** memcpy of a run of clusters. */
  function Words(ws: seq<word>): (s: seq<byte>)
    ensures |s| == 2 * |ws|
    ensures forall i: nat | i < |ws| :: s[2 * i] == ws[i] % 0x100 && s[2 * i + 1] == ws[i] / 0x100
  {
    if ws == [] then [] else Words(ws[..|ws| - 1]) + Le16(ws[|ws| - 1])
  }

  function Head(d: Descriptor): (s: seq<byte>)
    ensures |s| == 5
  {
    [d.endpoint] + Le16(d.profileId) + Le16(d.deviceId)
  }

  /** A descriptor in a reply: `a` input clusters, then the bytes of `b` output clusters. */
  function Assembled(d: Descriptor, a: nat, b: nat, outs: seq<byte>): (s: seq<byte>)
    requires Valid(d) && a <= |d.ins| && b < 0x100
    ensures |s| == 8 + 2 * a + |outs|
    ensures outs != [] ==> s[8 + 2 * a] == outs[0]
  {
    Head(d) + [d.version, a, b] + Words(d.ins[..a]) + outs
  }

  /** format_response behind the command header. */
  function Format(status: byte, nwk: word, d: Descriptor): (s: seq<byte>)
    requires Valid(d)
  {
    var (a, b) := Cap(|d.ins|, |d.outs|);
    [STATUS_CATEGORY_ZDO, status] + Assembled(d, a, b, Words(d.outs[..b])) + Le16(nwk)
  }

  /** Two bytes of a list of clusters, little-endian. */
  predicate ClustersAt(s: seq<byte>, at: nat, ws: seq<word>) {
    && at + 2 * |ws| <= |s|
    && forall i: nat | i < |ws| :: s[at + 2 * i] as nat + 0x100 * (s[at + 2 * i + 1] as nat) == ws[i]
  }

  lemma ClustersInside(pre: seq<byte>, ws: seq<word>, post: seq<byte>)
    ensures ClustersAt(pre + Words(ws) + post, |pre|, ws)
  {
    hide Words;
    var s := pre + Words(ws) + post;
    forall i: nat | i < |ws|
      ensures s[|pre| + 2 * i] as nat + 0x100 * (s[|pre| + 2 * i + 1] as nat) == ws[i]
    {
      assert s[|pre| + 2 * i] == Words(ws)[2 * i] && s[|pre| + 2 * i + 1] == Words(ws)[2 * i + 1];
    }
  }

  /** The response byte by byte: category, status, endpoint, profile, device, version, the two counts, the kept
      clusters of either list, the network address. */
  lemma FormatOnBytes(status: byte, nwk: word, d: Descriptor)
    requires Valid(d)
    ensures var s := Format(status, nwk, d);
            var (a, b) := Cap(|d.ins|, |d.outs|);
            && |s| == 12 + 2 * a + 2 * b
            && s[0] == 5 && s[1] == status && s[2] == d.endpoint
            && s[3] as nat + 0x100 * (s[4] as nat) == d.profileId
            && s[5] as nat + 0x100 * (s[6] as nat) == d.deviceId
            && s[7] == d.version && s[8] == a && s[9] == b
            && ClustersAt(s, 10, d.ins[..a]) && ClustersAt(s, 10 + 2 * a, d.outs[..b])
            && s[|s| - 2] as nat + 0x100 * (s[|s| - 1] as nat) == nwk
  {
    hide Words, Cap, ClustersAt;
    var s := Format(status, nwk, d);
    var (a, b) := Cap(|d.ins|, |d.outs|);
    var ins, outs := d.ins[..a], d.outs[..b];
    var head := [STATUS_CATEGORY_ZDO, status] + Head(d) + [d.version, a, b];
    assert s == head + Words(ins) + (Words(outs) + Le16(nwk));
    assert s == (head + Words(ins)) + Words(outs) + Le16(nwk);
    ClustersInside(head, ins, Words(outs) + Le16(nwk));
    ClustersInside(head + Words(ins), outs, Le16(nwk));
  }

  /** app_cluster_list holds both lists one behind the other; the loops copy from it. */
  method FormatResponse(status: byte, nwk: word, d: Descriptor) returns (out: seq<byte>)
    requires Valid(d)
    ensures out == Format(status, nwk, d)
  {
    hide Words, Cap, Head, Le16;
    var list := d.ins + d.outs;
    var inputs, outputs := Capped(|d.ins|, |d.outs|);
    var ins := CopyWords(list, 0, inputs);
    var outs := CopyWords(list, |d.ins|, outputs);
    assert list[0..inputs] == d.ins[..inputs];
    assert list[|d.ins|..|d.ins| + outputs] == d.outs[..outputs];
    out := [STATUS_CATEGORY_ZDO, status] + (Head(d) + [d.version, inputs, outputs] + ins + outs) + Le16(nwk);
  }

  /** One of the two loops over app_cluster_list. */
  method CopyWords(list: seq<word>, from: nat, count: nat) returns (s: seq<byte>)
    requires from + count <= |list|
    ensures s == Words(list[from..from + count])
  {
    hide Words, Le16;
    s := [];
    NoWords();
    ghost var part := list[from..from + count];
    assert part[..0] == [] && part[..count] == part;
    var i: nat := 0;
    while i < count
      invariant i <= count && s == Words(part[..i])
    {
      WordsSnoc(part, i);
      s := s + Le16(list[from + i]);
      i := i + 1;
    }
  }

  lemma NoWords()
    ensures Words([]) == []
  {
  }

  lemma WordsSnoc(ws: seq<word>, i: nat)
    requires i < |ws|
    ensures Words(ws[..i + 1]) == Words(ws[..i]) + Le16(ws[i])
  {
    assert ws[..i + 1][..i] == ws[..i];
  }

  // ---- The tolerant re-parser -------------------------------------------------------------------------------------

  /** How much of the body may be read: what is there, and no more than the declared length. */
  function Available(p: seq<byte>): (n: nat)
    requires 5 <= |p|
    ensures 5 + n <= |p|
  {
    if p[4] < |p| - 5 then p[4] else |p| - 5
  }

  /** A count that promises more clusters than there are bytes is cut to what is there, and by no more than that. */
  function Bounded(count: nat, bytes: nat): (n: nat)
    ensures n <= count && 2 * n <= bytes && (n < count ==> bytes < 2 * n + 2)
  {
    if 2 * count > bytes then bytes / 2 else count
  }

  function InCount(sd: seq<byte>): (n: nat)
    requires 7 <= |sd|
    ensures 7 + 2 * n <= |sd| && n < 0x100
  {
    Bounded(sd[6], |sd| - 7)
  }

  function OutCount(sd: seq<byte>): (n: nat)
    requires 7 <= |sd|
    ensures n < 0x100 && (n > 0 ==> 8 + 2 * InCount(sd) + 2 * n <= |sd|)
  {
    var off := 7 + 2 * InCount(sd);
    if |sd| > off then Bounded(sd[off], |sd| - off - 1) else 0
  }

  /** Endpoint, profile and device, the version and the two counts, the lists. */
  function Joined(head: seq<byte>, version: byte, a: byte, b: byte, ins: seq<byte>, outs: seq<byte>): (s: seq<byte>)
    ensures |s| == |head| + 3 + |ins| + |outs|
  {
    head + [version, a, b] + ins + outs
  }

  /** The descriptor part of the reply, made from the readable bytes `sd` alone. */
  function Synthesised(sd: seq<byte>): (s: seq<byte>)
    requires 7 <= |sd|
    ensures |s| <= 8 + 2 * MAX_CLUSTERS
  {
    var (a, b) := Cap(InCount(sd), OutCount(sd));
    Joined(sd[..5], sd[5] % 16, a, b, sd[7..7 + 2 * a], if b == 0 then [] else sd[8 + 2 * a..8 + 2 * a + 2 * b])
  }

  /** The reply behind the command header, for a frame whose request was found. */
  function Reply(p: seq<byte>): (s: seq<byte>)
    requires 5 <= |p|
    ensures CMD_SIZE + |s| <= 81 <= OUTDATA_SIZE
  {
    var avail := Available(p);
    [STATUS_CATEGORY_ZDO, p[1]]
    + (if p[1] == 0 && avail >= 7 then Synthesised(p[5..5 + avail]) else [])
    + p[2..4]
  }

  /** try_intercept_simple_desc_rsp, from the point where the request is found; it indexes the frame itself. */
  method TryIntercept(p: seq<byte>) returns (out: seq<byte>)
    requires 5 <= |p|
    ensures out == Reply(p)
  {
    hide Cap, Synthesised, InCount, OutCount;
    var status := p[1];
    var avail := |p| - 5;
    if p[4] < avail {
      avail := p[4];
    }
    out := [STATUS_CATEGORY_ZDO, status];
    if status == 0 && avail >= 7 {
      var descriptor := Describe(p, avail);
      out := out + descriptor;
    }
    out := out + p[2..4];
  }

  /** The descriptor of a complete body, written field by field. */
  method Describe(p: seq<byte>, avail: nat) returns (out: seq<byte>)
    requires 7 <= avail && 5 + avail <= |p|
    ensures out == Synthesised(p[5..5 + avail])
  {
    hide Cap, Synthesised, InCount, OutCount;
    var inCount, outCount := Counts(p, avail);
    inCount, outCount := Capped(inCount, outCount);
    SameDescriptor(p, avail, inCount, outCount);
    var ins := CopyClusters(p, 5 + 7, inCount);
    out := p[5..10] + [p[10] % 16, inCount, outCount] + ins;
    if outCount > 0 {
      var outs := CopyClusters(p, 5 + 8 + 2 * inCount, outCount);
      out := out + outs;
    }
  }

  /** The two counts, each bounded by the bytes behind it. */
  method Counts(p: seq<byte>, avail: nat) returns (inCount: nat, outCount: nat)
    requires 7 <= avail && 5 + avail <= |p|
    ensures inCount == InCount(p[5..5 + avail]) && outCount == OutCount(p[5..5 + avail])
  {
    ghost var sd := p[5..5 + avail];
    inCount := p[5 + 6];
    var bytesAfterInCount := if avail > 7 then avail - 7 else 0;
    if inCount * 2 > bytesAfterInCount {
      inCount := bytesAfterInCount / 2;
    }
    var outCountOff := 7 + 2 * inCount;
    outCount := 0;
    if avail > outCountOff {
      assert sd[outCountOff] == p[5 + outCountOff];
      outCount := p[5 + outCountOff];
      var bytesAfterOutCount := if avail > outCountOff + 1 then avail - outCountOff - 1 else 0;
      if outCount * 2 > bytesAfterOutCount {
        outCount := bytesAfterOutCount / 2;
      }
    }
  }

  /** One of the two copy loops. */
  method CopyClusters(p: seq<byte>, from: nat, count: nat) returns (s: seq<byte>)
    requires from + 2 * count <= |p|
    ensures s == p[from..from + 2 * count]
  {
    s := [];
    var i: nat := 0;
    while i < count
      invariant i <= count && s == p[from..from + 2 * i]
    {
      s := s + p[from + 2 * i..from + 2 * i + 2];
      i := i + 1;
    }
  }

  /** The capped lists lie in the readable bytes. */
  lemma CountsFit(sd: seq<byte>, a: nat, b: nat)
    requires 7 <= |sd| && (a, b) == Cap(InCount(sd), OutCount(sd))
    ensures 7 + 2 * a <= |sd| && (b > 0 ==> 8 + 2 * a + 2 * b <= |sd|)
    ensures Synthesised(sd) == Joined(sd[..5], sd[5] % 16, a, b, sd[7..7 + 2 * a],
                                      if b == 0 then [] else sd[8 + 2 * a..8 + 2 * a + 2 * b])
  {
    hide Cap, InCount, OutCount, Joined;
  }

  lemma SameDescriptor(p: seq<byte>, avail: nat, a: nat, b: nat)
    requires 7 <= avail && 5 + avail <= |p|
    requires (a, b) == Cap(InCount(p[5..5 + avail]), OutCount(p[5..5 + avail]))
    ensures 12 + 2 * a <= 5 + avail && (b > 0 ==> 13 + 2 * a + 2 * b <= 5 + avail)
    ensures Synthesised(p[5..5 + avail])
         == Joined(p[5..10], p[10] % 16, a, b, p[12..12 + 2 * a],
                   if b == 0 then [] else p[13 + 2 * a..13 + 2 * a + 2 * b])
  {
    hide Cap, InCount, OutCount, Synthesised, Joined;
    var sd := p[5..5 + avail];
    CountsFit(sd, a, b);
    SliceOfSlice(p, 5, 5 + avail, 0, 5);
    assert sd[..5] == sd[0..5] && sd[5] == p[10];
    SliceOfSlice(p, 5, 5 + avail, 7, 7 + 2 * a);
    if b > 0 {
      SliceOfSlice(p, 5, 5 + avail, 8 + 2 * a, 8 + 2 * a + 2 * b);
    }
  }

  /** Bytes behind the declared length change nothing. */
  lemma TrailingBytesIgnored(p: seq<byte>, y: seq<byte>)
    requires 5 <= |p| && p[4] <= |p| - 5
    ensures Reply(p + y) == Reply(p)
  {
    hide Synthesised;
    var n := Available(p);
    assert (p + y)[5..5 + n] == p[5..5 + n] && (p + y)[2..4] == p[2..4];
  }

  // ---- Where the two agree ----------------------------------------------------------------------

  /** The body on the wire; the upper half of the version byte is reserved and may be anything. */
  function Body(d: Descriptor, reserved: nat): (s: seq<byte>)
    requires Valid(d) && reserved < 16
    ensures |s| == 8 + 2 * |d.ins| + 2 * |d.outs|
  {
    Head(d) + [d.version + 16 * reserved, |d.ins|]
    + Words(d.ins) + [|d.outs|] + Words(d.outs)
  }

  /** A response with a complete body and possibly more behind it. */
  function Frame(tsn: byte, nwk: word, d: Descriptor, reserved: nat, trailing: seq<byte>): (p: seq<byte>)
    requires Valid(d) && reserved < 16 && 8 + 2 * |d.ins| + 2 * |d.outs| < 0x100
    ensures |p| == 5 + |Body(d, reserved)| + |trailing|
  {
    [tsn, 0] + Le16(nwk) + [|Body(d, reserved)|] + Body(d, reserved) + trailing
  }

  lemma BodyFields(d: Descriptor, reserved: nat)
    requires Valid(d) && reserved < 16
    ensures var sd := Body(d, reserved);
            && sd[..5] == Head(d)
            && sd[5] % 16 == d.version && sd[6] == |d.ins| && sd[7..7 + 2 * |d.ins|] == Words(d.ins)
            && sd[7 + 2 * |d.ins|] == |d.outs| && sd[8 + 2 * |d.ins|..] == Words(d.outs)
  {
    hide Words, Head;
    var sd := Body(d, reserved);
    var head := Head(d);
    var counts: seq<byte> := [d.version + 16 * reserved, |d.ins|];
    assert sd == head + (counts + Words(d.ins) + [|d.outs|] + Words(d.outs));
    assert sd == (head + counts) + (Words(d.ins) + [|d.outs|] + Words(d.outs));
    assert sd == (head + counts + Words(d.ins)) + ([|d.outs|] + Words(d.outs));
    assert (d.version + 16 * reserved) % 16 == d.version;
  }

  lemma CountsOfBody(d: Descriptor, reserved: nat)
    requires Valid(d) && reserved < 16
    ensures InCount(Body(d, reserved)) == |d.ins| && OutCount(Body(d, reserved)) == |d.outs|
  {
    hide Body;
    BodyFields(d, reserved);
  }

  lemma {:induction false} WordsTake(ws: seq<word>, n: nat)
    requires n <= |ws|
    ensures Words(ws)[..2 * n] == Words(ws[..n])
    decreases |ws|
  {
    if n == |ws| {
      assert ws[..n] == ws;
    } else {
      var k := |ws| - 1;
      WordsTake(ws[..k], n);
      assert ws[..k][..n] == ws[..n];
      assert Words(ws)[..2 * n] == Words(ws[..k])[..2 * n];
    }
  }

  /** The reply for a complete frame, in the terms of the descriptor. */
  lemma ReplyOfFrame(tsn: byte, nwk: word, d: Descriptor, reserved: nat, trailing: seq<byte>)
    requires Valid(d) && reserved < 16 && 8 + 2 * |d.ins| + 2 * |d.outs| < 0x100
    ensures Reply(Frame(tsn, nwk, d, reserved, trailing))
         == [STATUS_CATEGORY_ZDO, 0] + Synthesised(Body(d, reserved)) + Le16(nwk)
  {
    hide Body, Synthesised, Le16;
    var sd := Body(d, reserved);
    var p := Frame(tsn, nwk, d, reserved, trailing);
    assert p == ([tsn, 0] + Le16(nwk) + [|sd|]) + sd + trailing;
    assert p[4] == |sd| && p[1] == 0 && p[2..4] == Le16(nwk);
    assert p[5..5 + |sd|] == sd;
  }

  lemma InputList(d: Descriptor, reserved: nat, a: nat)
    requires Valid(d) && reserved < 16 && a <= |d.ins|
    ensures Body(d, reserved)[7..7 + 2 * a] == Words(d.ins[..a])
  {
    hide Body, Words;
    BodyFields(d, reserved);
    var sd := Body(d, reserved);
    var whole := sd[7..7 + 2 * |d.ins|];
    WordsTake(d.ins, a);
    SliceOfSlice(sd, 7, 7 + 2 * |d.ins|, 0, 2 * a);
    assert whole[..2 * a] == whole[0..2 * a];
  }

  /** The descriptor part for a complete body: the output list is taken from where it would start if only the
      capped number of input clusters had been sent. */
  lemma SynthesisedOfBody(d: Descriptor, reserved: nat)
    requires Valid(d) && reserved < 16
    ensures var sd := Body(d, reserved);
            var (a, b) := Cap(|d.ins|, |d.outs|);
            Synthesised(sd) == Assembled(d, a, b, if b == 0 then [] else sd[8 + 2 * a..8 + 2 * a + 2 * b])
  {
    hide Body, Words, Cap, InCount, OutCount, Head;
    BodyFields(d, reserved);
    CountsOfBody(d, reserved);
    InputList(d, reserved, Cap(|d.ins|, |d.outs|).0);
  }

  /** The complete body in the byte order of a Simple_Desc_rsp. */
  lemma BodyOnBytes(d: Descriptor, reserved: nat)
    requires Valid(d) && reserved < 16
    ensures var sd := Body(d, reserved);
            && |sd| == 8 + 2 * |d.ins| + 2 * |d.outs| && sd[0] == d.endpoint
            && sd[1] as nat + 0x100 * (sd[2] as nat) == d.profileId
            && sd[3] as nat + 0x100 * (sd[4] as nat) == d.deviceId
            && sd[5] == d.version + 16 * reserved && sd[6] == |d.ins| && ClustersAt(sd, 7, d.ins)
            && sd[7 + 2 * |d.ins|] == |d.outs| && ClustersAt(sd, 8 + 2 * |d.ins|, d.outs)
  {
    hide Words, ClustersAt;
    var sd := Body(d, reserved);
    var head := Head(d) + [d.version + 16 * reserved, |d.ins|];
    assert sd == head + Words(d.ins) + ([|d.outs|] + Words(d.outs));
    assert sd == (head + Words(d.ins) + [|d.outs|]) + Words(d.outs) + [];
    ClustersInside(head, d.ins, [|d.outs|] + Words(d.outs));
    ClustersInside(head + Words(d.ins) + [|d.outs|], d.outs, []);
  }

  /** Every reply, byte by byte: category, the status of the frame, and at the end its network address; behind another
      status than 0 and for a body too short for the counts there is nothing in between. */
  lemma ReplyOnBytes(p: seq<byte>)
    requires 5 <= |p|
    ensures var s := Reply(p);
            && 4 <= |s| && s[0] == 5 && s[1] == p[1] && s[|s| - 2] == p[2] && s[|s| - 1] == p[3]
            && (p[1] != 0 || p[4] < 7 || |p| < 12 ==> s == [5, p[1], p[2], p[3]])
            && (p[1] == 0 && 7 <= p[4] && 12 <= |p| ==>
                  12 <= |s| && s[2..7] == p[5..10] && s[7] == p[10] % 16
                  && |s| == 12 + 2 * s[8] as nat + 2 * s[9] as nat)
  {
    hide Synthesised;
    var s, avail := Reply(p), Available(p);
    assert p[2..4] == [p[2], p[3]];
    if p[1] == 0 && 7 <= avail {
      var d := Synthesised(p[5..5 + avail]);
      DescriptorOnBytes(p, avail);
      assert s == [STATUS_CATEGORY_ZDO, p[1]] + d + p[2..4];
      assert s[2..7] == d[..5];
    }
  }

  lemma DescriptorOnBytes(p: seq<byte>, avail: nat)
    requires 7 <= avail && 5 + avail <= |p|
    ensures var d := Synthesised(p[5..5 + avail]);
            8 <= |d| && d[..5] == p[5..10] && d[5] == p[10] % 16 && |d| == 8 + 2 * d[6] as nat + 2 * d[7] as nat
  {
    hide InCount, OutCount, Cap;
    var sd := p[5..5 + avail];
    var (a, b) := Cap(InCount(sd), OutCount(sd));
    CountsFit(sd, a, b);
    SliceOfSlice(p, 5, 5 + avail, 0, 5);
    assert sd[..5] == sd[0..5] && sd[5] == p[10];
  }

  /** With its command header the reply to a complete frame has 17 bytes and two for each cluster, of which at most
      32 count: 81 bytes from 32 clusters on. */
  lemma ReplySize(tsn: byte, nwk: word, d: Descriptor, reserved: nat, trailing: seq<byte>)
    requires Valid(d) && reserved < 16 && 8 + 2 * |d.ins| + 2 * |d.outs| < 0x100
    ensures var clusters := |d.ins| + |d.outs|;
            CMD_SIZE + |Reply(Frame(tsn, nwk, d, reserved, trailing))|
              == if clusters < MAX_CLUSTERS then 17 + 2 * clusters else 81
  {
    hide Body, Words, Reply, Frame, Cap, Synthesised, Assembled, Le16;
    ReplyOfFrame(tsn, nwk, d, reserved, trailing);
    SynthesisedOfBody(d, reserved);
    CapKeepsInputs(|d.ins|, |d.outs|);
  }

  lemma OutputList(d: Descriptor, reserved: nat, a: nat, b: nat)
    requires Valid(d) && reserved < 16 && a == |d.ins| && b <= |d.outs|
    ensures Body(d, reserved)[8 + 2 * a..8 + 2 * a + 2 * b] == Words(d.outs[..b])
  {
    hide Body, Words;
    BodyFields(d, reserved);
    var sd := Body(d, reserved);
    WordsTake(d.outs, b);
    SliceOfSlice(sd, 8 + 2 * a, |sd|, 0, 2 * b);
    assert sd[8 + 2 * a..|sd|] == sd[8 + 2 * a..];
    assert sd[8 + 2 * a..][..2 * b] == sd[8 + 2 * a..][0..2 * b];
  }

  /** With at most 32 clusters, or where the cap leaves the input list whole or the output list empty, the reply is
      the one format_response builds, whatever trails behind the body. */
  lemma RepliesAgree(tsn: byte, nwk: word, d: Descriptor, reserved: nat, trailing: seq<byte>)
    requires Valid(d) && reserved < 16 && 8 + 2 * |d.ins| + 2 * |d.outs| < 0x100
    requires |d.ins| + |d.outs| <= MAX_CLUSTERS || |d.ins| <= 16 || |d.outs| == 0
    ensures Reply(Frame(tsn, nwk, d, reserved, trailing)) == Format(0, nwk, d)
  {
    hide Body, Words, Reply, Frame, Cap, Synthesised, Assembled, Le16;
    ReplyOfFrame(tsn, nwk, d, reserved, trailing);
    SynthesisedOfBody(d, reserved);
    CapKeepsInputs(|d.ins|, |d.outs|);
    var (a, b) := Cap(|d.ins|, |d.outs|);
    if b > 0 {
      OutputList(d, reserved, a, b);
    } else {
      NoWords();
      assert d.outs[..b] == [];
    }
    assert Synthesised(Body(d, reserved)) == Assembled(d, a, b, Words(d.outs[..b]));
  }

  /** Frame and formatter agree whatever the clusters are. */
  ghost predicate AgreeAlways(n: nat, m: nat) {
    forall nwk: word, d: Descriptor, trailing: seq<byte> ::
      Valid(d) && |d.ins| == n && |d.outs| == m && 8 + 2 * n + 2 * m < 0x100 ==>
        Reply(Frame(0, nwk, d, 0, trailing)) == Format(0, nwk, d)
  }

  /** Above 32 clusters the output list is looked for behind the capped input count, not behind the real one:
      with `n` input and `m` output clusters the two agree for all contents exactly under this condition. */
  lemma AgreeExactly(n: nat, m: nat)
    requires 8 + 2 * n + 2 * m < 0x100
    ensures AgreeAlways(n, m) <==> n + m <= MAX_CLUSTERS || n <= 16 || m == 0
  {
    hide Reply, Frame, Format;
    if n + m <= MAX_CLUSTERS || n <= 16 || m == 0 {
      forall nwk: word, d: Descriptor, trailing: seq<byte> | Valid(d) && |d.ins| == n && |d.outs| == m
        ensures Reply(Frame(0, nwk, d, 0, trailing)) == Format(0, nwk, d)
      {
        RepliesAgree(0, nwk, d, 0, trailing);
      }
    } else {
      var d := Descriptor(0, 0, 0, 0, seq(n, _ => 0), seq(m, _ => 0xffff));
      RepliesDiffer(d);
      assert Valid(d) && |d.ins| == n && |d.outs| == m;
    }
  }

  /** The first output cluster of the reply is made of bytes of the input list. */
  lemma RepliesDiffer(d: Descriptor)
    requires Valid(d) && 8 + 2 * |d.ins| + 2 * |d.outs| < 0x100
    requires |d.ins| + |d.outs| > MAX_CLUSTERS && 16 < |d.ins| && 0 < |d.outs|
    requires (forall i: nat | i < |d.ins| :: d.ins[i] == 0) && (forall i: nat | i < |d.outs| :: d.outs[i] == 0xffff)
    ensures Reply(Frame(0, 0, d, 0, [])) != Format(0, 0, d)
  {
    hide Body, Words, Reply, Frame, Cap, Synthesised, Assembled, Le16;
    ReplyOfFrame(0, 0, d, 0, []);
    SynthesisedOfBody(d, 0);
    CapKeepsInputs(|d.ins|, |d.outs|);
    var (a, b) := Cap(|d.ins|, |d.outs|);
    InputByte(d, a);
    OutputByte(d, b);
    var sd := Body(d, 0);
    var misread := sd[8 + 2 * a..8 + 2 * a + 2 * b];
    var x, y := Assembled(d, a, b, misread), Assembled(d, a, b, Words(d.outs[..b]));
    assert x[8 + 2 * a] == 0 && y[8 + 2 * a] == 0xff;
    DifferInside([STATUS_CATEGORY_ZDO, 0], x, y, Le16(0), 8 + 2 * a);
  }

  lemma DifferInside(pre: seq<byte>, x: seq<byte>, y: seq<byte>, post: seq<byte>, i: nat)
    requires i < |x| == |y| && x[i] != y[i]
    ensures pre + x + post != pre + y + post
  {
    assert (pre + x + post)[|pre| + i] == x[i];
    assert (pre + y + post)[|pre| + i] == y[i];
  }

  lemma InputByte(d: Descriptor, a: nat)
    requires Valid(d) && a < |d.ins| && d.ins[a] == 0
    ensures Body(d, 0)[8 + 2 * a] == 0
  {
    hide Body, Words;
    BodyFields(d, 0);
    var sd := Body(d, 0);
    assert sd[8 + 2 * a] == sd[7..7 + 2 * |d.ins|][2 * a + 1] == Words(d.ins)[2 * a + 1];
  }

  lemma OutputByte(d: Descriptor, b: nat)
    requires Valid(d) && 0 < b <= |d.outs| && d.outs[0] == 0xffff
    ensures Words(d.outs[..b])[0] == 0xff
  {
    hide Words;
    var ws := d.outs[..b];
    assert ws[0] == 0xffff;
    assert Words(ws)[2 * 0] == ws[0] % 0x100;
  }
}
