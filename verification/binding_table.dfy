/** The binding table on the wire: format_response of ZDO_MGMT_BIND_REQ in main/commands_impl.h writes records whose
    length depends on their address mode, parse_records of test/bind_table_tool.py reads them back. */
module BindingTable {
  import opened Bytes
  import opened Collections

  const MAX_RECORDS := 64
  const STATUS_CATEGORY_ZDO: byte := 5

  /** zb_zdo_binding_table_record_t; which of the destination fields mean anything depends on dstAddrMode. */
  datatype Record = Record(srcAddress: seq<byte>, srcEndp: byte, clusterId: word, dstAddrMode: byte,
                           addrShort: word, addrLong: seq<byte>, dstEndp: byte)

  predicate WellFormed(r: Record) {
    |r.srcAddress| == 8 && |r.addrLong| == 8
  }

  /** The response ZBOSS hands over: status, table size, start index and the records behind the header. */
  datatype Response = Response(status: byte, entries: byte, startIndex: byte, records: seq<Record>)

  predicate Valid(resp: Response) {
    |resp.records| < 0x100 && forall i: nat | i < |resp.records| :: WellFormed(resp.records[i])
  }

  // ---- The emitter ------------------------------------------------------------------------------

  function Destination(r: Record): (s: seq<byte>)
    requires WellFormed(r)
    ensures |s| <= 9
  {
    if r.dstAddrMode == 0x01 then Le16(r.addrShort)
    else if r.dstAddrMode == 0x03 then r.addrLong + [r.dstEndp]
    else []
  }

  function Encode(r: Record): (s: seq<byte>)
    requires WellFormed(r)
    ensures |s| == 12 + |Destination(r)|
  {
    r.srcAddress + [r.srcEndp] + Le16(r.clusterId) + [r.dstAddrMode] + Destination(r)
  }

  function EncodeAll(rs: seq<Record>): (s: seq<byte>)
    requires forall i: nat | i < |rs| :: WellFormed(rs[i])
    ensures |s| <= 21 * |rs|
  {
    if rs == [] then [] else Encode(rs[0]) + EncodeAll(rs[1..])
  }

  function Kept(rs: seq<Record>): (ks: seq<Record>)
    ensures |ks| <= MAX_RECORDS && ks <= rs
  {
    if |rs| > MAX_RECORDS then rs[..MAX_RECORDS] else rs
  }

  lemma {:induction false} EncodeAllSnoc(rs: seq<Record>, r: Record)
    requires WellFormed(r) && forall i: nat | i < |rs| :: WellFormed(rs[i])
    ensures forall i: nat | i < |rs + [r]| :: WellFormed((rs + [r])[i])
    ensures EncodeAll(rs + [r]) == EncodeAll(rs) + Encode(r)
    decreases |rs|
  {
    hide Encode, WellFormed;
    assert forall i: nat | i < |rs + [r]| :: (rs + [r])[i] == if i < |rs| then rs[i] else r;
    if rs == [] {
      assert rs + [r] == [r] && [r][1..] == [];
    } else {
      assert (rs + [r])[1..] == rs[1..] + [r];
      EncodeAllSnoc(rs[1..], r);
      var first, rest, last := Encode(rs[0]), EncodeAll(rs[1..]), Encode(r);
      assert (first + rest) + last == first + (rest + last);
    }
  }

  /** format_response: a count above 64 is patched to 64, and so many records are written. */
  method FormatResponse(resp: Response) returns (out: seq<byte>)
    requires Valid(resp)
    ensures var kept := Kept(resp.records);
            out == [STATUS_CATEGORY_ZDO, resp.status, resp.entries, resp.startIndex, |kept|] + EncodeAll(kept)
    ensures |out| <= 5 + MAX_RECORDS * 21 && (|resp.records| <= 64 ==> Kept(resp.records) == resp.records)
    ensures |resp.records| > 64 ==> out[4] == 64 && Kept(resp.records) == resp.records[..64]
  {
    hide EncodeAll, Destination;
    out := [STATUS_CATEGORY_ZDO, resp.status, resp.entries, resp.startIndex, |resp.records|];
    var cnt := |resp.records|;
    if cnt > 64 {
      cnt := 64;
      out := out[4 := cnt];
    }
    ghost var head := out;
    var i := 0;
    EncodeNone();
    assert resp.records[..0] == [];
    while i < cnt
      invariant 0 <= i <= cnt == |Kept(resp.records)|
      invariant out == head + EncodeAll(resp.records[..i])
    {
      var src := resp.records[i];
      EncodeAllSnoc(resp.records[..i], src);
      assert resp.records[..i + 1] == resp.records[..i] + [src];
      out := out + Encode(src);
      i := i + 1;
    }
    assert resp.records[..i] == Kept(resp.records);
  }

  lemma EncodeNone()
    ensures EncodeAll([]) == []
  {
  }

  /** A record byte by byte: source address, endpoint, cluster, address mode; then a short destination, or a long one
      with its endpoint, or nothing. */
  lemma RecordOnBytes(r: Record)
    requires WellFormed(r)
    ensures var s := Encode(r);
            && s[..8] == r.srcAddress && s[8] == r.srcEndp
            && s[9] as nat + 0x100 * (s[10] as nat) == r.clusterId && s[11] == r.dstAddrMode
            && (r.dstAddrMode == 1 ==> |s| == 14 && s[12] as nat + 0x100 * (s[13] as nat) == r.addrShort)
            && (r.dstAddrMode == 3 ==> |s| == 21 && s[12..20] == r.addrLong && s[20] == r.dstEndp)
            && (r.dstAddrMode != 1 && r.dstAddrMode != 3 ==> |s| == 12)
  {
    var s := Encode(r);
    assert s == r.srcAddress + ([r.srcEndp] + Le16(r.clusterId) + [r.dstAddrMode] + Destination(r));
    if r.dstAddrMode == 3 {
      assert s[12..20] == r.addrLong;
    }
  }

  // ---- The parser -------------------------------------------------------------------------------

  /** One dict of parse_records. */
  datatype Entry = Entry(src: seq<byte>, srcEp: byte, cluster: nat, mode: byte,
                         dst: Option<seq<byte>>, dstShort: Option<nat>, dstEp: Option<byte>)

  /** What the host can see of a record. */
  function Seen(r: Record): Entry {
    Entry(r.srcAddress, r.srcEndp, r.clusterId, r.dstAddrMode,
          if r.dstAddrMode == 0x03 then Some(r.addrLong) else None,
          if r.dstAddrMode == 0x01 then Some(r.addrShort) else None,
          if r.dstAddrMode == 0x03 then Some(r.dstEndp) else None)
  }

  /** The record at position `p` and the position behind it; None where indexing raises. */
  function ParseOne(body: seq<byte>, p: nat): (r: Option<(Entry, nat)>)
    requires p + 12 <= |body|
    ensures r.Some? ==> p + 12 <= r.value.1 <= |body|
  {
    var src, srcEp, cluster, mode := body[p..p + 8], body[p + 8], U16(body, p + 9), body[p + 11];
    if mode == 0x01 then
      if p + 14 > |body| then None
      else Some((Entry(src, srcEp, cluster, mode, None, Some(U16(body, p + 12)), None), p + 14))
    else if mode == 0x03 then
      if p + 21 > |body| then None
      else Some((Entry(src, srcEp, cluster, mode, Some(body[p + 12..p + 20]), None, Some(body[p + 20])), p + 21))
    else
      Some((Entry(src, srcEp, cluster, mode, None, None, None), p + 12))
  }

  /** `count` records from position `p` on, fewer when the body ends first. */
  function ParseFrom(body: seq<byte>, p: nat, count: nat): (r: Option<seq<Entry>>)
    requires p <= |body|
    decreases count
  {
    if count == 0 || p + 12 > |body| then
      Some([])
    else
      var one := ParseOne(body, p);
      if one.None? then
        None
      else
        var rest := ParseFrom(body, one.value.1, count - 1);
        if rest.None? then None else Some([one.value.0] + rest.value)
  }

  datatype Table = Table(entries: byte, start: byte, count: byte, recs: seq<Entry>)

  /** parse_records on any bytes; None where it raises. */
  method ParseRecords(body: seq<byte>) returns (t: Option<Table>)
    ensures t == if |body| < 3 || ParseFrom(body, 3, body[2]).None? then None
                 else Some(Table(body[0], body[1], body[2], ParseFrom(body, 3, body[2]).value))
  {
    if |body| < 3 {
      return None;
    }
    var recs: seq<Entry> := [];
    var p: nat := 3;
    var left: nat := body[2];
    ghost var all := ParseFrom(body, 3, left);
    assert all.Some? ==> [] + all.value == all.value;
    while left > 0
      invariant p <= |body|
      invariant var all, rest := ParseFrom(body, 3, body[2]), ParseFrom(body, p, left);
                all == if rest.None? then None else Some(recs + rest.value)
      decreases left
    {
      if p + 12 > |body| {
        break;
      }
      ghost var rest := ParseFrom(body, p, left);
      var one := ParseOne(body, p);
      if one.None? {
        return None;
      }
      assert rest.Some? ==> recs + rest.value == recs + [one.value.0] + rest.value[1..];
      recs := recs + [one.value.0];
      p := one.value.1;
      left := left - 1;
    }
    assert recs + [] == recs;
    return Some(Table(body[0], body[1], body[2], recs));
  }

  // ---- Round trip -------------------------------------------------------------------------------

  lemma FieldsOf(pre: seq<byte>, r: Record, post: seq<byte>)
    requires WellFormed(r)
    ensures var body := pre + Encode(r) + post;
            var p := |pre|;
            && p + 12 <= |body| && body[p..p + 8] == r.srcAddress && body[p + 8] == r.srcEndp
            && U16(body, p + 9) == r.clusterId && body[p + 11] == r.dstAddrMode
            && body[p + 12..p + 12 + |Destination(r)|] == Destination(r)
  {
    hide U16, Destination;
    var body := pre + Encode(r) + post;
    var front := pre + r.srcAddress + [r.srcEndp];
    var back := [r.dstAddrMode] + Destination(r) + post;
    assert body == front + Le16(r.clusterId) + back;
    U16OfLe16(front, r.clusterId, back);
    assert |front| == |pre| + 9;
  }

  lemma ParseEncoded(pre: seq<byte>, r: Record, post: seq<byte>)
    requires WellFormed(r)
    ensures var body := pre + Encode(r) + post;
            |pre| + 12 <= |body| && ParseOne(body, |pre|) == Some((Seen(r), |pre| + |Encode(r)|))
  {
    FieldsOf(pre, r, post);
    hide Encode, U16;
    var body := pre + Encode(r) + post;
    var p := |pre|;
    if r.dstAddrMode == 0x01 {
      var split := body[..p + 12];
      assert body == split + Le16(r.addrShort) + body[p + 14..];
      U16OfLe16(split, r.addrShort, body[p + 14..]);
    } else if r.dstAddrMode == 0x03 {
      var d := body[p + 12..p + 21];
      assert d[..8] == r.addrLong && d[8] == r.dstEndp;
      assert body[p + 12..p + 20] == d[..8] && body[p + 20] == d[8];
    }
  }

  function SeenAll(rs: seq<Record>): (es: seq<Entry>)
    ensures |es| == |rs|
  {
    seq(|rs|, i requires 0 <= i < |rs| => Seen(rs[i]))
  }

  lemma {:induction false} ParseAll(pre: seq<byte>, rs: seq<Record>)
    requires forall i: nat | i < |rs| :: WellFormed(rs[i])
    ensures ParseFrom(pre + EncodeAll(rs), |pre|, |rs|) == Some(SeenAll(rs))
    decreases |rs|
  {
    hide Encode, ParseOne, Seen;
    if rs != [] {
      var rest := EncodeAll(rs[1..]);
      var body := pre + EncodeAll(rs);
      assert body == pre + Encode(rs[0]) + rest;
      ParseEncoded(pre, rs[0], rest);
      ParseAll(pre + Encode(rs[0]), rs[1..]);
      assert SeenAll(rs) == [Seen(rs[0])] + SeenAll(rs[1..]);
    }
  }

  /** Whatever mix of short, long and reserved addresses: the host's parser gets all records back and their number, of
      more than 64 the first 64. */
  lemma RoundTrip(resp: Response, out: seq<byte>)
    requires Valid(resp)
    requires var kept := Kept(resp.records);
             out == [STATUS_CATEGORY_ZDO, resp.status, resp.entries, resp.startIndex, |kept|] + EncodeAll(kept)
    ensures 5 <= |out|
    ensures var body := out[2..];
            && body[0] == resp.entries && body[1] == resp.startIndex
            && body[2] == (if |resp.records| <= 64 then |resp.records| else 64)
            && (|resp.records| <= 64 ==> ParseFrom(body, 3, body[2]) == Some(SeenAll(resp.records)))
            && (|resp.records| > 64 ==> ParseFrom(body, 3, body[2]) == Some(SeenAll(resp.records[..64])))
  {
    hide EncodeAll, ParseFrom;
    var kept := Kept(resp.records);
    var pre: seq<byte> := [resp.entries, resp.startIndex, |kept|];
    assert out[2..] == pre + EncodeAll(kept);
    ParseAll(pre, kept);
  }
}
