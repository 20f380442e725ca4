/** Sending a structured image back to the firmware (RESTORE_STRUCTURED_BACKUP of main/commands_impl.h): the request
    is one frame, and the firmware's receive buffer bounds what one frame can carry. */
module StructuredRestore {
  import opened Bytes
  import opened Collections
  import opened Framing
  import opened Reassembly
  import E = EndToEnd
  import H = HostLink
  import P = Protocol
  import S = StructuredBackup

  const RESTORE_STRUCTURED_BACKUP := 0x9c

  /** How many devices the image may list. */
  function Bound(id: S.Identity): nat {
    if id.key.Some? then 58 else 59
  }

  /** The request a host makes of the image, and the frame it writes. */
  function Request(p: H.Page, id: S.Identity, ns: seq<S.Neighbour>): (data: seq<byte>)
    requires H.WellFormed(p) && S.WellFormed(id) && S.Neighbours(ns)
    ensures |data| == 5 + S.ImageSize(id, |S.Kept(ns)|)
  {
    H.RequestData(p.nextTsn, RESTORE_STRUCTURED_BACKUP, S.Image(id, ns))
  }

  lemma FittingImage(id: S.Identity, ns: seq<S.Neighbour>)
    requires S.WellFormed(id) && S.Neighbours(ns)
    ensures E.Fitting(RESTORE_STRUCTURED_BACKUP, S.Image(id, ns)) <==> |S.Kept(ns)| <= Bound(id)
    ensures 14 + |S.Image(id, ns)| <= RX_BUFFER_SIZE <==> |S.Kept(ns)| <= Bound(id)
  {
    hide S.Image;
  }

  /** What the application has been handed between `l` and `m`. */
  function Handed(l: P.Link, m: P.Link): seq<seq<byte>> {
    if |l.delivered| <= |m.delivered| then m.delivered[|l.delivered|..] else []
  }

  /** A payload that does not fit into the receive buffer together with its header is never handed to the application,
      whatever the bytes and however they are cut. */
  lemma LongPayloadNever(k: Checksums, app: P.App, l: P.Link, x: seq<byte>, r: Receiver, data: seq<byte>,
                         chunks: seq<seq<byte>>)
    requires P.WellFormed(l) && Fits(Ncp, r) && P.Holds(x, r)
    requires forall i: nat | i < |chunks| :: Admissible(Ncp, chunks[i])
    requires RX_BUFFER_SIZE < 9 + |data|
    ensures l.delivered <= P.Runs(k, app, l, r, chunks).delivered
    ensures data !in Handed(l, P.Runs(k, app, l, r, chunks))
    ensures forall c | c in FeedAll(k, Ncp, r, chunks).cuts :: |c.frame| < 9 + |data|
  {
    hide P.Runs, FeedAll, GoodCut, P.Dispatchable, P.Unflagged, P.Holds;
    var fed, at, payloads := P.OnlyGoodPayloads(k, app, l, x, r, chunks);
    assert Handed(l, P.Runs(k, app, l, r, chunks)) == payloads;
    forall i: nat | i < |payloads|
      ensures payloads[i] != data
    {
      var f := P.Frames(fed.cuts)[at[i]];
      assert f == fed.cuts[at[i]].frame && P.Dispatchable(k, f);
      ShorterThanFrame(k, f);
      assert payloads[i] == Payload(f);
    }
  }

  lemma ShorterThanFrame(k: Checksums, f: seq<byte>)
    requires P.Dispatchable(k, f)
    ensures 9 <= |f| && |Payload(f)| == |f| - 9
  {
  }

  /** The chunking in which the frame arrives at once. */
  lemma AtOnce(k: Checksums, f: seq<byte>)
    requires |f| <= RX_BUFFER_SIZE
    ensures Admissible(Ncp, [f][0]) && Concat([f]) == f && Lossless(k, Ncp, FRESH, [f])
  {
    hide Scan, Leftover;
    assert [f][1..] == [];
    assert f + [] == f;
    assert |Trim(FRESH.buf)| == 0;
  }

  /** The frame `f` carries the image of this identity and neighbour table back. */
  predicate Carries(k: Checksums, p: H.Page, id: S.Identity, ns: seq<S.Neighbour>, f: seq<byte>) {
    && H.WellFormed(p) && S.WellFormed(id) && S.Neighbours(ns)
    && H.Commands(k, p, RESTORE_STRUCTURED_BACKUP, S.Image(id, ns)).written == p.written + [f]
  }

  /** Up to 58 devices, 59 without a key: every chunking of the frame that evicts no live byte brings exactly the
      request to the application. */
  lemma SmallImageArrives(k: Checksums, app: P.App, l: P.Link, p: H.Page, id: S.Identity, ns: seq<S.Neighbour>,
                          f: seq<byte>, chunks: seq<seq<byte>>, m: P.Link)
    requires P.WellFormed(l) && Carries(k, p, id, ns, f) && |S.Kept(ns)| <= Bound(id)
    ensures P.Gets(k, app, l, f, chunks, m) ==>
              && m.delivered == l.delivered + [Request(p, id, ns)]
              && H.IsRequest(Request(p, id, ns), p.nextTsn, 0x9c, S.Image(id, ns))
  {
    hide P.Runs, FeedAll, Lossless, H.Commands, S.Image, Concat;
    var image := S.Image(id, ns);
    FittingImage(id, ns);
    WrittenFrame(k, p, image, f);
    if P.Gets(k, app, l, f, chunks, m) {
      assert [] + f == f;
      E.ArrivesBehindGarbage(k, app, l, p, RESTORE_STRUCTURED_BACKUP, image, [], f, chunks, m);
    }
  }

  /** Above that the request is never handed to the application and no frame as long as this one is ever cut, whatever
      bytes arrive and however they are cut into chunks. */
  lemma LargeImageNeverArrives(k: Checksums, app: P.App, l: P.Link, x: seq<byte>, r: Receiver, p: H.Page,
                               id: S.Identity, ns: seq<S.Neighbour>, f: seq<byte>, chunks: seq<seq<byte>>)
    requires Carries(k, p, id, ns, f) && |S.Kept(ns)| > Bound(id)
    requires P.WellFormed(l) && Fits(Ncp, r) && P.Holds(x, r)
    requires forall i: nat | i < |chunks| :: Admissible(Ncp, chunks[i])
    ensures Request(p, id, ns) !in Handed(l, P.Runs(k, app, l, r, chunks))
    ensures forall c | c in FeedAll(k, Ncp, r, chunks).cuts :: |c.frame| < |f|
  {
    hide P.Runs, FeedAll, H.Commands, S.Image, Concat, P.Holds;
    FittingImage(id, ns);
    WrittenFrame(k, p, S.Image(id, ns), f);
    LongPayloadNever(k, app, l, x, r, Request(p, id, ns), chunks);
  }

  /** The frame in these chunks brings the payload to the application. */
  predicate Brings(k: Checksums, app: P.App, l: P.Link, f: seq<byte>, chunks: seq<seq<byte>>, data: seq<byte>)
    requires P.WellFormed(l)
  {
    && (forall i: nat | i < |chunks| :: Admissible(Ncp, chunks[i])) && Concat(chunks) == f
    && data in Handed(l, P.Runs(k, app, l, FRESH, chunks))
  }

  lemma FrameAtOnce(k: Checksums, app: P.App, l: P.Link, p: H.Page, id: S.Identity, ns: seq<S.Neighbour>, f: seq<byte>)
    requires P.WellFormed(l) && Carries(k, p, id, ns, f) && |S.Kept(ns)| <= Bound(id)
    ensures Brings(k, app, l, f, [f], Request(p, id, ns))
  {
    hide P.Runs, Lossless, S.Image, H.Commands, Concat;
    FittingImage(id, ns);
    WrittenFrame(k, p, S.Image(id, ns), f);
    AtOnce(k, f);
    SmallImageArrives(k, app, l, p, id, ns, f, [f], P.Runs(k, app, l, FRESH, [f]));
  }

  /** With a fresh buffer: some chunking of the frame brings the request to the application if and only if the table
      has at most 58 devices, 59 without a key. */
  lemma RestorableDevices(k: Checksums, app: P.App, l: P.Link, p: H.Page, id: S.Identity, ns: seq<S.Neighbour>,
                          f: seq<byte>)
    requires P.WellFormed(l) && Carries(k, p, id, ns, f)
    ensures (exists chunks: seq<seq<byte>> :: Brings(k, app, l, f, chunks, Request(p, id, ns)))
       <==> |S.Kept(ns)| <= Bound(id)
  {
    hide Brings, H.Commands, S.Image, Request;
    if |S.Kept(ns)| <= Bound(id) {
      FrameAtOnce(k, app, l, p, id, ns, f);
    } else {
      forall chunks: seq<seq<byte>>
        ensures !Brings(k, app, l, f, chunks, Request(p, id, ns))
      {
        NothingBrings(k, app, l, p, id, ns, f, chunks);
      }
    }
  }

  lemma NothingBrings(k: Checksums, app: P.App, l: P.Link, p: H.Page, id: S.Identity, ns: seq<S.Neighbour>,
                      f: seq<byte>, chunks: seq<seq<byte>>)
    requires P.WellFormed(l) && Carries(k, p, id, ns, f) && |S.Kept(ns)| > Bound(id)
    ensures !Brings(k, app, l, f, chunks, Request(p, id, ns))
  {
    hide P.Runs, H.Commands, S.Image, Request, Concat, P.Holds, Handed;
    FreshHolds();
    if Brings(k, app, l, f, chunks, Request(p, id, ns)) {
      LargeImageNeverArrives(k, app, l, [], FRESH, p, id, ns, f, chunks);
    }
  }

  lemma FreshHolds()
    ensures P.Holds([], FRESH) && Fits(Ncp, FRESH)
  {
  }

  lemma WrittenFrame(k: Checksums, p: H.Page, image: seq<byte>, f: seq<byte>)
    requires H.WellFormed(p) && |image| <= S.MAX_IMAGE_SIZE
    requires H.Commands(k, p, RESTORE_STRUCTURED_BACKUP, image).written == p.written + [f]
    ensures |f| == 14 + |image|
  {
    hide H.Commands;
    var g := E.CommandIsPlain(k, p, RESTORE_STRUCTURED_BACKUP, image);
    assert (p.written + [g])[|p.written|] == g && (p.written + [f])[|p.written|] == f;
  }

  /** The firmware can never be handed this request, whatever arrives. */
  ghost predicate OutOfReach(k: Checksums, app: P.App, l: P.Link, r: Receiver, data: seq<byte>)
    requires P.WellFormed(l) && Fits(Ncp, r)
  {
    forall chunks: seq<seq<byte>> ::
      (forall i: nat | i < |chunks| :: Admissible(Ncp, chunks[i])) ==>
        data !in Handed(l, P.Runs(k, app, l, r, chunks))
  }

  /** 59 devices and a key: an image the firmware emits, accepts, and can never be handed back. */
  lemma FiftyNineDevicesNever(k: Checksums, app: P.App, l: P.Link, x: seq<byte>, r: Receiver, p: H.Page)
    returns (id: S.Identity, ns: seq<S.Neighbour>)
    requires H.WellFormed(p) && P.WellFormed(l) && Fits(Ncp, r) && P.Holds(x, r)
    ensures S.WellFormed(id) && id.key.Some? && S.Neighbours(ns) && |ns| == 59
    ensures S.Accepted(S.Image(id, ns)) && OutOfReach(k, app, l, r, Request(p, id, ns))
  {
    hide S.Image, S.Accepted, P.Runs, P.Holds;
    var eight: seq<byte>, sixteen: seq<byte> := seq(8, _ => 0), seq(16, _ => 0);
    id := S.Identity(0, eight, 11, 0, eight, Some(sixteen), 0);
    ns := seq(59, _ => S.Neighbour(eight, 0, 0, 0, 0, 0, 0));
    S.ImageIsAccepted(id, ns);
    forall chunks: seq<seq<byte>> | forall i: nat | i < |chunks| :: Admissible(Ncp, chunks[i])
      ensures Request(p, id, ns) !in Handed(l, P.Runs(k, app, l, r, chunks))
    {
      LongPayloadNever(k, app, l, x, r, Request(p, id, ns), chunks);
    }
  }
}
