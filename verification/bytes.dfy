/** Bytes on the wire and little-endian integers, as every frame, TLV and record of the firmware lays them out. */
module Bytes {

  type byte = n: nat | n < 0x100

  type word = n: nat | n < 0x1_0000

  /** The two bytes memcpy stores for a 16-bit value on a little-endian core. */
  function Le16(n: nat): (s: seq<byte>)
    requires n < 0x1_0000
    ensures |s| == 2
  {
    [n % 0x100, n / 0x100]
  }

  /** The 16-bit value memcpy loads from offset `at`. */
  function U16(s: seq<byte>, at: nat): (n: nat)
    requires at + 2 <= |s|
    ensures n < 0x1_0000
  {
    s[at] as nat + 0x100 * (s[at + 1] as nat)
  }

  function Le32(n: nat): (s: seq<byte>)
    requires n < 0x1_0000_0000
    ensures |s| == 4
  {
    Le16(n % 0x1_0000) + Le16(n / 0x1_0000)
  }

  function U32(s: seq<byte>, at: nat): (n: nat)
    requires at + 4 <= |s|
    ensures n < 0x1_0000_0000
  {
    U16(s, at) + 0x1_0000 * U16(s, at + 2)
  }

  /** A stored 16-bit value is read back, wherever it lies in a longer buffer. */
  lemma U16OfLe16(pre: seq<byte>, n: nat, post: seq<byte>)
    requires n < 0x1_0000
    ensures U16(pre + Le16(n) + post, |pre|) == n
  {
  }

  /** A stored 32-bit value is read back, wherever it lies in a longer buffer. */
  lemma U32OfLe32(pre: seq<byte>, n: nat, post: seq<byte>)
    requires n < 0x1_0000_0000
    ensures U32(pre + Le32(n) + post, |pre|) == n
  {
    var lo, hi := n % 0x1_0000, n / 0x1_0000;
    var s := pre + Le32(n) + post;
    assert s == pre + Le16(lo) + (Le16(hi) + post);
    assert s == (pre + Le16(lo)) + Le16(hi) + post;
    U16OfLe16(pre, lo, Le16(hi) + post);
    U16OfLe16(pre + Le16(lo), hi, post);
  }

  lemma SliceOfSlice(s: seq<byte>, a: nat, b: nat, c: nat, d: nat)
    requires a <= b <= |s| && c <= d <= b - a
    ensures s[a..b][c..d] == s[a + c..a + d]
    ensures d == b - a ==> s[a..b][c..] == s[a + c..b]
  {
    var x, y := s[a..b][c..d], s[a + c..a + d];
    assert |x| == |y| && forall i: nat | i < |x| :: x[i] == y[i];
  }

  /** `piece` lies in `whole` from offset `at` on. */
  predicate At(whole: seq<byte>, at: nat, piece: seq<byte>) {
    at + |piece| <= |whole| && whole[at..at + |piece|] == piece
  }

  /** All the bytes of a list of pieces, in order. */
  function Concat(pieces: seq<seq<byte>>): (s: seq<byte>)
  {
    if pieces == [] then [] else pieces[0] + Concat(pieces[1..])
  }

  lemma ConcatAppend(a: seq<seq<byte>>, b: seq<seq<byte>>)
    ensures Concat(a + b) == Concat(a) + Concat(b)
  {
    if a == [] {
      assert a + b == b;
    } else {
      assert (a + b)[1..] == a[1..] + b;
      ConcatAppend(a[1..], b);
    }
  }
}
