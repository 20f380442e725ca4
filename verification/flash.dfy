/** A NOR flash partition: erasing sets every bit, programming can only clear bits, and either may fail half-way. */
module Flash {
  import opened Bytes

  /** Bitwise and of two bytes. */
  function And(a: nat, b: nat): (c: nat)
    ensures c <= a && c <= b
  {
    if a == 0 then 0 else (a % 2) * (b % 2) + 2 * And(a / 2, b / 2)
  }

  predicate Mask(m: nat) {
    m == 0 || (m % 2 == 1 && Mask(m / 2))
  }

  lemma {:induction false} AndMask(m: nat, b: nat)
    requires Mask(m) && b <= m
    ensures And(m, b) == b
  {
    if m != 0 {
      AndMask(m / 2, b / 2);
    }
  }

  /** Programming an erased byte stores it. */
  lemma AndErased(b: byte)
    ensures And(0xff, b) == b
  {
    assert Mask(1) && Mask(3) && Mask(7) && Mask(15);
    assert Mask(31) && Mask(63) && Mask(127) && Mask(255);
    AndMask(0xff, b);
  }

  /** `programmed` counts how often each byte was programmed since its last erase. */
  datatype Partition = Partition(bytes: seq<byte>, programmed: seq<nat>)

  predicate Sized(p: Partition, n: nat) {
    |p.bytes| == n && |p.programmed| == n
  }

  predicate ProgrammedOnce(p: Partition) {
    forall i: nat | i < |p.programmed| :: p.programmed[i] <= 1
  }

  /** How a flash operation ends: it may stop after some bytes and report an error. */
  datatype Op = Ok | Fails(after: nat)

  function Reached(op: Op, n: nat): (m: nat)
    ensures m <= n && (op.Ok? ==> m == n)
  {
    if op.Ok? || n < op.after then n else op.after
  }

  function Blank(n: nat): (s: seq<byte>)
    ensures |s| == n && forall i: nat | i < n :: s[i] == 0xff
  {
    seq(n, _ => 0xff)
  }

  /** esp_partition_erase_range over the whole partition. */
  function Erase(p: Partition, op: Op): (q: Partition)
    requires Sized(p, |p.bytes|)
    ensures Sized(q, |p.bytes|)
    ensures ProgrammedOnce(p) ==> ProgrammedOnce(q)
    ensures op.Ok? ==> q.bytes == Blank(|p.bytes|) && forall i: nat | i < |q.programmed| :: q.programmed[i] == 0
  {
    var n := Reached(op, |p.bytes|);
    Partition(Blank(n) + p.bytes[n..], seq(n, _ => 0) + p.programmed[n..])
  }

  /** esp_partition_write: bits can only be cleared. */
  function Program(p: Partition, at: nat, data: seq<byte>): (q: Partition)
    requires Sized(p, |p.bytes|) && at + |data| <= |p.bytes|
    ensures Sized(q, |p.bytes|)
    ensures forall i: nat | i < |p.bytes| && !(at <= i < at + |data|) ::
              q.bytes[i] == p.bytes[i] && q.programmed[i] == p.programmed[i]
    ensures forall i: nat | i < |data| ::
              q.bytes[at + i] == And(p.bytes[at + i], data[i]) && q.programmed[at + i] == p.programmed[at + i] + 1
  {
    Partition(seq(|p.bytes|, i requires 0 <= i < |p.bytes| =>
                if at <= i < at + |data| then And(p.bytes[i], data[i - at]) else p.bytes[i]),
              seq(|p.bytes|, i requires 0 <= i < |p.bytes| =>
                if at <= i < at + |data| then p.programmed[i] + 1 else p.programmed[i]))
  }

  function Write(p: Partition, at: nat, data: seq<byte>, op: Op): (q: Partition)
    requires Sized(p, |p.bytes|) && at + |data| <= |p.bytes|
    ensures Sized(q, |p.bytes|)
  {
    Program(p, at, data[..Reached(op, |data|)])
  }

  /** The partition holds `x` and is erased behind it, as after a stream of writes since the last erase. */
  predicate Filled(p: Partition, x: seq<byte>) {
    && Sized(p, |p.bytes|) && |x| <= |p.bytes|
    && p.bytes == x + Blank(|p.bytes| - |x|)
    && (forall i: nat | i < |p.programmed| :: p.programmed[i] == if i < |x| then 1 else 0)
  }

  lemma ErasedIsFilled(p: Partition)
    requires Sized(p, |p.bytes|)
    ensures Filled(Erase(p, Ok), [])
  {
    assert [] + Blank(|p.bytes|) == Blank(|p.bytes|);
  }

  /** Writing right behind what is there appends, and programs every byte once. */
  lemma WriteFills(p: Partition, x: seq<byte>, data: seq<byte>)
    requires Filled(p, x) && |x| + |data| <= |p.bytes|
    ensures Filled(Write(p, |x|, data, Ok), x + data)
  {
    hide And;
    var q := Write(p, |x|, data, Ok);
    var y := x + data;
    assert data[..|data|] == data;
    forall i: nat | i < |q.bytes|
      ensures q.bytes[i] == (y + Blank(|p.bytes| - |y|))[i]
    {
      if |x| <= i < |y| {
        AndErased(data[i - |x|]);
        assert q.bytes[|x| + (i - |x|)] == And(p.bytes[i], data[i - |x|]);
      }
    }
    forall i: nat | i < |q.programmed|
      ensures q.programmed[i] == if i < |y| then 1 else 0
    {
      if |x| <= i < |y| {
        assert q.programmed[|x| + (i - |x|)] == p.programmed[i] + 1;
      }
    }
    assert q.bytes == y + Blank(|p.bytes| - |y|);
  }

  /** A write that fails may stop anywhere, but it programs nothing twice either. */
  lemma WriteOnce(p: Partition, x: seq<byte>, data: seq<byte>, op: Op)
    requires Filled(p, x) && |x| + |data| <= |p.bytes|
    ensures ProgrammedOnce(Write(p, |x|, data, op))
  {
    hide And;
    var q := Write(p, |x|, data, op);
    var n := Reached(op, |data|);
    forall i: nat | i < |q.programmed|
      ensures q.programmed[i] <= 1
    {
      if |x| <= i < |x| + n {
        assert q.programmed[|x| + (i - |x|)] == p.programmed[i] + 1;
      }
    }
  }
}
