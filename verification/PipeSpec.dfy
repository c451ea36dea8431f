/** The pipe of pipe.c: a ring of 512 bytes between two counters that wrap at 2^32, shared by any number of readers
    and writers that sleep on one or the other counter. */
module PipeSpec {
  import opened Blocks

  const PIPESIZE: nat := 512

  datatype Ring = Ring(data: seq<Byte>, nread: nat, nwrite: nat, readopen: bool, writeopen: bool)

  predicate IsRing(q: Ring) { |q.data| == PIPESIZE && q.nread < UINT && q.nwrite < UINT }

  predicate Full(q: Ring) { q.nwrite == (q.nread + PIPESIZE) % UINT }

  predicate Empty(q: Ring) { q.nread == q.nwrite }

  function PutByte(q: Ring, b: Byte): Ring
    requires IsRing(q)
  {
    q.(data := q.data[q.nwrite % PIPESIZE := b], nwrite := (q.nwrite + 1) % UINT)
  }

  function NextByte(q: Ring): Byte
    requires IsRing(q)
  {
    q.data[q.nread % PIPESIZE]
  }

  function TakeByte(q: Ring): Ring { q.(nread := (q.nread + 1) % UINT) }

  /** The bytes between the counters. */
  function Count(q: Ring): nat
    requires IsRing(q)
  {
    (q.nwrite + UINT - q.nread) % UINT
  }

  function InFlight(q: Ring): seq<Byte>
    requires IsRing(q)
  {
    seq(Count(q), j requires 0 <= j < Count(q) => q.data[(q.nread + j) % UINT % PIPESIZE])
  }

  /** At most 512 bytes are in flight; then the tests on the counters mean what they say. */
  predicate Sound(q: Ring) { IsRing(q) && Count(q) <= PIPESIZE }

  lemma Tests(q: Ring)
    requires Sound(q)
    ensures Full(q) <==> Count(q) == PIPESIZE
    ensures Empty(q) <==> Count(q) == 0
  {
  }

  /** Byte j of the bytes in flight, without the wrap of the counter. */
  lemma Slot(q: Ring, j: nat)
    requires IsRing(q) && j <= PIPESIZE
    ensures (q.nread + j) % UINT % PIPESIZE == (q.nread + j) % PIPESIZE
    ensures j == Count(q) ==> (q.nread + j) % UINT == q.nwrite
  {
  }

  /** The byte put next does not land on one in flight. */
  lemma SlotsApart(q: Ring, j: nat)
    requires IsRing(q) && j < Count(q) < PIPESIZE
    ensures (q.nread + j) % UINT % PIPESIZE != q.nwrite % PIPESIZE
  {
    Slot(q, j);
    Slot(q, Count(q));
  }

  lemma Wraps(x: nat)
    requires x < 2 * UINT
    ensures x % UINT == if x < UINT then x else x - UINT
  {
  }

  lemma PutCount(q: Ring, b: Byte)
    requires Sound(q) && !Full(q)
    ensures Count(q) < PIPESIZE && Count(PutByte(q, b)) == Count(q) + 1
  {
    Tests(q);
    Wraps(q.nwrite + 1);
    Wraps(q.nwrite + UINT - q.nread);
    Wraps((q.nwrite + 1) % UINT + UINT - q.nread);
  }

  lemma {:induction false} PutInFlight(q: Ring, b: Byte)
    requires Sound(q) && !Full(q)
    ensures Sound(PutByte(q, b)) && InFlight(PutByte(q, b)) == InFlight(q) + [b]
  {
    var q' := PutByte(q, b);
    PutCount(q, b);
    forall j: nat | j < Count(q') ensures InFlight(q')[j] == (InFlight(q) + [b])[j] {
      if j < Count(q) { SlotsApart(q, j); } else { Slot(q, j); }
    }
  }

  lemma TakeCount(q: Ring)
    requires Sound(q) && !Empty(q)
    ensures Count(q) > 0 && IsRing(TakeByte(q)) && Count(TakeByte(q)) == Count(q) - 1
  {
  }

  lemma TakeSlot(x: nat, j: nat)
    ensures ((x + 1) % UINT + j) % UINT == (x + (j + 1)) % UINT
  {
  }

  lemma {:induction false} TakeInFlight(q: Ring)
    requires Sound(q) && !Empty(q)
    ensures Sound(TakeByte(q)) && Count(q) > 0
    ensures NextByte(q) == InFlight(q)[0] && InFlight(TakeByte(q)) == InFlight(q)[1..]
  {
    TakeCount(q);
    Slot(q, 0);
    forall j: nat | j < Count(TakeByte(q)) ensures InFlight(TakeByte(q))[j] == InFlight(q)[1..][j] {
      TakeSlot(q.nread, j);
    }
  }

  /** pipewrite's copying: bytes of src from i on, until all are in or the ring is full. */
  function Fill(q: Ring, src: seq<Byte>, i: nat): (r: (Ring, nat))
    requires IsRing(q) && i <= |src|
    ensures IsRing(r.0) && i <= r.1 <= |src| && (r.1 == |src| || Full(r.0))
    ensures r.0.readopen == q.readopen && r.0.writeopen == q.writeopen
    decreases |src| - i
  {
    if i == |src| || Full(q) then (q, i) else Fill(PutByte(q, src[i]), src, i + 1)
  }

  lemma {:induction false} FillInFlight(q: Ring, src: seq<Byte>, i: nat)
    requires Sound(q) && i <= |src|
    ensures var r := Fill(q, src, i); Sound(r.0) && InFlight(r.0) == InFlight(q) + src[i..r.1]
    decreases |src| - i
  {
    if i < |src| && !Full(q) {
      PutInFlight(q, src[i]);
      FillInFlight(PutByte(q, src[i]), src, i + 1);
      var r := Fill(q, src, i);
      assert [src[i]] + src[i + 1..r.1] == src[i..r.1];
      assert InFlight(q) + [src[i]] + src[i + 1..r.1] == InFlight(q) + ([src[i]] + src[i + 1..r.1]);
    } else {
      assert src[i..i] == [];
    }
  }

  /** piperead's copying: up to n bytes, until the ring is empty. */
  function Drain(q: Ring, n: nat): (r: (Ring, seq<Byte>))
    requires IsRing(q)
    ensures IsRing(r.0) && (|r.1| == n || (|r.1| < n && Empty(r.0)))
    ensures r.0.readopen == q.readopen && r.0.writeopen == q.writeopen
    decreases n
  {
    if n == 0 || Empty(q) then (q, [])
    else
      var r := Drain(TakeByte(q), n - 1);
      (r.0, [NextByte(q)] + r.1)
  }

  /** One turn of each. */
  lemma FillNext(q: Ring, src: seq<Byte>, i: nat, next: nat)
    requires IsRing(q) && i < |src| && next == i + 1 && !Full(q)
    ensures Fill(q, src, i) == Fill(PutByte(q, src[i]), src, next)
  {
  }

  lemma DrainNext(q: Ring, n: nat, rest: nat)
    requires IsRing(q) && n == rest + 1 && !Empty(q)
    ensures Drain(q, n).0 == Drain(TakeByte(q), rest).0 && Drain(q, n).1 == [NextByte(q)] + Drain(TakeByte(q), rest).1
  {
  }

  lemma {:induction false} DrainInFlight(q: Ring, n: nat)
    requires Sound(q)
    ensures var r := Drain(q, n); Sound(r.0) && InFlight(q) == r.1 + InFlight(r.0)
    decreases n
  {
    if n > 0 && !Empty(q) {
      TakeInFlight(q);
      DrainInFlight(TakeByte(q), n - 1);
      var r := Drain(TakeByte(q), n - 1);
      assert [NextByte(q)] + r.1 + InFlight(r.0) == [NextByte(q)] + (r.1 + InFlight(r.0));
      assert InFlight(q) == [InFlight(q)[0]] + InFlight(q)[1..];
    } else {
      assert [] + InFlight(q) == InFlight(q);
    }
  }
}
