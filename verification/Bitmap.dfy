/** The free map: one bit per disk block, eight to a byte, as balloc and bfree set and clear them. */
module Bitmap {
  import opened Blocks

  const BPB: nat := 4096   // bitmap bits per block

  /** 1 << k */
  function Mask(k: nat): (m: nat)
    ensures m > 0
  {
    if k == 0 then 1 else 2 * Mask(k - 1)
  }

  /** (x & (1 << k)) != 0 */
  predicate Bit(x: nat, k: nat) {
    if k == 0 then x % 2 == 1 else Bit(x / 2, k - 1)
  }

  lemma {:induction false} BitRange(x: nat, k: nat, n: nat)
    requires k < n && x < Mask(n)
    ensures Bit(x, k) ==> Mask(k) <= x
    ensures !Bit(x, k) ==> x + Mask(k) < Mask(n)
  {
    if k > 0 {
      BitRange(x / 2, k - 1, n - 1);
    }
  }

  lemma ByteRange()
    ensures Mask(8) == 256
  {
    assert Mask(2) == 4 && Mask(4) == 16 && Mask(6) == 64;
  }

  /** Adding or removing one bit's mask changes that bit and leaves the others alone. */
  lemma {:induction false} OtherBits(x: nat, k: nat, j: nat)
    ensures !Bit(x, k) ==> (Bit(x + Mask(k), j) <==> j == k || Bit(x, j))
    ensures Bit(x, k) ==> x >= Mask(k) && (Bit(x - Mask(k), j) <==> j != k && Bit(x, j))
  {
    if k == 0 {
      if !Bit(x, k) { assert (x + 1) / 2 == x / 2; } else { assert (x - 1) / 2 == x / 2; }
    } else {
      OtherBits(x / 2, k - 1, if j == 0 then 0 else j - 1);
      var m := Mask(k - 1);
      if !Bit(x, k) {
        assert (x + 2 * m) / 2 == x / 2 + m && (x + 2 * m) % 2 == x % 2;
      } else {
        assert (x - 2 * m) / 2 == x / 2 - m && (x - 2 * m) % 2 == x % 2;
      }
    }
  }

  predicate GetBit(b: Block, i: nat)
    requires i < BPB
  {
    Bit(b[i / 8] as int, i % 8)
  }

  /** data[bi/8] |= m where the bit is clear, data[bi/8] &= ~m where it is set. */
  function FlipBit(b: Block, i: nat): Block
    requires i < BPB
  {
    var x, m := b[i / 8] as int, Mask(i % 8);
    ByteRange(); BitRange(x, i % 8, 8);
    b[i / 8 := if GetBit(b, i) then x - m else x + m]
  }

  lemma FlipBitOnly(b: Block, i: nat)
    requires i < BPB
    ensures forall j: nat :: j < BPB ==> (GetBit(FlipBit(b, i), j) <==> GetBit(b, j) != (j == i))
  {
    forall j: nat | j < BPB ensures GetBit(FlipBit(b, i), j) <==> GetBit(b, j) != (j == i) {
      if j / 8 == i / 8 { OtherBits(b[i / 8] as int, i % 8, j % 8); }
    }
  }
}
