/** Disk blocks as the kernel sees them: 512 bytes, read either as bytes or as
    little-endian 32-bit words. */
module Blocks {

  const BSIZE: nat := 512
  const WORDS: nat := 128          // BSIZE / sizeof(uint)
  const UINT: nat := 0x1_0000_0000 // one past the largest uint

  type Byte = x: int | 0 <= x < 256
  type Block = b: seq<Byte> | |b| == BSIZE witness seq(BSIZE, _ => 0)

  function ZeroBlock(): Block { seq(BSIZE, _ => 0) }

  /** A block as an array of words, the view taken by `(uint*)bp->data`. */
  function GetWord(b: Block, i: nat): (w: nat)
    requires i < WORDS
    ensures w < UINT
  {
    (b[4 * i] as int) + 0x100 * (b[4 * i + 1] as int) +
    0x1_0000 * (b[4 * i + 2] as int) + 0x100_0000 * (b[4 * i + 3] as int)
  }

  function PutWord(b: Block, i: nat, w: nat): Block
    requires i < WORDS && w < UINT
  {
    b[4 * i := w % 0x100][4 * i + 1 := w / 0x100 % 0x100]
     [4 * i + 2 := w / 0x1_0000 % 0x100][4 * i + 3 := w / 0x100_0000]
  }

  lemma TwoBytes(w: nat)
    ensures w == w % 0x100 + 0x100 * (w / 0x100) && w / 0x100 / 0x100 == w / 0x1_0000
  {
  }

  /** A word is the sum of its bytes. */
  lemma WordBytes(w: nat)
    requires w < UINT
    ensures w == w % 0x100 + 0x100 * (w / 0x100 % 0x100) + 0x1_0000 * (w / 0x1_0000 % 0x100) +
                 0x100_0000 * (w / 0x100_0000)
  {
    TwoBytes(w);
    TwoBytes(w / 0x100);
    TwoBytes(w / 0x1_0000);
    assert w / 0x1_0000 / 0x100 == w / 0x100_0000;
  }

  /** Storing a word is seen by the load of the same word and by no other load. */
  lemma GetPutWord(b: Block, i: nat, w: nat)
    requires i < WORDS && w < UINT
    ensures GetWord(PutWord(b, i, w), i) == w
    ensures forall j: nat :: j < WORDS && j != i ==> GetWord(PutWord(b, i, w), j) == GetWord(b, j)
  {
    WordBytes(w);
  }

  lemma ZeroWords()
    ensures forall i: nat :: i < WORDS ==> GetWord(ZeroBlock(), i) == 0
  {
  }
}
