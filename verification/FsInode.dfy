/** On-disk inodes: eight 64-byte records to a block. */
module FsInode {
  import opened Blocks
  import opened FsTree

  const SHORT: nat := 0x1_0000

  /** struct dinode */
  datatype Dinode = Dinode(kind: nat, major: nat, minor: nat, nlink: nat, size: nat, addrs: seq<nat>)

  predicate Fits(n: Dinode) {
    && n.kind < SHORT && n.major < SHORT && n.minor < SHORT && n.nlink < SHORT && n.size < UINT
    && |n.addrs| == NADDRS && forall s :: 0 <= s < NADDRS ==> n.addrs[s] < UINT
  }

  function IBlock(inum: nat): nat { inum / IPB + INODESTART }

  /** The k-th word of a record. */
  function FieldAt(b: Block, slot: nat, k: nat): nat
    requires slot < IPB && k < 16
  {
    GetWord(b, 16 * slot + k)
  }

  /** The record at a place in an inode block, as ilock reads it. */
  function Load(b: Block, slot: nat): Dinode
    requires slot < IPB
  {
    var w0, w1 := FieldAt(b, slot, 0), FieldAt(b, slot, 1);
    Dinode(w0 % SHORT, w0 / SHORT, w1 % SHORT, w1 / SHORT, FieldAt(b, slot, 2),
           seq(NADDRS, s requires 0 <= s < NADDRS => FieldAt(b, slot, s + 3)))
  }

  /** Two and four bytes of a block, least significant first. */
  function ShortAt(b: Block, o: nat): nat
    requires o + 2 <= BSIZE
  {
    (b[o] as int) + 0x100 * (b[o + 1] as int)
  }

  function LongAt(b: Block, o: nat): nat
    requires o + 4 <= BSIZE
  {
    ShortAt(b, o) + SHORT * ShortAt(b, o + 2)
  }

  lemma WordHalves(b: Block, i: nat)
    requires i < WORDS
    ensures GetWord(b, i) == LongAt(b, 4 * i)
    ensures GetWord(b, i) % SHORT == ShortAt(b, 4 * i) && GetWord(b, i) / SHORT == ShortAt(b, 4 * i + 2)
  {
    var lo, hi := ShortAt(b, 4 * i), ShortAt(b, 4 * i + 2);
    assert lo < SHORT && GetWord(b, i) == lo + SHORT * hi;
  }

  /** Where the fields of a record are, in bytes, as struct dinode lays them out. */
  lemma RecordLayout(b: Block, slot: nat)
    requires slot < IPB
    ensures var n, o := Load(b, slot), 64 * slot;
            && n.kind == ShortAt(b, o) && n.major == ShortAt(b, o + 2) && n.minor == ShortAt(b, o + 4)
            && n.nlink == ShortAt(b, o + 6) && n.size == LongAt(b, o + 8)
            && |n.addrs| == NADDRS && forall s: nat :: s < NADDRS ==> n.addrs[s] == LongAt(b, o + 12 + 4 * s)
  {
    var w := 16 * slot;
    WordHalves(b, w);
    WordHalves(b, w + 1);
    WordHalves(b, w + 2);
    forall s: nat | s < NADDRS ensures Load(b, slot).addrs[s] == LongAt(b, 64 * slot + 12 + 4 * s) {
      WordHalves(b, w + (s + 3));
    }
  }

  function DinodeAt(d: Disk, inum: nat): Dinode
    requires inum < NINODES
  {
    Load(d[IBlock(inum)], inum % IPB)
  }

  /** The words of a record, in order. */
  function Words(n: Dinode): (ws: seq<nat>)
    requires Fits(n)
    ensures |ws| == 16 && forall k :: 0 <= k < 16 ==> ws[k] < UINT
  {
    [n.kind + SHORT * n.major, n.minor + SHORT * n.nlink, n.size] + n.addrs
  }

  /** The block with the first k words of a record stored at a place. */
  function PutFields(b: Block, slot: nat, ws: seq<nat>, k: nat): Block
    requires slot < IPB && k <= |ws| == 16 && forall i :: 0 <= i < 16 ==> ws[i] < UINT
  {
    if k == 0 then b else PutWord(PutFields(b, slot, ws, k - 1), 16 * slot + (k - 1), ws[k - 1])
  }

  lemma {:induction false} PutFieldsAt(b: Block, slot: nat, ws: seq<nat>, k: nat, s: nat, i: nat)
    requires slot < IPB && k <= |ws| == 16 && forall i :: 0 <= i < 16 ==> ws[i] < UINT
    requires s < IPB && i < 16
    ensures FieldAt(PutFields(b, slot, ws, k), s, i) == if s == slot && i < k then ws[i] else FieldAt(b, s, i)
  {
    if k > 0 {
      var j := k - 1;
      PutFieldsAt(b, slot, ws, j, s, i);
      FieldPut(PutFields(b, slot, ws, j), slot, j, ws[j], s, i);
    }
  }

  lemma FieldPut(b: Block, slot: nat, j: nat, w: nat, s: nat, i: nat)
    requires slot < IPB && s < IPB && j < 16 && i < 16 && w < UINT
    ensures FieldAt(PutWord(b, 16 * slot + j, w), s, i) == if s == slot && i == j then w else FieldAt(b, s, i)
  {
    GetPutWord(b, 16 * slot + j, w);
  }

  /** iupdate's effect on an inode block. */
  function Store(b: Block, slot: nat, n: Dinode): Block
    requires slot < IPB && Fits(n)
  {
    PutFields(b, slot, Words(n), 16)
  }

  /** Round trip: ilock reads back what iupdate stored, and the other seven records of the block are
      untouched. */
  lemma StoreLoad(b: Block, slot: nat, n: Dinode, s: nat)
    requires slot < IPB && s < IPB && Fits(n)
    ensures Load(Store(b, slot, n), s) == if s == slot then n else Load(b, s)
  {
    var b' := Store(b, slot, n);
    forall i: nat | i < 16 ensures FieldAt(b', s, i) == if s == slot then Words(n)[i] else FieldAt(b, s, i) {
      PutFieldsAt(b, slot, Words(n), 16, s, i);
    }
    if s == slot {
      assert (n.kind + SHORT * n.major) % SHORT == n.kind && (n.kind + SHORT * n.major) / SHORT == n.major;
      assert (n.minor + SHORT * n.nlink) % SHORT == n.minor && (n.minor + SHORT * n.nlink) / SHORT == n.nlink;
      assert Load(b', s).addrs == n.addrs;
    } else {
      assert Load(b', s).addrs == Load(b, s).addrs;
    }
  }

  /** The disk after iupdate. */
  function StoreInode(d: Disk, inum: nat, n: Dinode): Disk
    requires inum < NINODES && Fits(n)
  {
    d[IBlock(inum) := Store(d[IBlock(inum)], inum % IPB, n)]
  }

  lemma StoreInodeOnly(d: Disk, inum: nat, n: Dinode, j: nat)
    requires inum < NINODES && j < NINODES && Fits(n)
    ensures DinodeAt(StoreInode(d, inum, n), j) == if j == inum then n else DinodeAt(d, j)
  {
    StoreLoad(d[IBlock(inum)], inum % IPB, n, j % IPB);
  }

  /** The inode records after iupdate, when nothing below the free map had changed before. */
  lemma TruncatedRecords(d: Disk, d1: Disk, inum: nat, n: Dinode)
    requires inum < NINODES && Fits(n) && forall b: nat :: b < BMAPSTART ==> d1[b] == d[b]
    ensures forall j: nat :: j < NINODES ==>
            DinodeAt(StoreInode(d1, inum, n), j) == if j == inum then n else DinodeAt(d, j)
  {
    forall j: nat | j < NINODES
      ensures DinodeAt(StoreInode(d1, inum, n), j) == if j == inum then n else DinodeAt(d, j)
    {
      StoreInodeOnly(d1, inum, n, j);
    }
  }
}
