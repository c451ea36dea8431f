/** What a file holds: the bytes that its index tree leads to. */
module FsFile {
  import opened Common
  import opened Blocks
  import opened FsTree

  const MAXSIZE: nat := MAXFILE * BSIZE

  /** The disk block of file block bn, 0 if there is none. */
  ghost function BlockAt(d: Disk, r: Roots, inum: nat, bn: nat): nat
    requires inum < NINODES && bn < MAXFILE
  {
    PlaceOfBlock(inum, bn);
    At(d, r, Place(inum, bn))
  }

  /** Byte k of a file, 0 if there is no block for it. */
  ghost function ByteAt(d: Disk, r: Roots, inum: nat, k: nat): Byte
    requires inum < NINODES && k < MAXSIZE
  {
    var b := BlockAt(d, r, inum, k / BSIZE);
    if 0 < b < FSSIZE then d[b][k % BSIZE] else 0
  }

  /** The first size bytes of a file. */
  ghost function Content(d: Disk, r: Roots, inum: nat, size: nat): seq<Byte>
    requires inum < NINODES && size <= MAXSIZE
  {
    seq(size, k requires 0 <= k < size => ByteAt(d, r, inum, k))
  }

  /** Every file block below size has a disk block. */
  ghost predicate Mapped(d: Disk, r: Roots, inum: nat, size: nat) {
    && inum < NINODES && size <= MAXSIZE
    && forall bn: nat :: bn < MAXFILE && bn * BSIZE < size ==> BlockAt(d, r, inum, bn) != 0
  }

  /** Every other inode keeps its blocks, and they keep their contents. */
  ghost predicate OthersKeep(d: Disk, r: Roots, inum: nat, d': Disk, r': Roots) {
    && (forall j: nat :: j < NINODES && j != inum ==> r'[j] == r[j])
    && (forall m :: IsLoc(m) && m.inum != inum ==> At(d', r', m) == At(d, r, m))
    && (forall m :: IsLeaf(m) && m.inum != inum && 0 < At(d, r, m) < FSSIZE ==> d'[At(d, r, m)] == d[At(d, r, m)])
  }

  lemma OthersTwice(d: Disk, r: Roots, inum: nat, d1: Disk, r1: Roots, d2: Disk, r2: Roots)
    requires OthersKeep(d, r, inum, d1, r1) && OthersKeep(d1, r1, inum, d2, r2)
    ensures OthersKeep(d, r, inum, d2, r2)
  {
  }

  /** ... so no byte of another file changes. */
  lemma OthersContent(d: Disk, r: Roots, inum: nat, d': Disk, r': Roots, j: nat, size: nat)
    requires OthersKeep(d, r, inum, d', r') && j < NINODES && j != inum && size <= MAXSIZE
    ensures Content(d', r', j, size) == Content(d, r, j, size)
    ensures Mapped(d, r, j, size) ==> Mapped(d', r', j, size)
  {
    forall bn: nat | bn < MAXFILE
      ensures BlockAt(d', r', j, bn) == BlockAt(d, r, j, bn)
      ensures var b := BlockAt(d, r, j, bn); 0 < b < FSSIZE ==> d'[b] == d[b]
    {
      PlaceOfBlock(j, bn);
    }
  }

  // ---- one step of the copying loops ----

  /** bmap at block bn: that block is there now, no other block of a file is new, and every block that was
      there keeps its place and contents. */
  ghost predicate BlockReady(d: Disk, r: Roots, inum: nat, bn: nat, a: nat, d': Disk, r': Roots) {
    var ready := Forest(d', r') && inum < NINODES && bn < MAXFILE && NMETA <= a < FSSIZE &&
                 BlockAt(d', r', inum, bn) == a && OthersKeep(d, r, inum, d', r') &&
                 (forall c: nat :: c < MAXFILE && c != bn ==> BlockAt(d', r', inum, c) == BlockAt(d, r, inum, c)) &&
                 (BlockAt(d, r, inum, bn) != 0 ==> d' == d && r' == r) &&
                 (forall c: nat :: c < MAXFILE && 0 < BlockAt(d, r, inum, c) < FSSIZE ==>
                   d'[BlockAt(d, r, inum, c)] == d[BlockAt(d, r, inum, c)]) &&
                 LowSame(d, d');
    ready
  }

  lemma LeafPrefix(m: Loc, l: Loc)
    requires IsLeaf(m) && IsLeaf(l) && IsPrefix(m, l)
    ensures m == l
  {
  }

  lemma ReachedReady(w: Start, inum: nat, bn: nat, a: nat, taken: seq<nat>, d': Disk, r': Roots, logged: set<nat>)
    requires inum < NINODES && bn < MAXFILE && Reached(w, Place(inum, bn), a, taken, d', r', logged)
    ensures BlockReady(w.d, w.r, inum, bn, a, d', r')
  {
    var l := Place(inum, bn);
    PlaceOfBlock(inum, bn);
    ReachedBlock(w, l, a, taken, d', r', logged);
    forall c: nat | c < MAXFILE && c != bn ensures BlockAt(d', r', inum, c) == BlockAt(w.d, w.r, inum, c) {
      OffTheWay(w, inum, bn, c, taken, d', r');
    }
    forall c: nat | c < MAXFILE && 0 < BlockAt(w.d, w.r, inum, c) < FSSIZE
      ensures d'[BlockAt(w.d, w.r, inum, c)] == w.d[BlockAt(w.d, w.r, inum, c)]
    {
      PlaceOfBlock(inum, c);
    }
  }

  lemma OffTheWay(w: Start, inum: nat, bn: nat, c: nat, taken: seq<nat>, d': Disk, r': Roots)
    requires inum < NINODES && bn < MAXFILE && c < MAXFILE && c != bn
    requires Grown(w.d, w.r, Place(inum, bn), taken, d', r')
    ensures BlockAt(d', r', inum, c) == BlockAt(w.d, w.r, inum, c)
  {
    PlaceOfBlock(inum, bn);
    PlaceOfBlock(inum, c);
    if IsPrefix(Place(inum, c), Place(inum, bn)) {
      LeafPrefix(Place(inum, c), Place(inum, bn));
    }
  }

  /** The contents of a data block decide nothing about places. */
  lemma PokeKeeps(d: Disk, r: Roots, inum: nat, bn: nat, data: Block)
    requires Forest(d, r) && inum < NINODES && bn < MAXFILE && BlockAt(d, r, inum, bn) != 0
    ensures var d' := d[BlockAt(d, r, inum, bn) := data];
            && Forest(d', r) && OthersKeep(d, r, inum, d', r)
            && forall l :: IsLoc(l) ==> At(d', r, l) == At(d, r, l)
  {
    var a := BlockAt(d, r, inum, bn);
    var d' := d[a := data];
    PlaceOfBlock(inum, bn);
    forall m | IsLoc(m) && !IsLeaf(m) && At(d, r, m) != 0 ensures At(d, r, m) != a {
    }
    ForestFrame(d, d', r);
  }

  /** The bytes of a file after a data block of it was replaced. */
  lemma PokeBytes(d: Disk, r: Roots, inum: nat, bn: nat, data: Block, k: nat)
    requires Forest(d, r) && inum < NINODES && bn < MAXFILE && BlockAt(d, r, inum, bn) != 0 && k < MAXSIZE
    ensures var d' := d[BlockAt(d, r, inum, bn) := data];
            ByteAt(d', r, inum, k) == if k / BSIZE == bn then data[k % BSIZE] else ByteAt(d, r, inum, k)
  {
    PokeKeeps(d, r, inum, bn, data);
    PlaceOfBlock(inum, bn);
    PlaceOfBlock(inum, k / BSIZE);
    if k / BSIZE != bn {
      assert Place(inum, k / BSIZE) != Place(inum, bn);
    }
  }

  // ---- splicing ----

  /** The file of inode inum has all its blocks below size; nothing that belongs to another file has changed. */
  ghost predicate Kept(d: Disk, r: Roots, inum: nat, size: nat, d': Disk, r': Roots) {
    Forest(d', r') && Mapped(d', r', inum, size) && OthersKeep(d, r, inum, d', r')
  }

  /** No inode record has changed. */
  ghost predicate LowSame(d: Disk, d': Disk) {
    forall q :: 0 <= q < BMAPSTART ==> d'[q] == d[q]
  }

  ghost predicate SameUsed(d: Disk, d': Disk) {
    forall c: nat :: c < FSSIZE ==> (IsUsed(d', c) <==> IsUsed(d, c))
  }

  /** The first size bytes of a file are those of before with `data` put in at off. */
  ghost predicate BytesPut(d: Disk, r: Roots, inum: nat, size: nat, off: nat, data: seq<Byte>, d': Disk, r': Roots)
    requires inum < NINODES && size <= MAXSIZE
  {
    forall k: nat :: k < size ==> ByteAt(d', r', inum, k) == Expected(d, r, inum, off, data, k)
  }

  /** The file of inode inum, of length size before, has `data` spliced in at off, and that is all. */
  ghost predicate Spliced(d: Disk, r: Roots, inum: nat, size: nat, off: nat, data: seq<Byte>, d': Disk, r': Roots) {
    var spliced := Kept(d, r, inum, Max(size, off + |data|), d', r') &&
                   BytesPut(d, r, inum, Max(size, off + |data|), off, data, d', r');
    spliced
  }

  /** Byte k after the splice. */
  ghost function Expected(d: Disk, r: Roots, inum: nat, off: nat, data: seq<Byte>, k: nat): Byte
    requires inum < NINODES && k < MAXSIZE
  {
    if off <= k < off + |data| then data[k - off] else ByteAt(d, r, inum, k)
  }

  /** Splicing, in terms of whole contents. */
  lemma SplicedContent(d: Disk, r: Roots, inum: nat, size: nat, off: nat, data: seq<Byte>, d': Disk, r': Roots)
    requires Spliced(d, r, inum, size, off, data, d', r') && off <= size <= MAXSIZE
    ensures Content(d', r', inum, Max(size, off + |data|)) ==
            Content(d, r, inum, size)[..off] + data +
            (if off + |data| < size then Content(d, r, inum, size)[off + |data|..] else [])
  {
  }

  /** Block data with m bytes of src from index i on put at x. */
  function Patch(b: Block, x: nat, src: seq<Byte>, i: nat, m: nat): Block
    requires x + m <= BSIZE && i + m <= |src|
  {
    b[..x] + src[i..i + m] + b[x + m..]
  }

  /** Byte k of a file whose block at/512 had m bytes patched at position at. */
  lemma PatchByte(b: Block, at: nat, src: seq<Byte>, i: nat, m: nat, k: nat)
    requires at % BSIZE + m <= BSIZE && i + m <= |src| && k / BSIZE == at / BSIZE
    ensures Patch(b, at % BSIZE, src, i, m)[k % BSIZE] == if at <= k < at + m then src[i + k - at] else b[k % BSIZE]
  {
  }

  /** One more piece of the source is copied in: bmap, then the bytes. */
  lemma SplicedMore(d: Disk, r: Roots, inum: nat, size: nat, off: nat, src: seq<Byte>, tot: nat, m: nat, next: nat,
                    at: nat, d1: Disk, r1: Roots, a: nat, d2: Disk, r2: Roots, d': Disk)
    requires off <= size && off + |src| <= MAXSIZE && next == tot + m <= |src| && 0 < m && at == off + tot
    requires Spliced(d, r, inum, size, off, src[..tot], d1, r1) && at % BSIZE + m <= BSIZE
    requires BlockReady(d1, r1, inum, at / BSIZE, a, d2, r2)
    requires d' == d2[a := Patch(d2[a], at % BSIZE, src, tot, m)]
    ensures Spliced(d, r, inum, size, off, src[..next], d', r2)
  {
    var size1 := Max(size, at);
    assert size1 == Max(size, off + |src[..tot]|);
    MoreKept(d, r, inum, size1, d1, r1, at, m, a, d2, r2, d'[a]);
    assert Max(size1, at + m) == Max(size, off + |src[..next]|);
    MoreBytes(d, r, inum, size1, off, src, tot, m, next, at, d1, r1, a, d2, r2, d');
  }

  lemma MoreBytes(d: Disk, r: Roots, inum: nat, size: nat, off: nat, src: seq<Byte>, tot: nat, m: nat, next: nat,
                  at: nat, d1: Disk, r1: Roots, a: nat, d2: Disk, r2: Roots, d': Disk)
    requires at <= size && off + |src| <= MAXSIZE && next == tot + m <= |src| && 0 < m && at == off + tot
    requires Mapped(d1, r1, inum, size) && BytesPut(d, r, inum, size, off, src[..tot], d1, r1) &&
             at % BSIZE + m <= BSIZE
    requires BlockReady(d1, r1, inum, at / BSIZE, a, d2, r2)
    requires d' == d2[a := Patch(d2[a], at % BSIZE, src, tot, m)]
    ensures BytesPut(d, r, inum, Max(size, at + m), off, src[..next], d', r2)
  {
    var put := src[..next];
    forall k: nat | k < Max(size, at + m) ensures ByteAt(d', r2, inum, k) == Expected(d, r, inum, off, put, k) {
      MoreByte(d1, r1, inum, size, at, src, tot, m, a, d2, r2, k, d');
      ExpectedMore(d, r, inum, off, src, tot, next, at, k);
    }
  }

  lemma ExpectedMore(d: Disk, r: Roots, inum: nat, off: nat, src: seq<Byte>, tot: nat, next: nat, at: nat, k: nat)
    requires inum < NINODES && k < MAXSIZE && tot <= next <= |src| && at == off + tot
    ensures Expected(d, r, inum, off, src[..next], k) ==
            if at <= k < off + next then src[k - off] else Expected(d, r, inum, off, src[..tot], k)
  {
  }

  lemma MoreKept(d: Disk, r: Roots, inum: nat, size: nat, d1: Disk, r1: Roots, at: nat, m: nat,
                 a: nat, d2: Disk, r2: Roots, data: Block)
    requires Kept(d, r, inum, size, d1, r1) && at <= size && 0 < m && at + m <= MAXSIZE && at % BSIZE + m <= BSIZE
    requires BlockReady(d1, r1, inum, at / BSIZE, a, d2, r2)
    ensures Kept(d, r, inum, Max(size, at + m), d2[a := data], r2)
  {
    PokeKeeps(d2, r2, inum, at / BSIZE, data);
    OthersTwice(d, r, inum, d1, r1, d2, r2);
    OthersTwice(d, r, inum, d2, r2, d2[a := data], r2);
    MoreMapped(d1, r1, inum, size, at, m, a, d2, r2, data);
  }

  lemma MoreMapped(d: Disk, r: Roots, inum: nat, size: nat, at: nat, m: nat, a: nat, d': Disk, r': Roots, data: Block)
    requires Mapped(d, r, inum, size) && at <= size && at + m <= MAXSIZE && at < MAXSIZE && at % BSIZE + m <= BSIZE
    requires BlockReady(d, r, inum, at / BSIZE, a, d', r')
    ensures Mapped(d'[a := data], r', inum, Max(size, at + m))
  {
    PokeKeeps(d', r', inum, at / BSIZE, data);
    forall c: nat | c < MAXFILE && c * BSIZE < Max(size, at + m) ensures BlockAt(d'[a := data], r', inum, c) != 0 {
      PlaceOfBlock(inum, c);
      if c != at / BSIZE {
        assert c * BSIZE < size;
        assert BlockAt(d, r, inum, c) != 0;
      }
    }
  }

  lemma MoreByte(d1: Disk, r1: Roots, inum: nat, size: nat, at: nat, src: seq<Byte>, tot: nat, m: nat,
                 a: nat, d2: Disk, r2: Roots, k: nat, d': Disk)
    requires at + m <= MAXSIZE && at <= size && tot + m <= |src| && 0 < m && at % BSIZE + m <= BSIZE
    requires Mapped(d1, r1, inum, size) && BlockReady(d1, r1, inum, at / BSIZE, a, d2, r2) && k < Max(size, at + m)
    requires d' == d2[a := Patch(d2[a], at % BSIZE, src, tot, m)]
    ensures ByteAt(d', r2, inum, k) == if at <= k < at + m then src[tot + k - at] else ByteAt(d1, r1, inum, k)
  {
    PokeBytes(d2, r2, inum, at / BSIZE, Patch(d2[a], at % BSIZE, src, tot, m), k);
    if k / BSIZE == at / BSIZE { PatchByte(d2[a], at, src, tot, m, k); }
    if !(at <= k < at + m) { ReadyByte(d1, r1, inum, size, at / BSIZE, a, d2, r2, k); }
  }

  /** Mapping one more block changes no byte that is there. */
  lemma ReadyByte(d: Disk, r: Roots, inum: nat, size: nat, bn: nat, a: nat, d': Disk, r': Roots, k: nat)
    requires BlockReady(d, r, inum, bn, a, d', r') && Mapped(d, r, inum, size) && k < size
    ensures ByteAt(d', r', inum, k) == ByteAt(d, r, inum, k)
  {
    assert BlockAt(d, r, inum, k / BSIZE) != 0;
  }

  /** The blocks that the file had are where they were. */
  ghost predicate OwnKeep(d: Disk, r: Roots, inum: nat, d': Disk, r': Roots) {
    && inum < NINODES
    && forall bn: nat :: bn < MAXFILE && BlockAt(d, r, inum, bn) != 0 ==>
         BlockAt(d', r', inum, bn) == BlockAt(d, r, inum, bn)
  }

  lemma OwnMore(d: Disk, r: Roots, inum: nat, bn: nat, d1: Disk, r1: Roots, a: nat, d2: Disk, r2: Roots, data: Block,
                d': Disk)
    requires OwnKeep(d, r, inum, d1, r1) && BlockReady(d1, r1, inum, bn, a, d2, r2) && d' == d2[a := data]
    ensures OwnKeep(d, r, inum, d', r2)
  {
    PokeKeeps(d2, r2, inum, bn, data);
    forall c: nat | c < MAXFILE && BlockAt(d, r, inum, c) != 0
      ensures BlockAt(d', r2, inum, c) == BlockAt(d, r, inum, c)
    {
      PlaceOfBlock(inum, c);
      assert BlockAt(d', r2, inum, c) == BlockAt(d2, r2, inum, c);
    }
  }

  /** A write of n > 0 bytes at off came to a block past the end of the file, of size bytes, that the file did not have,
      and no block was left. */
  ghost predicate NoRoom(d: Disk, r: Roots, inum: nat, size: nat, off: nat, n: nat, d': Disk) {
    && Full(d') && inum < NINODES && 0 < n && off + n <= MAXSIZE
    && exists bn: nat :: off / BSIZE <= bn <= (off + n - 1) / BSIZE && size <= bn * BSIZE &&
                         BlockAt(d, r, inum, bn) == 0
  }

  lemma RanOut(d: Disk, r: Roots, inum: nat, size: nat, off: nat, src: seq<Byte>, tot: nat, bn: nat, d1: Disk,
               r1: Roots, d': Disk)
    requires tot < |src| && off + |src| <= MAXSIZE && off <= size && Mapped(d, r, inum, size)
    requires Writing(d, r, inum, size, off, src, tot, d1, r1) && bn == (off + tot) / BSIZE
    requires Missing(d1, r1, Place(inum, bn), d')
    ensures NoRoom(d, r, inum, size, off, |src|, d')
  {
    assert off / BSIZE <= bn <= (off + |src| - 1) / BSIZE;
    assert BlockAt(d1, r1, inum, bn) == 0;
    assert BlockAt(d, r, inum, bn) == 0;
  }

  /** writei part way through: the first tot bytes are in. A write that stays within the file takes no block. */
  ghost predicate Writing(d: Disk, r: Roots, inum: nat, size: nat, off: nat, src: seq<Byte>, tot: nat, d': Disk,
                          r': Roots)
    requires tot <= |src|
  {
    var writing := Spliced(d, r, inum, size, off, src[..tot], d', r') && LowSame(d, d') &&
                   OwnKeep(d, r, inum, d', r') &&
                   (off + |src| <= size ==> r' == r && SameUsed(d, d'));
    writing
  }

  lemma WritingStart(d: Disk, r: Roots, inum: nat, size: nat, off: nat, src: seq<Byte>)
    requires Forest(d, r) && Mapped(d, r, inum, size) && off <= size
    ensures Writing(d, r, inum, size, off, src, 0, d, r)
  {
  }

  /** Within the file no block is taken. */
  lemma WithinMore(d: Disk, r: Roots, inum: nat, size: nat, bn: nat, d1: Disk, r1: Roots, a: nat, d2: Disk, r2: Roots,
                   data: Block, d': Disk)
    requires r1 == r && SameUsed(d, d1) && Mapped(d1, r1, inum, size) && bn < MAXFILE && bn * BSIZE < size
    requires BlockReady(d1, r1, inum, bn, a, d2, r2) && d' == d2[a := data]
    ensures r2 == r && SameUsed(d, d')
  {
    assert BlockAt(d1, r1, inum, bn) != 0;
    UsedFrame(d2, d');
  }

  lemma WritingParts(d: Disk, r: Roots, inum: nat, size: nat, off: nat, src: seq<Byte>, tot: nat, d1: Disk, r1: Roots)
    requires tot <= |src| && Writing(d, r, inum, size, off, src, tot, d1, r1)
    ensures Spliced(d, r, inum, size, off, src[..tot], d1, r1) && LowSame(d, d1) && OwnKeep(d, r, inum, d1, r1)
    ensures Mapped(d1, r1, inum, Max(size, off + tot)) && (off + |src| <= size ==> r1 == r && SameUsed(d, d1))
  {
  }

  lemma ReadyParts(d: Disk, r: Roots, inum: nat, bn: nat, a: nat, d': Disk, r': Roots, data: Block)
    requires BlockReady(d, r, inum, bn, a, d', r')
    ensures NMETA <= a < FSSIZE && bn < MAXFILE && LowSame(d, d'[a := data])
  {
  }

  /** One turn of writei's loop: bmap, then the bytes. */
  lemma WritingMore(d: Disk, r: Roots, inum: nat, size: nat, off: nat, src: seq<Byte>, tot: nat, m: nat, next: nat,
                    at: nat, bn: nat, d1: Disk, r1: Roots, a: nat, d2: Disk, r2: Roots, data: Block, d': Disk)
    requires off <= size && off + |src| <= MAXSIZE && next == tot + m <= |src| && 0 < m && at == off + tot
    requires at % BSIZE + m <= BSIZE && bn == at / BSIZE
    requires Writing(d, r, inum, size, off, src, tot, d1, r1) && BlockReady(d1, r1, inum, bn, a, d2, r2)
    requires a < FSSIZE && data == Patch(d2[a], at % BSIZE, src, tot, m) && d' == d2[a := data]
    ensures Writing(d, r, inum, size, off, src, next, d', r2)
  {
    WritingParts(d, r, inum, size, off, src, tot, d1, r1);
    ReadyParts(d1, r1, inum, bn, a, d2, r2, data);
    SplicedMore(d, r, inum, size, off, src, tot, m, next, at, d1, r1, a, d2, r2, d');
    OwnMore(d, r, inum, bn, d1, r1, a, d2, r2, data, d');
    if off + |src| <= size { WithinMore(d, r, inum, Max(size, at), bn, d1, r1, a, d2, r2, data, d'); }
  }

  /** Writing an inode record moves nothing. */
  lemma StoredKeeps(d: Disk, r: Roots, d': Disk, b: nat, inum: nat)
    requires Forest(d, r) && b < BMAPSTART && d' == d[b := d'[b]] && inum < NINODES
    ensures Forest(d', r) && forall l :: IsLoc(l) ==> At(d', r, l) == At(d, r, l)
    ensures forall bn: nat :: bn < MAXFILE ==> BlockAt(d', r, inum, bn) == BlockAt(d, r, inum, bn)
    ensures forall k: nat :: k < MAXSIZE ==> ByteAt(d', r, inum, k) == ByteAt(d, r, inum, k)
  {
    ForestFrame(d, d', r);
    forall bn: nat | bn < MAXFILE
      ensures BlockAt(d', r, inum, bn) == BlockAt(d, r, inum, bn)
      ensures BlockAt(d, r, inum, bn) != 0 ==> BlockAt(d, r, inum, bn) != b
    {
      PlaceOfBlock(inum, bn);
    }
  }

  lemma SplicedStored(d: Disk, r: Roots, inum: nat, size: nat, off: nat, data: seq<Byte>, d1: Disk, r': Roots,
                      d': Disk, b: nat)
    requires Spliced(d, r, inum, size, off, data, d1, r') && b < BMAPSTART && d' == d1[b := d'[b]]
    ensures Spliced(d, r, inum, size, off, data, d', r')
  {
    StoredKeeps(d1, r', d', b, inum);
  }

  /** Two splices in a row are one. */
  lemma SplicedTwice(d: Disk, r: Roots, inum: nat, size: nat, off: nat, data: seq<Byte>, d1: Disk, r1: Roots,
                     size1: nat, at: nat, more: seq<Byte>, both: seq<Byte>, d2: Disk, r2: Roots)
    requires off <= size && Spliced(d, r, inum, size, off, data, d1, r1)
    requires size1 == Max(size, off + |data|) && at == off + |data| && both == data + more
    requires Spliced(d1, r1, inum, size1, at, more, d2, r2)
    ensures Spliced(d, r, inum, size, off, both, d2, r2)
  {
    OthersTwice(d, r, inum, d1, r1, d2, r2);
    var end := Max(size, off + |both|);
    assert end == Max(size1, at + |more|);
    forall k: nat | k < end ensures ByteAt(d2, r2, inum, k) == Expected(d, r, inum, off, both, k) {
      assert ByteAt(d2, r2, inum, k) == Expected(d1, r1, inum, at, more, k);
      if k < size1 {
        assert ByteAt(d1, r1, inum, k) == Expected(d, r, inum, off, data, k);
      }
    }
  }

  // ---- reading ----

  /** bmap at a block that is there finds it and changes nothing. */
  lemma ReachedPlain(w: Start, inum: nat, bn: nat, a: nat, taken: seq<nat>, d': Disk, r': Roots, logged: set<nat>)
    requires inum < NINODES && bn < MAXFILE && Reached(w, Place(inum, bn), a, taken, d', r', logged)
    requires BlockAt(w.d, w.r, inum, bn) != 0
    ensures d' == w.d && r' == w.r && logged == w.logged && a == BlockAt(w.d, w.r, inum, bn) && NMETA <= a < FSSIZE
  {
    ReachedBlock(w, Place(inum, bn), a, taken, d', r', logged);
  }

  /** Copying the next m bytes, all in one block. */
  lemma SliceMore(d: Disk, r: Roots, inum: nat, size: nat, at: nat, m: nat)
    requires Forest(d, r) && Mapped(d, r, inum, size) && at + m <= size && 0 < m && at % BSIZE + m <= BSIZE
    ensures var b := BlockAt(d, r, inum, at / BSIZE);
            b < FSSIZE && Content(d, r, inum, size)[at..at + m] == d[b][at % BSIZE..at % BSIZE + m]
  {
    var bn, x := at / BSIZE, at % BSIZE;
    var b := BlockAt(d, r, inum, bn);
    PlaceOfBlock(inum, bn);
    var s, t := Content(d, r, inum, size)[at..at + m], d[b][x..x + m];
    forall i | 0 <= i < m ensures s[i] == t[i] {
      assert (at + i) / BSIZE == bn && (at + i) % BSIZE == x + i;
    }
  }
}
