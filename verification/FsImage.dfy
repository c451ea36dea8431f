/** The file system as a disk holds it: the forest that the inode records lead to, and the files in it. */
module FsImage {
  import opened Common
  import opened Blocks
  import opened FsTree
  import opened FsInode
  import opened FsFile
  import opened Fs
  import opened FsIo
  import L = LogSpec

  /** The block addresses in the inode records. */
  ghost function RootsOf(d: Disk): (r: Roots)
    ensures forall j: nat :: j < NINODES ==> r[j] == DinodeAt(d, j).addrs
  {
    seq(NINODES, j requires 0 <= j < NINODES => DinodeAt(d, j).addrs)
  }

  /** The records lead to a well-formed forest that has every file block below each file's size. */
  ghost predicate WellFormed(d: Disk) {
    var r := RootsOf(d);
    Forest(d, r) && forall j: nat :: j < NINODES ==> Mapped(d, r, j, DinodeAt(d, j).size)
  }

  ghost function FileOf(d: Disk, j: nat): seq<Byte>
    requires WellFormed(d) && j < NINODES
  {
    Content(d, RootsOf(d), j, DinodeAt(d, j).size)
  }

  /** All files, by inode number. */
  ghost function Files(d: Disk): (fs: seq<seq<Byte>>)
    requires WellFormed(d)
    ensures |fs| == NINODES && forall j: nat :: j < NINODES ==> fs[j] == FileOf(d, j)
  {
    seq(NINODES, j requires 0 <= j < NINODES => FileOf(d, j))
  }

  /** Only the blocks from the inode records on matter; the log area is no part of the image. */
  lemma SameImage(d: Disk, e: Disk)
    requires WellFormed(d) && forall b :: INODESTART <= b < FSSIZE ==> e[b] == d[b]
    ensures WellFormed(e) && Files(e) == Files(d)
  {
    forall j: nat | j < NINODES ensures DinodeAt(e, j) == DinodeAt(d, j) { assert IBlock(j) >= INODESTART; }
    assert RootsOf(e) == RootsOf(d);
    var r := RootsOf(d);
    ForestFrame(d, e, r);
    forall j: nat | j < NINODES
      ensures Mapped(e, r, j, DinodeAt(e, j).size)
      ensures Content(e, r, j, DinodeAt(e, j).size) == Content(d, r, j, DinodeAt(d, j).size)
    {
      SameContent(d, e, r, j, DinodeAt(d, j).size);
    }
  }

  lemma SameContent(d: Disk, e: Disk, r: Roots, j: nat, size: nat)
    requires Forest(d, r) && Mapped(d, r, j, size) && forall b :: INODESTART <= b < FSSIZE ==> e[b] == d[b]
    requires forall l :: IsLoc(l) ==> At(e, r, l) == At(d, r, l)
    ensures Mapped(e, r, j, size) && Content(e, r, j, size) == Content(d, r, j, size)
  {
    forall bn: nat | bn < MAXFILE
      ensures BlockAt(e, r, j, bn) == BlockAt(d, r, j, bn)
      ensures var b := BlockAt(d, r, j, bn); 0 < b < FSSIZE ==> e[b] == d[b]
    {
      PlaceOfBlock(j, bn);
    }
  }

  /** A disk whose inode records are all zero, with the blocks before the data in use, holds empty files. */
  lemma FreshImage(d: Disk)
    requires forall b: nat :: b < NMETA ==> IsUsed(d, b)
    requires forall j: nat :: j < NINODES ==> DinodeAt(d, j).size == 0
    requires forall j: nat :: j < NINODES ==> forall a :: a in DinodeAt(d, j).addrs ==> a == 0
    ensures WellFormed(d) && forall j: nat :: j < NINODES ==> Files(d)[j] == []
  {
    var r := RootsOf(d);
    forall l | IsLoc(l) ensures At(d, r, l) == 0 {
      var root := Loc(l.inum, l.slot, []);
      assert r[l.inum][l.slot] in DinodeAt(d, l.inum).addrs;
      NothingBelowZero(d, r, root, l);
    }
  }

  // ---- one write ----

  /** A write of src at position off of the file of inode inum. */
  datatype Chunk = Chunk(inum: nat, off: nat, src: seq<Byte>)

  /** A file with data put in at off. */
  function Put(f: seq<Byte>, off: nat, data: seq<Byte>): seq<Byte>
    requires off <= |f|
  {
    f[..off] + data + (if off + |data| < |f| then f[off + |data|..] else [])
  }

  predicate CanPut(fs: seq<seq<Byte>>, c: Chunk) { c.inum < |fs| && c.off <= |fs[c.inum]| }

  /** The files after a write: one has the bytes, the others are as they were. */
  function PutFiles(fs: seq<seq<Byte>>, c: Chunk): (r: seq<seq<Byte>>)
    ensures |r| == |fs|
  {
    if CanPut(fs, c) then fs[c.inum := Put(fs[c.inum], c.off, c.src)] else fs
  }

  /** One image becomes another by a whole write. */
  ghost predicate WholeWrite(d: Disk, c: Chunk, e: Disk) {
    && WellFormed(d) && WellFormed(e) && CanPut(Files(d), c) && Files(e) == PutFiles(Files(d), c)
  }

  /** What writei leaves behind is such an image. */
  lemma WroteImage(d: Disk, inum: nat, off: nat, src: seq<Byte>, e: Disk, r': Roots)
    requires WellFormed(d) && inum < NINODES && off <= DinodeAt(d, inum).size
    requires Wrote(d, RootsOf(d), inum, DinodeAt(d, inum).size, off, src, e, r')
    requires DinodeAt(e, inum).addrs == r'[inum] && DinodeAt(e, inum).size == Max(DinodeAt(d, inum).size, off + |src|)
    ensures RootsOf(e) == r' && WholeWrite(d, Chunk(inum, off, src), e)
  {
    var r, size := RootsOf(d), DinodeAt(d, inum).size;
    assert RootsOf(e) == r';
    SplicedContent(d, r, inum, size, off, src, e, r');
    forall j: nat | j < NINODES && j != inum
      ensures Mapped(e, r', j, DinodeAt(e, j).size)
      ensures Content(e, r', j, DinodeAt(e, j).size) == Content(d, r, j, DinodeAt(d, j).size)
    {
      OthersContent(d, r, inum, e, r', j, DinodeAt(d, j).size);
    }
    assert WellFormed(e);
    assert FileOf(e, inum) == Put(FileOf(d, inum), off, src);
  }

  // ---- operations ----

  /** No write goes to the log area. */
  ghost predicate HomeOnly(ws: seq<L.Write>) { forall i :: 0 <= i < |ws| ==> L.IsHome(FSSIZE, ws[i].blockno) }

  /** An operation whose log_writes make one whole write of a file and lead to disk e. */
  ghost predicate WritesAs(o: Operation, c: Chunk, e: Disk) {
    && L.InRange(o.start, o.trace) && e == L.Apply(o.start, o.trace) && HomeOnly(o.trace)
    && WholeWrite(o.start, c, e)
  }

  /** An operation that logs nothing writes nothing. */
  lemma NoWrite(d: Disk, inum: nat)
    requires WellFormed(d) && inum < NINODES
    ensures WritesAs(Operation(d, []), Chunk(inum, 0, []), d)
  {
    var f := FileOf(d, inum);
    assert Put(f, 0, []) == f;
    assert Files(d)[inum := f] == Files(d);
  }

  /** The operations lead from disk d to disk e, by the writes cs. */
  ghost predicate OpsFollow(d: Disk, ops: seq<Operation>, cs: seq<Chunk>, e: Disk) {
    |ops| == |cs| &&
    if ops == [] then e == d
    else
      var k := |ops| - 1;
      OpsFollow(d, ops[..k], cs[..k], ops[k].start) && WritesAs(ops[k], cs[k], e)
  }

  lemma FollowOne(d: Disk, ops: seq<Operation>, cs: seq<Chunk>, o: Operation, c: Chunk, e: Disk)
    requires OpsFollow(d, ops, cs, o.start) && WritesAs(o, c, e)
    ensures OpsFollow(d, ops + [o], cs + [c], e)
  {
    assert (ops + [o])[..|ops|] == ops && (cs + [c])[..|cs|] == cs;
  }

  /** The writes put the bytes src into the file of inum, from off on, at most n at a time. */
  ghost predicate Pieces(cs: seq<Chunk>, inum: nat, off: nat, src: seq<Byte>, n: nat) {
    if cs == [] then src == []
    else
      var c := cs[|cs| - 1];
      && c.inum == inum && |c.src| <= n && |c.src| <= |src| && c.off == off + (|src| - |c.src|)
      && src[|src| - |c.src|..] == c.src && Pieces(cs[..|cs| - 1], inum, off, src[..|src| - |c.src|], n)
  }

  lemma PiecesOne(cs: seq<Chunk>, inum: nat, off: nat, src: seq<Byte>, i: nat, next: nat, n: nat)
    requires i <= next <= |src| && next - i <= n && Pieces(cs, inum, off, src[..i], n)
    ensures Pieces(cs + [Chunk(inum, off + i, src[i..next])], inum, off, src[..next], n)
  {
    var cs', c := cs + [Chunk(inum, off + i, src[i..next])], Chunk(inum, off + i, src[i..next]);
    assert cs'[..|cs|] == cs && cs'[|cs|] == c;
    assert src[..next][..i] == src[..i] && src[..next][i..] == src[i..next];
  }
}
