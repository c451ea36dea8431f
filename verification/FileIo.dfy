/** fileread and filewrite of file.c, for files that are inodes. */
module FileIo {
  import opened Common
  import opened Blocks
  import opened FsTree
  import opened FsInode
  import opened FsFile
  import opened FsBudget
  import opened Fs
  import opened FsIo
  import opened FsImage
  import L = LogSpec

  /** struct file */
  class File {
    const ip: Inode
    const readable: bool
    const writable: bool
    var off: nat

    constructor (ip: Inode, readable: bool, writable: bool)
      ensures this.ip == ip && this.readable == readable && this.writable == writable && off == 0
    {
      this.ip, this.readable, this.writable, off := ip, readable, writable, 0;
    }
  }

  /** fileread: the next n bytes, clipped to the file's size, and the offset moves past them. */
  method Fileread(fs: FileSys, f: File, n: nat, ghost r: Roots) returns (res: Io, dst: seq<Byte>)
    requires InSync(fs, f.ip, r) && fs.held == 0 && f.off < UINT && n < UINT
    requires fs.Traced()
    modifies fs`disk, fs`logged, fs`trace, fs`held, f.ip`addrs, f`off
    ensures fs.Traced()
    ensures fs.disk == old(fs.disk) && fs.logged == old(fs.logged) && f.ip.addrs == old(f.ip.addrs)
    ensures res.Device? <==> f.readable && f.ip.kind == T_DEV
    ensures res.Fail? <==> !f.readable || (f.ip.kind != T_DEV && (old(f.off) > f.ip.size || old(f.off) + n >= UINT))
    ensures !res.Panic? && (!res.Count? ==> f.off == old(f.off))
    ensures res.Count? ==> res.n == Min(n, f.ip.size - old(f.off)) && f.off == old(f.off) + res.n
    ensures res.Count? ==> dst == Content(fs.disk, r, f.ip.inum, f.ip.size)[old(f.off)..f.off]
  {
    if !f.readable { return Fail, []; }
    res, dst := Readi(fs, f.ip, f.off, n, r);
    if res.Count? && res.n > 0 { f.off := f.off + res.n; }
  }

  /** filewrite after the first `done` bytes: one splice of them at off. */
  ghost predicate WrittenSoFar(d: Disk, r: Roots, inum: nat, size: nat, off: nat, src: seq<Byte>, done: nat, d': Disk,
                               r': Roots)
    requires done <= |src|
  {
    var written := RecordsKeep(d, inum, d') &&
                   if done == 0 then d' == d && r' == r
                   else off <= size && Spliced(d, r, inum, size, off, src[..done], d', r');
    written
  }

  /** filewrite fails: a negative count, or a write from past the end of the file or to past the longest file. */
  predicate Refused(kind: nat, size: nat, off: nat, n: int) {
    n < 0 || (n > 0 && kind != T_DEV && (off > size || off + n > MAXSIZE))
  }

  lemma OneMoreChunk(d: Disk, r: Roots, inum: nat, size: nat, off: nat, src: seq<Byte>, i: nat, next: nat,
                     d1: Disk, r1: Roots, size1: nat, at: nat, d2: Disk, r2: Roots)
    requires inum < NINODES && i < next <= |src| && off <= size
    requires size1 == Max(size, off + i) && at == off + i
    requires WrittenSoFar(d, r, inum, size, off, src, i, d1, r1)
    requires Wrote(d1, r1, inum, size1, at, src[i..next], d2, r2)
    ensures WrittenSoFar(d, r, inum, size, off, src, next, d2, r2)
  {
    assert src[..i] + src[i..next] == src[..next];
    if i > 0 {
      SplicedTwice(d, r, inum, size, off, src[..i], d1, r1, size1, at, src[i..next], src[..next], d2, r2);
    } else {
      assert src[0..next] == src[..next];
    }
  }

  /** An operation that logged nothing. */
  lemma EmptyLog(ws: seq<L.Write>, ib: nat)
    requires ws == []
    ensures IsChunkLog(Touched(ws), ib)
  {
    assert Touched(ws) == {} && LogParts({}, ib, {}, {});
  }

  lemma LoggedHome(ws: seq<L.Write>, inum: nat, first: nat, last: nat, d: Disk, r: Roots)
    requires Forest(d, r) && inum < NINODES && first <= last < MAXFILE
    requires LoggedIn({IBlock(inum)}, Touched(ws), inum, first, last, d, r)
    ensures HomeOnly(ws)
  {
    forall i | 0 <= i < |ws| ensures L.IsHome(FSSIZE, ws[i].blockno) {
      assert ws[i].blockno in Touched(ws);
    }
  }

  /** One chunk of filewrite: an operation of its own. */
  method WriteChunk(fs: FileSys, f: File, chunk: seq<Byte>, ghost r: Roots) returns (res: Io, ghost r': Roots)
    requires InSync(fs, f.ip, r) && fs.held == 0 && f.off < UINT && 0 < |chunk| <= CHUNK
    modifies fs, f.ip`addrs, f.ip`size, f`off
    ensures fs.held == 0 && r'[f.ip.inum] == f.ip.addrs && fs.Traced() && fs.start == old(fs.disk)
    ensures res.Device? <==> f.ip.kind == T_DEV
    ensures res.Fail? <==> f.ip.kind != T_DEV && (old(f.off) > old(f.ip.size) || old(f.off) + |chunk| > MAXSIZE)
    ensures res.Panic? ==> Full(fs.disk) && fs.past == old(fs.past) && old(f.off) + |chunk| > old(f.ip.size)
    ensures !res.Panic? ==> fs.past == old(fs.past) + [Operation(fs.start, fs.trace)]
    ensures !res.Panic? ==> IsChunkLog(Touched(fs.trace), IBlock(f.ip.inum)) && HomeOnly(fs.trace)
    ensures res.Device? || res.Fail? ==> fs.disk == old(fs.disk) && fs.trace == [] && f.off == old(f.off) &&
                                         f.ip.Copy() == old(f.ip.Copy())
    ensures res.Count? ==> res.n == |chunk| && f.off == old(f.off) + |chunk| && InSync(fs, f.ip, r') &&
                           f.ip.size == Max(old(f.ip.size), f.off) &&
                           Wrote(old(fs.disk), r, f.ip.inum, old(f.ip.size), old(f.off), chunk, fs.disk, r')
  {
    fs.BeginOp();
    res, r' := Writei(fs, f.ip, chunk, f.off, r);
    if res.Panic? { return; }
    ghost var ib, first, last := IBlock(f.ip.inum), f.off / BSIZE, LastBlock(f.off, |chunk|);
    if res.Count? {
      assert {} + {ib} == {ib};
      ChunkLog(fs.logged, ib, f.ip.inum, first, last, fs.disk, r');
      LoggedHome(fs.trace, f.ip.inum, first, last, fs.disk, r');
      f.off := f.off + res.n;
    } else {
      EmptyLog(fs.trace, ib);
    }
    fs.EndOp();
  }

  /** filewrite's loop after i bytes, with d, r, size and off from before the call. */
  ghost predicate Going(fs: FileSys, f: File, r': Roots, d: Disk, r: Roots, size: nat, off: nat, addr: seq<Byte>,
                        i: nat)
    requires i <= |addr|
    reads fs, f, f.ip
  {
    var going := fs.held == 0 && InSync(fs, f.ip, r') &&
                 WrittenSoFar(d, r, f.ip.inum, size, off, addr, i, fs.disk, r') &&
                 f.off == off + i && (i == 0 ==> f.ip.size == size) &&
                 (0 < i ==> off <= size && f.ip.size == Max(size, f.off) && f.off <= MAXSIZE && f.ip.kind != T_DEV);
    going
  }

  /** The operations that a call ran, each within its log budget. */
  ghost predicate Ran(past: seq<Operation>, ops: seq<Operation>, past': seq<Operation>, ib: nat) {
    past' == past + ops && forall i :: 0 <= i < |ops| ==> IsChunkLog(Touched(ops[i].trace), ib)
  }

  /** If the disk at the start held a well-formed file system, whose records the roots are, then the operations are
      whole writes that put the bytes into the file. */
  ghost predicate Story(d: Disk, r: Roots, ops: seq<Operation>, cs: seq<Chunk>, inum: nat, off: nat, src: seq<Byte>,
                        e: Disk, r': Roots)
  {
    var story := WellFormed(d) && r == RootsOf(d) ==>
                   OpsFollow(d, ops, cs, e) && WellFormed(e) && RootsOf(e) == r' && Pieces(cs, inum, off, src, CHUNK);
    story
  }

  /** What filewrite has done with the first i bytes, by the operations ops. */
  ghost predicate Told(past: seq<Operation>, d: Disk, r: Roots, inum: nat, off: nat, src: seq<Byte>, i: nat,
                       ops: seq<Operation>, cs: seq<Chunk>, past': seq<Operation>, e: Disk, r': Roots)
    requires i <= |src|
  {
    var told := |ops| == |cs| && Ran(past, ops, past', IBlock(inum)) &&
                Story(d, r, ops, cs, inum, off, src[..i], e, r');
    told
  }

  lemma ToldNothing(past: seq<Operation>, d: Disk, r: Roots, inum: nat, off: nat, src: seq<Byte>)
    ensures Told(past, d, r, inum, off, src, 0, [], [], past, d, r)
  {
    assert past + [] == past;
  }

  /** What writei left behind, as an operation. */
  lemma OneWrite(o: Operation, r: Roots, n: Dinode, c: Chunk, e: Disk, r': Roots)
    requires WellFormed(o.start) && r == RootsOf(o.start)
    requires L.InRange(o.start, o.trace) && e == L.Apply(o.start, o.trace) && HomeOnly(o.trace)
    requires c.inum < NINODES && n == DinodeAt(o.start, c.inum) && c.off <= n.size
    requires Wrote(o.start, r, c.inum, n.size, c.off, c.src, e, r')
    requires DinodeAt(e, c.inum).addrs == r'[c.inum] && DinodeAt(e, c.inum).size == Max(n.size, c.off + |c.src|)
    ensures WritesAs(o, c, e) && WellFormed(e) && RootsOf(e) == r'
  {
    WroteImage(o.start, c.inum, c.off, c.src, e, r');
  }

  lemma StoryOn(d: Disk, r: Roots, ops: seq<Operation>, cs: seq<Chunk>, inum: nat, off: nat, src: seq<Byte>,
                i: nat, next: nat, o: Operation, c: Chunk, r1: Roots, e: Disk, r': Roots)
    requires i <= next <= |src| && next - i <= CHUNK && c == Chunk(inum, off + i, src[i..next])
    requires Story(d, r, ops, cs, inum, off, src[..i], o.start, r1)
    requires WellFormed(o.start) && r1 == RootsOf(o.start) ==> WritesAs(o, c, e) && WellFormed(e) && RootsOf(e) == r'
    ensures Story(d, r, ops + [o], cs + [c], inum, off, src[..next], e, r')
  {
    if WellFormed(d) && r == RootsOf(d) {
      FollowOne(d, ops, cs, o, c, e);
      PiecesOne(cs, inum, off, src, i, next, CHUNK);
    }
  }

  /** One chunk more. */
  lemma ToldOn(past: seq<Operation>, d: Disk, r: Roots, inum: nat, off: nat, src: seq<Byte>, i: nat, next: nat,
               ops: seq<Operation>, cs: seq<Chunk>, past1: seq<Operation>, o: Operation, n: Dinode, at: nat, r1: Roots,
               e: Disk, r': Roots)
      returns (ops': seq<Operation>, cs': seq<Chunk>)
    requires inum < NINODES && i <= next <= |src| && next - i <= CHUNK && at == off + i
    requires Told(past, d, r, inum, off, src, i, ops, cs, past1, o.start, r1)
    requires L.InRange(o.start, o.trace) && e == L.Apply(o.start, o.trace) && HomeOnly(o.trace)
    requires IsChunkLog(Touched(o.trace), IBlock(inum))
    requires n == DinodeAt(o.start, inum) && at <= n.size
    requires Wrote(o.start, r1, inum, n.size, at, src[i..next], e, r')
    requires DinodeAt(e, inum).addrs == r'[inum] && DinodeAt(e, inum).size == Max(n.size, off + next)
    ensures |ops'| == |ops| + 1 && Told(past, d, r, inum, off, src, next, ops', cs', past1 + [o], e, r')
  {
    var c := Chunk(inum, at, src[i..next]);
    ops', cs' := ops + [o], cs + [c];
    if WellFormed(o.start) && r1 == RootsOf(o.start) { OneWrite(o, r1, n, c, e, r'); }
    StoryOn(d, r, ops, cs, inum, off, src, i, next, o, c, r1, e, r');
    assert past + ops' == past + ops + [o];
  }

  /** One turn of filewrite's loop. */
  method NextChunk(fs: FileSys, f: File, addr: seq<Byte>, i: nat, next: nat,
                   ghost r1: Roots, ghost d: Disk, ghost r: Roots, ghost size: nat, ghost off: nat,
                   ghost past: seq<Operation>, ghost ops: seq<Operation>, ghost cs: seq<Chunk>)
      returns (res: Io, ghost r': Roots, ghost ops': seq<Operation>, ghost cs': seq<Chunk>)
    requires i < next <= |addr| && next - i <= CHUNK && f.off < UINT
    requires Going(fs, f, r1, d, r, size, off, addr, i)
    requires Told(past, d, r, f.ip.inum, off, addr, i, ops, cs, fs.past, fs.disk, r1)
    modifies fs, f.ip`addrs, f.ip`size, f`off
    ensures res.Panic? ==> Full(fs.disk) && fs.start == old(fs.disk) && fs.past == old(fs.past) && off + next > size
    ensures res.Device? <==> f.ip.kind == T_DEV
    ensures res.Fail? ==> f.ip.kind != T_DEV && (off > size || off + next > MAXSIZE)
    ensures res.Device? || res.Fail? ==> Going(fs, f, r1, d, r, size, off, addr, i) && fs.disk == old(fs.disk) &&
                                         fs.past == old(fs.past) + [Operation(fs.disk, [])]
    ensures !res.Count? ==> r' == r1 && ops' == ops && cs' == cs
    ensures res.Count? ==> |ops'| == |ops| + 1 && Going(fs, f, r', d, r, size, off, addr, next) &&
                           Told(past, d, r, f.ip.inum, off, addr, next, ops', cs', fs.past, fs.disk, r')
  {
    ghost var d1, size1, at, n, past1 := fs.disk, f.ip.size, f.off, f.ip.Copy(), fs.past;
    res, r' := WriteChunk(fs, f, addr[i..next], r1);
    if res.Count? {
      ghost var o := Operation(fs.start, fs.trace);
      OneMoreChunk(d, r, f.ip.inum, size, off, addr, i, next, d1, r1, size1, at, fs.disk, r');
      ops', cs' := ToldOn(past, d, r, f.ip.inum, off, addr, i, next, ops, cs, past1, o, n, at, r1, fs.disk, r');
    } else {
      r', ops', cs' := r1, ops, cs;
    }
  }

  /** k chunks, of which all but the last are full, make up n bytes. */
  ghost predicate Chunks(k: nat, n: nat) { CHUNK * k - CHUNK < n <= CHUNK * k || k == n == 0 }

  lemma ChunkCount(k: nat, n: nat)
    requires Chunks(k, n)
    ensures k == (n + CHUNK - 1) / CHUNK
  {
  }

  /** The operation of a chunk that is not written, if there was one. */
  function Unwritten(res: Io, d: Disk): seq<Operation> { if res.Device? || res.Fail? then [Operation(d, [])] else [] }

  /** filewrite's loop: it stops after i bytes, at the end or at the first chunk that is not written. */
  method WriteChunks(fs: FileSys, f: File, addr: seq<Byte>, n: int, ghost r: Roots)
      returns (res: Io, i: nat, ghost r': Roots, ghost ops: seq<Operation>, ghost cs: seq<Chunk>,
               ghost past: seq<Operation>)
    requires InSync(fs, f.ip, r) && fs.held == 0 && f.off < UINT && n <= |addr| && n < UINT / 2
    modifies fs, f.ip`addrs, f.ip`size, f`off
    ensures i <= |addr| && (0 < i ==> i <= n)
    ensures res.Count? ==> n <= i && Chunks(|ops|, i) && (n > 0 ==> f.ip.kind != T_DEV)
    ensures !res.Count? ==> i < n && i == CHUNK * |ops|
    ensures res.Panic? ==> Full(fs.disk) && f.ip.kind != T_DEV && old(f.off) + n > old(f.ip.size)
    ensures !res.Panic? ==> Going(fs, f, r', old(fs.disk), r, old(f.ip.size), old(f.off), addr, i)
    ensures res.Device? ==> f.ip.kind == T_DEV
    ensures res.Fail? ==> f.ip.kind != T_DEV && (old(f.off) > old(f.ip.size) ||
                                                 old(f.off) + i + Min(CHUNK, n - i) > MAXSIZE)
    ensures fs.past == past + Unwritten(res, fs.disk)
    ensures Told(old(fs.past), old(fs.disk), r, f.ip.inum, old(f.off), addr, i, ops, cs, past,
                 if res.Panic? then fs.start else fs.disk, r')
  {
    ghost var d, size, off, past0 := fs.disk, f.ip.size, f.off, fs.past;
    r', ops, cs, i, res, past := r, [], [], 0, Count(0), past0;
    ToldNothing(past0, d, r, f.ip.inum, off, addr);
    while i < n
      invariant 0 <= i <= |addr| && (0 < i ==> i <= n) && (i < n ==> i == CHUNK * |ops|)
      invariant res.Count? && Chunks(|ops|, i) && Going(fs, f, r', d, r, size, off, addr, i)
      invariant past == fs.past && Told(past0, d, r, f.ip.inum, off, addr, i, ops, cs, past, fs.disk, r')
    {
      var n1 := if n - i > CHUNK then CHUNK else n - i;
      var next := i + n1;
      res, r', ops, cs := NextChunk(fs, f, addr, i, next, r', d, r, size, off, past0, ops, cs);
      if !res.Count? { return; }
      i, past := next, fs.past;
    }
  }

  /** filewrite: for any n, the loop of chunks is one splice of n bytes at the offset, which moves by n. If it fails,
      the chunks before the one that did not fit are in. Every chunk is one operation: those of ops, each one whole
      write of the bytes that are next, within its log budget, and one that logs nothing for a chunk turned away. */
  method Filewrite(fs: FileSys, f: File, addr: seq<Byte>, n: int, ghost r: Roots)
      returns (res: Io, ghost r': Roots, ghost done: nat, ghost ops: seq<Operation>, ghost cs: seq<Chunk>,
               ghost past: seq<Operation>)
    requires InSync(fs, f.ip, r) && fs.held == 0 && f.off < UINT && n <= |addr| && n < UINT / 2
    modifies fs, f.ip`addrs, f.ip`size, f`off
    ensures done <= |addr|
    ensures res.Count? ==> |ops| == (n + 1535) / 1536
    ensures f.writable && n > 0 && !res.Count? ==> done == 1536 * |ops|
    ensures !f.writable || n <= 0 ==> ops == []
    ensures res.Panic? ==> Full(fs.disk) && old(f.off) + n > old(f.ip.size)
    ensures res.Device? <==> f.writable && n > 0 && f.ip.kind == T_DEV
    ensures !res.Panic? ==> (res.Fail? <==> !f.writable || Refused(f.ip.kind, old(f.ip.size), old(f.off), n))
    ensures res.Count? ==> res.n == n == done
    ensures !res.Panic? ==>
              f.off == old(f.off) + done && InSync(fs, f.ip, r') &&
              WrittenSoFar(old(fs.disk), r, f.ip.inum, old(f.ip.size), old(f.off), addr, done, fs.disk, r')
    ensures res.Fail? && done > 0 ==> done < n && f.off + Min(1536, n - done) > MAXSIZE >= f.off
    ensures fs.past == past + if f.writable && n > 0 then Unwritten(res, fs.disk) else []
    ensures Told(old(fs.past), old(fs.disk), r, f.ip.inum, old(f.off), addr, done, ops, cs, past,
                 if res.Panic? then fs.start else fs.disk, r')
  {
    if !f.writable {
      ToldNothing(fs.past, fs.disk, r, f.ip.inum, f.off, addr);
      return Fail, r, 0, [], [], fs.past;
    }
    var i;
    res, i, r', ops, cs, past := WriteChunks(fs, f, addr, n, r);
    done := i;
    if res.Count? {
      if i == n {
        res := Count(n);
        ChunkCount(|ops|, n);
      } else {
        res := Fail;
      }
    }
  }
}
