/** readi and writei of fs.c. */
module FsIo {
  import opened Common
  import opened Blocks
  import opened FsTree
  import opened FsInode
  import opened FsFile
  import opened FsBudget
  import opened Fs

  const T_DEV: nat := 3
  const CHUNK: nat := 1536   // (MAXOPBLOCKS - 1 - 1 - 2) / 2 * BSIZE

  /** What a call returns: a byte count, -1, whatever the device driver returns, or a panic instead. */
  datatype Io = Count(n: nat) | Fail | Device | Panic

  /** The in-memory inode is the one on disk, and all file blocks below its size are there. */
  ghost predicate InSync(fs: FileSys, ip: Inode, r: Roots)
    reads fs, ip
  {
    var same := ip.inum < NINODES && r[ip.inum] == ip.addrs && Forest(fs.disk, r) &&
                Mapped(fs.disk, r, ip.inum, ip.size) && Fits(ip.Copy()) && DinodeAt(fs.disk, ip.inum) == ip.Copy();
    same
  }

  /** The records of the other inodes stay. */
  ghost predicate RecordsKeep(d: Disk, inum: nat, d': Disk) {
    forall j: nat :: j < NINODES && j != inum ==> DinodeAt(d', j) == DinodeAt(d, j)
  }

  /** One turn of readi's loop: up to n bytes at position `at`, from one block. */
  method ReadBlock(fs: FileSys, ip: Inode, at: nat, n: nat, ghost r: Roots) returns (piece: seq<Byte>)
    requires ip.inum < NINODES && r[ip.inum] == ip.addrs && Forest(fs.disk, r) && Mapped(fs.disk, r, ip.inum, ip.size)
    requires fs.held <= 2 && 0 < n && at + n <= ip.size
    requires fs.Traced()
    modifies fs`disk, fs`logged, fs`trace, fs`held, ip`addrs
    ensures fs.Traced()
    ensures fs.disk == old(fs.disk) && fs.logged == old(fs.logged) && fs.held == old(fs.held) &&
            ip.addrs == old(ip.addrs)
    ensures 0 < |piece| <= n && piece == Content(fs.disk, r, ip.inum, ip.size)[at..at + |piece|]
  {
    ghost var w, bn := Start(fs.disk, r, fs.logged), at / BSIZE;
    assert BlockAt(fs.disk, r, ip.inum, bn) != 0;
    var a, taken, r' := fs.Bmap(ip, at / BSIZE, r);
    ReachedPlain(w, ip.inum, bn, a.value, taken, fs.disk, r', fs.logged);
    var bp := fs.Bread(a.value);
    var m := Min(n, BSIZE - at % BSIZE);
    SliceMore(fs.disk, r, ip.inum, ip.size, at, m);
    piece := bp[at % BSIZE..at % BSIZE + m];
    fs.Brelse();
  }

  /** readi: the bytes of the file from off on, clipped to its size. It takes and logs no block. */
  method Readi(fs: FileSys, ip: Inode, off: nat, n: nat, ghost r: Roots) returns (res: Io, dst: seq<Byte>)
    requires InSync(fs, ip, r) && fs.held <= 2 && off < UINT && n < UINT
    requires fs.Traced()
    modifies fs`disk, fs`logged, fs`trace, fs`held, ip`addrs
    ensures fs.Traced()
    ensures fs.disk == old(fs.disk) && fs.logged == old(fs.logged) && fs.held == old(fs.held) &&
            ip.addrs == old(ip.addrs)
    ensures res.Device? <==> ip.kind == T_DEV
    ensures res.Fail? <==> ip.kind != T_DEV && (off > ip.size || off + n >= UINT)
    ensures !res.Panic?
    ensures res.Count? ==> res.n == Min(n, ip.size - off) &&
                           dst == Content(fs.disk, r, ip.inum, ip.size)[off..off + res.n]
  {
    dst := [];
    if ip.kind == T_DEV { return Device, []; }
    if off > ip.size || (off + n) % UINT < off { return Fail, []; }
    var n' := if off + n > ip.size then ip.size - off else n;
    ghost var c := Content(fs.disk, r, ip.inum, ip.size);
    var tot, at := 0, off;
    while tot < n'
      invariant fs.Traced() && 0 <= tot <= n' && at == off + tot && fs.held == old(fs.held)
      invariant fs.disk == old(fs.disk) && fs.logged == old(fs.logged) && ip.addrs == old(ip.addrs)
      invariant |c| == ip.size && dst == c[off..at]
    {
      var piece := ReadBlock(fs, ip, at, n' - tot, r);
      var next := at + |piece|;
      SliceJoin(c, off, at, next);
      dst := dst + piece;
      tot, at := tot + |piece|, next;
    }
    return Count(n'), dst;
  }

  lemma SliceJoin(c: seq<Byte>, i: nat, j: nat, k: nat)
    requires i <= j <= k <= |c|
    ensures c[i..j] + c[j..k] == c[i..k]
  {
  }

  /** What one turn of writei's loop does: bmap, then m bytes of src from index tot on into the block. */
  ghost predicate Turn(w: Start, inum: nat, at: nat, src: seq<Byte>, tot: nat, m: nat, d': Disk, r': Roots,
                       logged: set<nat>, a: nat, taken: seq<nat>, d2: Disk, logged2: set<nat>)
    requires at < MAXSIZE
  {
    var turn := 0 < m && tot + m <= |src| && at % BSIZE + m <= BSIZE && a < FSSIZE &&
                Reached(w, Place(inum, at / BSIZE), a, taken, d2, r', logged2) &&
                d' == d2[a := Patch(d2[a], at % BSIZE, src, tot, m)] && logged == logged2 + {a};
    turn
  }

  method WriteBlock(fs: FileSys, ip: Inode, src: seq<Byte>, tot: nat, at: nat, ghost r: Roots)
      returns (m: nat, ok: bool, ghost r': Roots, ghost a: nat, ghost taken: seq<nat>, ghost d2: Disk,
               ghost logged2: set<nat>)
    requires ip.inum < NINODES && r[ip.inum] == ip.addrs && Forest(fs.disk, r) && fs.held <= 2
    requires at < MAXSIZE && tot < |src|
    requires fs.Traced()
    modifies fs`disk, fs`logged, fs`trace, fs`held, ip`addrs
    ensures fs.Traced()
    ensures fs.held == old(fs.held) && r' == r[ip.inum := ip.addrs]
    ensures !ok ==> Missing(old(fs.disk), r, Place(ip.inum, at / BSIZE), fs.disk)
    ensures ok ==> Turn(Start(old(fs.disk), r, old(fs.logged)), ip.inum, at, src, tot, m, fs.disk, r', fs.logged,
                        a, taken, d2, logged2)
  {
    var block;
    block, taken, r' := fs.Bmap(ip, at / BSIZE, r);
    d2, logged2 := fs.disk, fs.logged;
    if block.None? { return 0, false, r', 0, taken, d2, logged2; }
    a := block.value;
    ReachedBlock(Start(old(fs.disk), r, old(fs.logged)), Place(ip.inum, at / BSIZE), a, taken, d2, r', logged2);
    var bp := fs.Bread(block.value);
    m := Min(|src| - tot, BSIZE - at % BSIZE);
    fs.LogWrite(block.value, Patch(bp, at % BSIZE, src, tot, m));
    fs.Brelse();
    ok := true;
  }

  lemma WriteTurn(d: Disk, r: Roots, inum: nat, size: nat, off: nat, src: seq<Byte>, tot: nat, m: nat, next: nat,
                  w: Start, d': Disk, r': Roots, logged: set<nat>, a: nat, taken: seq<nat>, d2: Disk, logged2: set<nat>)
    requires inum < NINODES && off <= size && off + |src| <= MAXSIZE && tot < |src| && next == tot + m
    requires Writing(d, r, inum, size, off, src, tot, w.d, w.r)
    requires Turn(w, inum, off + tot, src, tot, m, d', r', logged, a, taken, d2, logged2)
    ensures next <= |src| && Writing(d, r, inum, size, off, src, next, d', r')
  {
    var at := off + tot;
    var bn := at / BSIZE;
    ReachedReady(w, inum, bn, a, taken, d2, r', logged2);
    WritingMore(d, r, inum, size, off, src, tot, m, next, at, bn, w.d, w.r, a, d2, r', d'[a], d');
  }

  lemma LogTurn(d: Disk, r: Roots, inum: nat, size: nat, off: nat, src: seq<Byte>, tot: nat, m: nat,
                before: set<nat>, first: nat, last: nat,
                w: Start, d': Disk, r': Roots, logged: set<nat>, a: nat, taken: seq<nat>, d2: Disk, logged2: set<nat>)
    requires inum < NINODES && tot < |src| && off + |src| <= MAXSIZE &&
             Writing(d, r, inum, size, off, src, tot, w.d, w.r)
    requires first <= (off + tot) / BSIZE <= last < MAXFILE && last <= first + 3
    requires LoggedIn(before, w.logged, inum, first, last, w.d, w.r)
    requires Turn(w, inum, off + tot, src, tot, m, d', r', logged, a, taken, d2, logged2)
    ensures LoggedIn(before, logged, inum, first, last, d', r')
  {
    var c := (off + tot) / BSIZE - 1;
    if c >= 0 { assert c * BSIZE < Max(size, off + |src[..tot]|); }
    ChunkPoke(before, w, inum, first, last, (off + tot) / BSIZE, a, taken, d2, r', logged2, d');
  }

  /** The last block of a write of n bytes at off. */
  function LastBlock(off: nat, n: nat): nat { if n == 0 then off / BSIZE else (off + n - 1) / BSIZE }

  /** One turn of writei's loop, with d, r and before from before the loop. */
  method NextBlock(fs: FileSys, ip: Inode, src: seq<Byte>, off: nat, tot: nat, ghost r1: Roots,
                   ghost d: Disk, ghost r: Roots, ghost before: set<nat>)
      returns (next: nat, ok: bool, ghost r': Roots)
    requires ip.inum < NINODES && r1[ip.inum] == ip.addrs && fs.held <= 2
    requires tot < |src| && off <= ip.size && off + |src| <= MAXSIZE && Mapped(d, r, ip.inum, ip.size)
    requires Writing(d, r, ip.inum, ip.size, off, src, tot, fs.disk, r1)
    requires |src| <= CHUNK ==>
               LoggedIn(before, fs.logged, ip.inum, off / BSIZE, LastBlock(off, |src|), fs.disk, r1)
    requires fs.Traced()
    modifies fs`disk, fs`logged, fs`trace, fs`held, ip`addrs
    ensures fs.Traced()
    ensures fs.held == old(fs.held) && r'[ip.inum] == ip.addrs
    ensures !ok ==> NoRoom(d, r, ip.inum, ip.size, off, |src|, fs.disk)
    ensures ok ==> tot < next <= |src| && Writing(d, r, ip.inum, ip.size, off, src, next, fs.disk, r')
    ensures ok && |src| <= CHUNK ==>
              LoggedIn(before, fs.logged, ip.inum, off / BSIZE, LastBlock(off, |src|), fs.disk, r')
  {
    ghost var w := Start(fs.disk, r1, fs.logged);
    var m, done, r2, a, taken, d2, logged2 := WriteBlock(fs, ip, src, tot, off + tot, r1);
    ok, r', next := done, r2, tot + m;
    if ok {
      WriteTurn(d, r, ip.inum, ip.size, off, src, tot, m, next, w, fs.disk, r', fs.logged, a, taken, d2, logged2);
      if |src| <= CHUNK {
        LogTurn(d, r, ip.inum, ip.size, off, src, tot, m, before, off / BSIZE, LastBlock(off, |src|), w,
                fs.disk, r', fs.logged, a, taken, d2, logged2);
      }
    } else {
      RanOut(d, r, ip.inum, ip.size, off, src, tot, (off + tot) / BSIZE, w.d, r1, fs.disk);
    }
  }

  /** writei's loop. */
  method WriteAll(fs: FileSys, ip: Inode, src: seq<Byte>, off: nat, ghost r: Roots) returns (ok: bool, ghost r': Roots)
    requires ip.inum < NINODES && r[ip.inum] == ip.addrs && Forest(fs.disk, r) && fs.held <= 2
    requires Mapped(fs.disk, r, ip.inum, ip.size) && off <= ip.size && off + |src| <= MAXSIZE
    requires fs.Traced()
    modifies fs`disk, fs`logged, fs`trace, fs`held, ip`addrs
    ensures fs.Traced()
    ensures fs.held == old(fs.held) && r'[ip.inum] == ip.addrs
    ensures !ok ==> NoRoom(old(fs.disk), r, ip.inum, ip.size, off, |src|, fs.disk)
    ensures ok ==> Writing(old(fs.disk), r, ip.inum, ip.size, off, src, |src|, fs.disk, r')
    ensures ok && 0 < |src| <= CHUNK ==>
              LoggedIn(old(fs.logged), fs.logged, ip.inum, off / BSIZE, LastBlock(off, |src|), fs.disk, r')
  {
    ghost var d, first, last := fs.disk, off / BSIZE, LastBlock(off, |src|);
    r', ok := r, true;
    var tot := 0;
    WritingStart(d, r, ip.inum, ip.size, off, src);
    while tot < |src|
      invariant fs.Traced() && 0 <= tot <= |src| && fs.held == old(fs.held) && r'[ip.inum] == ip.addrs
      invariant ok && Writing(d, r, ip.inum, ip.size, off, src, tot, fs.disk, r')
      invariant 0 < |src| <= CHUNK ==> LoggedIn(old(fs.logged), fs.logged, ip.inum, first, last, fs.disk, r')
    {
      tot, ok, r' := NextBlock(fs, ip, src, off, tot, r', d, r, old(fs.logged));
      if !ok { return; }
    }
  }

  lemma SameRecords(d: Disk, d': Disk, j: nat)
    requires LowSame(d, d') && j < NINODES
    ensures DinodeAt(d', j) == DinodeAt(d, j)
  {
    assert IBlock(j) < BMAPSTART;
  }

  /** A grown file after iupdate. */
  lemma GrownStored(d: Disk, r: Roots, inum: nat, size: nat, off: nat, src: seq<Byte>, d1: Disk, r': Roots, n: Dinode)
    requires inum < NINODES && Writing(d, r, inum, size, off, src, |src|, d1, r') && Fits(n)
    ensures var d' := StoreInode(d1, inum, n);
            && Spliced(d, r, inum, size, off, src, d', r') && RecordsKeep(d, inum, d') && DinodeAt(d', inum) == n
            && forall l :: IsLoc(l) ==> At(d', r', l) == At(d1, r', l)
  {
    var d' := StoreInode(d1, inum, n);
    assert src[..|src|] == src;
    SplicedStored(d, r, inum, size, off, src, d1, r', d', IBlock(inum));
    StoredKeeps(d1, r', d', IBlock(inum), inum);
    forall j: nat | j < NINODES ensures DinodeAt(d', j) == if j == inum then n else DinodeAt(d, j) {
      StoreInodeOnly(d1, inum, n, j);
      SameRecords(d, d1, j);
    }
  }

  /** What a write leaves behind. */
  ghost predicate Wrote(d: Disk, r: Roots, inum: nat, size: nat, off: nat, src: seq<Byte>, d': Disk, r': Roots) {
    var wrote := Spliced(d, r, inum, size, off, src, d', r') && RecordsKeep(d, inum, d') &&
                 (off + |src| <= size ==> r' == r && SameUsed(d, d'));
    wrote
  }

  /** A write within the file leaves the inode as it was. */
  lemma WroteWithin(d: Disk, r: Roots, inum: nat, size: nat, off: nat, src: seq<Byte>, d': Disk, r': Roots)
    requires inum < NINODES && Writing(d, r, inum, size, off, src, |src|, d', r') && off + |src| <= size
    ensures Wrote(d, r, inum, size, off, src, d', r') && r' == r && DinodeAt(d', inum) == DinodeAt(d, inum)
    ensures Forest(d', r') && Mapped(d', r', inum, size)
  {
    assert src[..|src|] == src;
    forall j: nat | j < NINODES ensures DinodeAt(d', j) == DinodeAt(d, j) { SameRecords(d, d', j); }
  }

  /** The end of a write past the end of the file: the new size, and iupdate. */
  method Grow(fs: FileSys, ip: Inode, ghost d: Disk, ghost r: Roots, off: nat, src: seq<Byte>, ghost r': Roots)
    requires ip.inum < NINODES && r'[ip.inum] == ip.addrs && fs.held <= 3 && ip.size < off + |src| <= MAXSIZE
    requires ip.kind < SHORT && ip.major < SHORT && ip.minor < SHORT && ip.nlink < SHORT
    requires Writing(d, r, ip.inum, ip.size, off, src, |src|, fs.disk, r')
    requires fs.Traced()
    modifies fs`disk, fs`logged, fs`trace, fs`held, ip`size
    ensures fs.Traced()
    ensures fs.held == old(fs.held) && fs.logged == old(fs.logged) + {IBlock(ip.inum)}
    ensures ip.size == off + |src| && InSync(fs, ip, r')
    ensures Wrote(d, r, ip.inum, old(ip.size), off, src, fs.disk, r')
    ensures forall l :: IsLoc(l) ==> At(fs.disk, r', l) == At(old(fs.disk), r', l)
  {
    ip.size := off + |src|;
    AddrsFit(fs.disk, r', ip.inum);
    GrownStored(d, r, ip.inum, old(ip.size), off, src, fs.disk, r', ip.Copy());
    fs.Iupdate(ip);
  }

  /** writei: the bytes are spliced into the file, which grows if they reach past its end; the in-memory inode is
      the one on disk again, although it is written only when the file grew. */
  method Writei(fs: FileSys, ip: Inode, src: seq<Byte>, off: nat, ghost r: Roots) returns (res: Io, ghost r': Roots)
    requires InSync(fs, ip, r) && fs.held <= 2 && off < UINT && |src| < UINT
    requires fs.Traced()
    modifies fs`disk, fs`logged, fs`trace, fs`held, ip`addrs, ip`size
    ensures fs.Traced()
    ensures fs.held == old(fs.held) && r'[ip.inum] == ip.addrs
    ensures res.Device? <==> ip.kind == T_DEV
    ensures res.Fail? <==> ip.kind != T_DEV && (off > old(ip.size) || off + |src| > MAXSIZE)
    ensures res.Device? || res.Fail? ==> fs.disk == old(fs.disk) && fs.logged == old(fs.logged) &&
                                         fs.trace == old(fs.trace) && ip.Copy() == old(ip.Copy())
    ensures res.Panic? ==> NoRoom(old(fs.disk), r, ip.inum, old(ip.size), off, |src|, fs.disk)
    ensures off + |src| <= old(ip.size) ==> !res.Panic?
    ensures res.Count? ==> res.n == |src| && ip.size == Max(old(ip.size), off + |src|) && InSync(fs, ip, r')
    ensures res.Count? ==> Wrote(old(fs.disk), r, ip.inum, old(ip.size), off, src, fs.disk, r')
    ensures res.Count? && 0 < |src| <= CHUNK ==>
              LoggedIn(old(fs.logged) + {IBlock(ip.inum)}, fs.logged, ip.inum, off / BSIZE, LastBlock(off, |src|),
                fs.disk, r')
  {
    r' := r;
    if ip.kind == T_DEV { return Device, r; }
    if off > ip.size || (off + |src|) % UINT < off { return Fail, r; }
    if off + |src| > MAXSIZE { return Fail, r; }
    var ok;
    ok, r' := WriteAll(fs, ip, src, off, r);
    if !ok { return Panic, r'; }
    res := Count(|src|);
    if |src| > 0 && off + |src| > ip.size {
      ghost var d1, logged1 := fs.disk, fs.logged;
      Grow(fs, ip, old(fs.disk), r, off, src, r');
      if |src| <= CHUNK {
        LoggedInFrame(old(fs.logged), logged1, ip.inum, off / BSIZE, LastBlock(off, |src|), d1, fs.disk, r');
      }
    } else {
      WroteWithin(old(fs.disk), r, ip.inum, ip.size, off, src, fs.disk, r');
    }
  }
}
