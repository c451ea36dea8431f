/** fs.c as it runs: the block allocator, the block map and truncation. */
module Fs {
  import opened Common
  import opened Blocks
  import opened Bitmap
  import opened FsTree
  import opened FsFree
  import opened FsInode
  import L = LogSpec

  /** struct inode: the in-memory copy of an inode. */
  class Inode {
    const inum: nat
    var kind: nat
    var major: nat
    var minor: nat
    var nlink: nat
    var size: nat
    var addrs: seq<nat>

    /** iget and ilock: the copy of what is on disk. */
    constructor (inum: nat, n: Dinode)
      ensures this.inum == inum && Copy() == n
    {
      this.inum := inum;
      kind, major, minor, nlink, size, addrs := n.kind, n.major, n.minor, n.nlink, n.size, n.addrs;
    }

    /** The fields that live on disk. */
    function Copy(): Dinode
      reads this
    {
      Dinode(kind, major, minor, nlink, size, addrs)
    }
  }

  /** An operation: the disk when it began, and its log_writes in order. */
  datatype Operation = Operation(start: Disk, trace: seq<L.Write>)

  /** The blocks of a list of writes. */
  ghost function Touched(ws: seq<L.Write>): set<nat> { set i | 0 <= i < |ws| :: ws[i].blockno }

  lemma TouchedSnoc(ws: seq<L.Write>, w: L.Write)
    ensures Touched(ws + [w]) == Touched(ws) + {w.blockno}
  {
    assert (ws + [w])[|ws|] == w;
    forall b | b in Touched(ws) ensures b in Touched(ws + [w]) {
      var i :| 0 <= i < |ws| && ws[i].blockno == b;
      assert (ws + [w])[i] == ws[i];
    }
  }

  /** Bitmap block b / BPB, and the bits before its bit bi. */
  lemma UsedUpTo(d: Disk, b: nat, bi: nat)
    requires b % BPB == 0 && b < FSSIZE && bi <= BPB && b + bi <= FSSIZE
    requires forall c: nat :: c < b ==> IsUsed(d, c)
    requires forall j: nat :: j < bi ==> GetBit(d[BBlock(b)], j)
    ensures forall c: nat :: c < b + bi ==> IsUsed(d, c)
    ensures bi < BPB ==> BBlock(b + bi) == BBlock(b) && (b + bi) % BPB == bi
  {
    forall c: nat | b <= c < b + bi ensures IsUsed(d, c) {
      assert BBlock(c) == BBlock(b) && c % BPB == c - b;
      assert GetBit(d[BBlock(b)], c - b);
    }
  }

  /** The block layer under fs.c: the disk as seen through the cache and the log, what the running operation
      has logged so far, and how many buffers it holds. */
  class FileSys {
    var disk: Disk
    ghost var logged: set<nat>       // the blocks logged by the operation in progress
    ghost var trace: seq<L.Write>    // its log_writes, in order
    ghost var start: Disk            // the disk when it began
    ghost var held: nat
    ghost var past: seq<Operation>   // the operations finished

    /** The disk is the one the operation found, with its log_writes. */
    ghost predicate Traced()
      reads this
    {
      var traced := L.InRange(start, trace) && disk == L.Apply(start, trace) && logged == Touched(trace);
      traced
    }

    constructor (d: Disk)
      ensures disk == d && logged == {} && held == 0 && past == [] && Traced()
    {
      disk, logged, trace, start, held, past := d, {}, [], d, 0, [];
    }

    /** begin_op: an operation that has logged nothing yet. */
    method BeginOp()
      modifies this`logged, this`trace, this`start
      ensures logged == {} && trace == [] && start == disk && Traced()
    {
      logged, trace, start := {}, [], disk;
    }

    /** end_op */
    method EndOp()
      modifies this`past
      ensures past == old(past) + [Operation(start, trace)]
    {
      past := past + [Operation(start, trace)];
    }

    /** bread: no caller holds more than three buffers when it asks for another. */
    method Bread(b: nat) returns (data: Block)
      requires b < FSSIZE && held <= 3
      modifies this`held
      ensures data == disk[b] && held == old(held) + 1
    {
      data, held := disk[b], held + 1;
    }

    method Brelse()
      requires held > 0
      modifies this`held
      ensures held == old(held) - 1
    {
      held := held - 1;
    }

    /** The holder's change to the buffer of block b, and log_write. */
    method LogWrite(b: nat, data: Block)
      requires b < FSSIZE && held > 0 && Traced()
      modifies this`disk, this`logged, this`trace
      ensures disk == old(disk)[b := data] && logged == old(logged) + {b}
      ensures trace == old(trace) + [L.Write(b, data)] && Traced()
    {
      L.ApplySnoc(start, trace, L.Write(b, data));
      TouchedSnoc(trace, L.Write(b, data));
      disk, logged := disk[b := data], logged + {b};
      trace := trace + [L.Write(b, data)];
    }

    /** bzero */
    method Bzero(b: nat)
      requires b < FSSIZE && held <= 3
      requires Traced()
      modifies this`disk, this`logged, this`trace, this`held
      ensures Traced()
      ensures disk == old(disk)[b := ZeroBlock()] && logged == old(logged) + {b} && held == old(held)
    {
      var bp := Bread(b);
      LogWrite(b, ZeroBlock());
      Brelse();
    }

    /** The inner loop of balloc: the first clear bit among the first n of a bitmap block. */
    method FirstClear(data: Block, n: nat) returns (bi: nat)
      requires n <= BPB
      ensures bi <= n && (bi < n ==> !GetBit(data, bi))
      ensures forall j: nat :: j < bi ==> GetBit(data, j)
    {
      bi := 0;
      while bi < n
        invariant bi <= n && forall j: nat :: j < bi ==> GetBit(data, j)
      {
        if !GetBit(data, bi) { return; }
        bi := bi + 1;
      }
    }

    /** The end of balloc: block b is marked in bitmap block bp and zeroed. */
    method Claim(bp: Block, b: nat)
      requires b < FSSIZE && 0 < held <= 4 && bp == disk[BBlock(b)]
      requires Traced()
      modifies this`disk, this`logged, this`trace, this`held
      ensures Traced()
      ensures held == old(held) - 1 && disk == FlipUsed(old(disk), b)[b := ZeroBlock()]
      ensures logged == old(logged) + {BBlock(b), b}
    {
      LogWrite(BBlock(b), FlipBit(bp, b % BPB));
      Brelse();
      Bzero(b);
      assert logged == old(logged) + {BBlock(b), b};
    }

    /** balloc: the lowest free block, marked in use and zeroed; None is the panic "out of blocks",
        which happens exactly when no block is free. */
    method Balloc() returns (r: Option<nat>)
      requires held <= 3
      requires Traced()
      modifies this`disk, this`logged, this`trace, this`held
      ensures Traced()
      ensures held == old(held)
      ensures r.None? ==> disk == old(disk) && logged == old(logged) && Full(disk)
      ensures r.Some? ==> r.value < FSSIZE && !IsUsed(old(disk), r.value) &&
                          disk == FlipUsed(old(disk), r.value)[r.value := ZeroBlock()] &&
                          logged == old(logged) + {BBlock(r.value), r.value}
      ensures r.Some? ==> forall c: nat :: c < r.value ==> IsUsed(old(disk), c)
    {
      var b: nat := 0;
      while b < FSSIZE
        invariant Traced() && b % BPB == 0 && held == old(held) && disk == old(disk) && logged == old(logged)
        invariant forall c: nat :: c < b && c < FSSIZE ==> IsUsed(disk, c)
      {
        var bp := Bread(BBlock(b));
        var bi := FirstClear(bp, if b + BPB <= FSSIZE then BPB else FSSIZE - b);
        UsedUpTo(disk, b, bi);
        if bi < BPB && b + bi < FSSIZE {
          Claim(bp, b + bi);
          return Some(b + bi);
        }
        Brelse();
        b := b + BPB;
      }
      return None;
    }

    /** bfree: the bit of a block in use is cleared; false is the panic "freeing free block". */
    method Bfree(b: nat) returns (ok: bool)
      requires b < FSSIZE && held <= 3
      requires Traced()
      modifies this`disk, this`logged, this`trace, this`held
      ensures Traced()
      ensures held == old(held) && ok == IsUsed(old(disk), b)
      ensures ok ==> disk == FlipUsed(old(disk), b) && logged == old(logged) + {BBlock(b)}
      ensures !ok ==> disk == old(disk) && logged == old(logged)
    {
      var bp := Bread(BBlock(b));
      if !GetBit(bp, b % BPB) {
        Brelse();
        return false;
      }
      LogWrite(BBlock(b), FlipBit(bp, b % BPB));
      Brelse();
      ok := true;
    }

    /** bmap at the inode: address `slot` of ip, allocated if absent. */
    method RootAt(ip: Inode, slot: nat, ghost r: Roots) returns (a: Option<nat>, ghost taken: seq<nat>, ghost r': Roots)
      requires ip.inum < NINODES && r[ip.inum] == ip.addrs && slot < NADDRS && Forest(disk, r) && held <= 3
      requires Traced()
      modifies this`disk, this`logged, this`trace, this`held, ip`addrs
      ensures Traced()
      ensures held == old(held) && r' == r[ip.inum := ip.addrs]
      ensures a.None? ==> Missing(old(disk), r, Loc(ip.inum, slot, []), disk)
      ensures a.Some? ==>
              Reached(Start(old(disk), r, old(logged)), Loc(ip.inum, slot, []), a.value, taken, disk, r', logged)
    {
      ghost var l := Loc(ip.inum, slot, []);
      var addr := ip.addrs[slot];
      taken, r' := [], r;
      if addr == 0 {
        var b := Balloc();
        if b.None? { return None, [], r; }
        addr := b.value;
        ip.addrs := ip.addrs[slot := addr];
        taken := [addr];
        r' := r[ip.inum := ip.addrs];
        FlipUsedOnly(old(disk), addr);
        assert Took(old(disk), r, l, addr, disk, r');
        GrownRoot(old(disk), r, l, addr, disk, r');
        WayTook(old(disk), r, l, addr, disk, r');
      } else {
        GrownAlready(disk, r, l);
      }
      a := Some(addr);
    }

    /** A new block in entry i of index block q, which is absent. */
    method NewEntry(q: nat, bp: Block, i: nat) returns (b: Option<nat>)
      requires i < NINDIRECT && 0 < held <= 3 && q < FSSIZE && IsUsed(disk, q) && bp == disk[q]
      requires Traced()
      modifies this`disk, this`logged, this`trace, this`held
      ensures Traced()
      ensures held == old(held)
      ensures b.None? ==> disk == old(disk) && logged == old(logged) && Full(disk)
      ensures b.Some? ==> Stored(old(disk), q, i, b.value, disk) &&
                          logged == old(logged) + {BBlock(b.value), b.value, q}
    {
      b := Balloc();
      if b.None? { return; }
      LogWrite(q, PutWord(bp, i, b.value));
      assert logged == old(logged) + {BBlock(b.value), b.value, q};
    }

    /** bmap at an index block: entry i of block q, allocated if absent, where the walk from w has got
        as far as q, at place p. */
    method EntryAt(q: nat, i: nat, ghost w: Start, ghost p: Loc, ghost taken: seq<nat>, ghost r: Roots)
        returns (a: Option<nat>, ghost taken': seq<nat>)
      requires IsLoc(p) && |p.path| < Depth(p.slot) && i < NINDIRECT && held <= 2
      requires Reached(w, p, q, taken, disk, r, logged)
      requires Traced()
      modifies this`disk, this`logged, this`trace, this`held
      ensures Traced()
      ensures held == old(held)
      ensures a.None? ==> Missing(w.d, w.r, Child(p, i), disk)
      ensures a.Some? ==> Reached(w, Child(p, i), a.value, taken', disk, r, logged)
    {
      ReachedBlock(w, p, q, taken, disk, r, logged);
      var bp := Bread(q);
      a, taken' := Some(GetWord(bp, i)), taken;
      if a.value == 0 {
        a := NewEntry(q, bp, i);
        if a.None? {
          ReachedAbsent(w, p, i, taken, disk, r, logged, q);
          Brelse();
          return;
        }
        ReachedTook(w, p, i, taken, old(disk), r, old(logged), q, a.value, disk);
        taken' := taken + [a.value];
      } else {
        ReachedPresent(w, p, i, taken, disk, r, logged, q);
      }
      Brelse();
    }

    /** The last two steps of the walk. */
    method LastTwo(q: nat, index2: nat, index3: nat, ghost w: Start, ghost p: Loc, ghost taken: seq<nat>,
                   ghost r: Roots)
        returns (a: Option<nat>, ghost taken': seq<nat>)
      requires IsLoc(p) && |p.path| + 2 == Depth(p.slot) && index2 < NINDIRECT && index3 < NINDIRECT && held <= 2
      requires Reached(w, p, q, taken, disk, r, logged)
      requires Traced()
      modifies this`disk, this`logged, this`trace, this`held
      ensures Traced()
      ensures held == old(held)
      ensures a.None? ==> Missing(w.d, w.r, Child(Child(p, index2), index3), disk)
      ensures a.Some? ==> Reached(w, Child(Child(p, index2), index3), a.value, taken', disk, r, logged)
    {
      ChildParent(p, index2);
      a, taken' := EntryAt(q, index2, w, p, taken, r);
      if a.None? {
        MissingChild(w.d, w.r, Child(p, index2), index3, disk);
        return;
      }
      a, taken' := EntryAt(a.value, index3, w, Child(p, index2), taken', r);
    }

    /** The last three steps of the walk. */
    method LastThree(q: nat, index1: nat, index2: nat, index3: nat, ghost w: Start, ghost p: Loc,
                     ghost taken: seq<nat>, ghost r: Roots)
        returns (a: Option<nat>, ghost taken': seq<nat>)
      requires IsLoc(p) && |p.path| + 3 == Depth(p.slot) && index1 < NINDIRECT && index2 < NINDIRECT &&
               index3 < NINDIRECT && held <= 2
      requires Reached(w, p, q, taken, disk, r, logged)
      requires Traced()
      modifies this`disk, this`logged, this`trace, this`held
      ensures Traced()
      ensures held == old(held)
      ensures a.None? ==> Missing(w.d, w.r, Child(Child(Child(p, index1), index2), index3), disk)
      ensures a.Some? ==> Reached(w, Child(Child(Child(p, index1), index2), index3), a.value, taken', disk, r, logged)
    {
      ChildParent(p, index1);
      a, taken' := EntryAt(q, index1, w, p, taken, r);
      if a.None? {
        MissingChild(w.d, w.r, Child(p, index1), index2, disk);
        MissingChild(w.d, w.r, Child(Child(p, index1), index2), index3, disk);
        return;
      }
      a, taken' := LastTwo(a.value, index2, index3, w, Child(p, index1), taken', r);
    }

    /** The single indirect part of bmap. */
    method Single(ip: Inode, index1: nat, ghost r: Roots)
        returns (a: Option<nat>, ghost taken: seq<nat>, ghost r': Roots)
      requires ip.inum < NINODES && r[ip.inum] == ip.addrs && Forest(disk, r) && held <= 2
      requires index1 < NINDIRECT
      requires Traced()
      modifies this`disk, this`logged, this`trace, this`held, ip`addrs
      ensures Traced()
      ensures held == old(held) && r' == r[ip.inum := ip.addrs]
      ensures a.None? ==> Missing(old(disk), r, Loc(ip.inum, NDIRECT, [index1]), disk)
      ensures a.Some? ==> Reached(Start(old(disk), r, old(logged)), Loc(ip.inum, NDIRECT, [index1]), a.value, taken,
                                  disk, r', logged)
    {
      ghost var w, l := Start(disk, r, logged), Loc(ip.inum, NDIRECT, []);
      PlacePath(ip.inum, NDIRECT, index1, 0, 0);
      a, taken, r' := RootAt(ip, NDIRECT, r);
      if a.None? {
        MissingChild(w.d, r, l, index1, disk);
        return;
      }
      a, taken := EntryAt(a.value, index1, w, l, taken, r');
    }

    /** The double indirect part of bmap. */
    method Double(ip: Inode, index1: nat, index2: nat, ghost r: Roots)
        returns (a: Option<nat>, ghost taken: seq<nat>, ghost r': Roots)
      requires ip.inum < NINODES && r[ip.inum] == ip.addrs && Forest(disk, r) && held <= 2
      requires index1 < NINDIRECT && index2 < NINDIRECT
      requires Traced()
      modifies this`disk, this`logged, this`trace, this`held, ip`addrs
      ensures Traced()
      ensures held == old(held) && r' == r[ip.inum := ip.addrs]
      ensures a.None? ==> Missing(old(disk), r, Loc(ip.inum, NDIRECT + 1, [index1, index2]), disk)
      ensures a.Some? ==>
              Reached(Start(old(disk), r, old(logged)), Loc(ip.inum, NDIRECT + 1, [index1, index2]), a.value, taken,
                      disk, r', logged)
    {
      ghost var w, l := Start(disk, r, logged), Loc(ip.inum, NDIRECT + 1, []);
      PlacePath(ip.inum, NDIRECT + 1, index1, index2, 0);
      a, taken, r' := RootAt(ip, NDIRECT + 1, r);
      if a.None? {
        MissingChild(w.d, r, l, index1, disk);
        MissingChild(w.d, r, Loc(ip.inum, NDIRECT + 1, [index1]), index2, disk);
        return;
      }
      a, taken := LastTwo(a.value, index1, index2, w, l, taken, r');
    }

    /** The triple indirect part of bmap. */
    method Triple(ip: Inode, index1: nat, index2: nat, index3: nat, ghost r: Roots)
        returns (a: Option<nat>, ghost taken: seq<nat>, ghost r': Roots)
      requires ip.inum < NINODES && r[ip.inum] == ip.addrs && Forest(disk, r) && held <= 2
      requires index1 < NINDIRECT && index2 < NINDIRECT && index3 < NINDIRECT
      requires Traced()
      modifies this`disk, this`logged, this`trace, this`held, ip`addrs
      ensures Traced()
      ensures held == old(held) && r' == r[ip.inum := ip.addrs]
      ensures a.None? ==> Missing(old(disk), r, Loc(ip.inum, NDIRECT + 2, [index1, index2, index3]), disk)
      ensures a.Some? ==>
              Reached(Start(old(disk), r, old(logged)), Loc(ip.inum, NDIRECT + 2, [index1, index2, index3]), a.value,
                      taken, disk, r', logged)
    {
      ghost var w, l := Start(disk, r, logged), Loc(ip.inum, NDIRECT + 2, []);
      PlacePath(ip.inum, NDIRECT + 2, index1, index2, index3);
      a, taken, r' := RootAt(ip, NDIRECT + 2, r);
      if a.None? {
        MissingChild(w.d, r, l, index1, disk);
        MissingChild(w.d, r, Loc(ip.inum, NDIRECT + 2, [index1]), index2, disk);
        MissingChild(w.d, r, Loc(ip.inum, NDIRECT + 2, [index1, index2]), index3, disk);
        return;
      }
      a, taken := LastThree(a.value, index1, index2, index3, w, l, taken, r');
    }

    /** bmap: the disk block of file block bn, allocated along with any missing index blocks on the way
        to it; None is a panic, for a block beyond MAXFILE or a full disk. */
    method Bmap(ip: Inode, bn: nat, ghost r: Roots) returns (a: Option<nat>, ghost taken: seq<nat>, ghost r': Roots)
      requires ip.inum < NINODES && r[ip.inum] == ip.addrs && Forest(disk, r) && held <= 2
      requires Traced()
      modifies this`disk, this`logged, this`trace, this`held, ip`addrs
      ensures Traced()
      ensures held == old(held) && r' == r[ip.inum := ip.addrs]
      ensures a.None? ==> bn >= MAXFILE || Missing(old(disk), r, Place(ip.inum, bn), disk)
      ensures a.Some? ==> bn < MAXFILE && Reached(Start(old(disk), r, old(logged)), Place(ip.inum, bn), a.value, taken,
                                                  disk, r', logged)
    {
      ghost var l := Loc(0, 0, []);
      if bn < MAXFILE { l := Place(ip.inum, bn); }
      var bn' := bn;
      if bn' < NDIRECT {
        assert l == Loc(ip.inum, bn', []);
        a, taken, r' := RootAt(ip, bn', r);
        return;
      }
      bn' := bn' - NDIRECT;
      if bn' < NINDIRECT {
        assert l == Loc(ip.inum, NDIRECT, [bn']);
        a, taken, r' := Single(ip, bn', r);
        return;
      }
      bn' := bn' - NINDIRECT;
      if bn' < NDOUINDIRECT {
        var index1, index2 := bn' / NINDIRECT, bn' % NINDIRECT;
        assert l == Loc(ip.inum, NDIRECT + 1, [index1, index2]);
        a, taken, r' := Double(ip, index1, index2, r);
        return;
      }
      bn' := bn' - NDOUINDIRECT;
      if bn' < NTRIINDIRECT {
        var index1, rest := bn' / NDOUINDIRECT, bn' % NDOUINDIRECT;
        var index2, index3 := rest / NINDIRECT, rest % NINDIRECT;
        assert l == Loc(ip.inum, NDIRECT + 2, [index1, index2, index3]);
        a, taken, r' := Triple(ip, index1, index2, index3, r);
        return;
      }
      return None, [], r;
    }

    /** The loops of itrunc over one index block q, of one, two or three levels: everything below q is
        freed, each block once and after what is below it. It never meets a free block. */
    method FreeBelow(q: nat, levels: nat, ghost d: Disk, ghost r: Roots, ghost l: Loc)
      requires Forest(d, r) && IsLoc(l) && 0 < levels == Depth(l.slot) - |l.path| && held + levels <= 3
      requires q == At(d, r, l) != 0 && SameBesidesMap(d, disk) && UsedBelow(d, r, l, disk)
      requires Traced()
      modifies this`disk, this`logged, this`trace, this`held
      ensures Traced()
      ensures held == old(held) && SameBesidesMap(d, disk) && FreedBelow(d, r, l, old(disk), disk)
      decreases levels, 0
    {
      ghost var g := Entries(l);
      var bp := Bread(q);
      var j := 0;
      FreedNone(d, r, g, disk);
      while j < NINDIRECT
        invariant Traced() && 0 <= j <= NINDIRECT && held == old(held) + 1
        invariant SameBesidesMap(d, disk) && FreedFirst(d, r, g, j, old(disk), disk)
      {
        ChildParent(l, j);
        var a := GetWord(bp, j);
        assert a == At(d, r, Nth(g, j));
        if a != 0 {
          UsedFromEntry(d, r, l, j, old(disk));
          FreeFrom(a, levels - 1, d, r, g, j, old(disk));
        } else {
          FreedAbsent(d, r, g, j, old(disk), disk);
        }
        j := j + 1;
      }
      FreedAll(d, r, l, old(disk), disk);
      Brelse();
    }

    /** One present place of a row: what is below its block, then the block. */
    method FreeFrom(a: nat, levels: nat, ghost d: Disk, ghost r: Roots, ghost g: Row, ghost j: nat, ghost d1: Disk)
      requires Forest(d, r) && IsLoc(Nth(g, j)) && levels == Depth(Nth(g, j).slot) - |Nth(g, j).path| &&
               held + levels <= 3
      requires a == At(d, r, Nth(g, j)) != 0 && SameBesidesMap(d, disk)
      requires FreedFirst(d, r, g, j, d1, disk) && UsedFrom(d, r, Nth(g, j), d1)
      requires Traced()
      modifies this`disk, this`logged, this`trace, this`held
      ensures Traced()
      ensures held == old(held) && SameBesidesMap(d, disk) && FreedFirst(d, r, g, j + 1, d1, disk)
      decreases levels, 1
    {
      ghost var d2, l := disk, Nth(g, j);
      StillUsed(d, r, g, j, d1, disk);
      NotBelowItself(d, r, l);
      if levels > 0 {
        FreeBelow(a, levels, d, r, l);
      } else {
        forall x: nat | x < FSSIZE ensures !KeptBelow(d, r, l, x) { LeafBelow(d, r, l, x); }
      }
      FreedPresent(d, r, g, j, d1, d2, disk);
      var ok := Bfree(a);
      assert ok;
    }

    /** iupdate: the inode's fields go to its record; the records beside it stay. */
    method Iupdate(ip: Inode)
      requires ip.inum < NINODES && Fits(ip.Copy()) && held <= 3
      requires Traced()
      modifies this`disk, this`logged, this`trace, this`held
      ensures Traced()
      ensures held == old(held) && logged == old(logged) + {IBlock(ip.inum)}
      ensures disk == StoreInode(old(disk), ip.inum, ip.Copy())
    {
      var bp := Bread(IBlock(ip.inum));
      LogWrite(IBlock(ip.inum), Store(bp, ip.inum % IPB, ip.Copy()));
      Brelse();
    }

    /** One address of itrunc: free what it leads to and clear it. */
    method FreeAddr(ip: Inode, slot: nat, ghost d: Disk, ghost r: Roots)
      requires ip.inum < NINODES && slot < |ip.addrs| == NADDRS && Forest(d, r) && held == 0
      requires ip.addrs[slot] == r[ip.inum][slot] && SameBesidesMap(d, disk)
      requires FreedFirst(d, r, Addrs(ip.inum), slot, d, disk)
      requires Traced()
      modifies this`disk, this`logged, this`trace, this`held, ip`addrs
      ensures Traced()
      ensures held == 0 && ip.addrs == old(ip.addrs)[slot := 0] && SameBesidesMap(d, disk)
      ensures FreedFirst(d, r, Addrs(ip.inum), slot + 1, d, disk)
    {
      ghost var g := Addrs(ip.inum);
      var a := ip.addrs[slot];
      assert a == At(d, r, Nth(g, slot));
      if a != 0 {
        UsedFromForest(d, r, Nth(g, slot));
        FreeFrom(a, if slot < NDIRECT then 0 else slot - NDIRECT + 1, d, r, g, slot, d);
        ip.addrs := ip.addrs[slot := 0];
      } else {
        FreedAbsent(d, r, g, slot, d, disk);
      }
    }

    /** itrunc: exactly the blocks of the inode are freed, at all four shapes, and the empty inode is
        written to its record. */
    method Itrunc(ip: Inode, ghost r: Roots)
      requires ip.inum < NINODES && r[ip.inum] == ip.addrs && Forest(disk, r) && Fits(ip.Copy()) && held == 0
      requires Traced()
      modifies this`disk, this`logged, this`trace, this`held, ip`addrs, ip`size
      ensures Traced()
      ensures held == 0 && ip.size == 0 && ip.addrs == seq(NADDRS, _ => 0)
      ensures FreedBy(old(disk), r, ip.inum, old(disk), disk)
      ensures Forest(disk, r[ip.inum := ip.addrs])
      ensures forall m :: IsLoc(m) ==>
                At(disk, r[ip.inum := ip.addrs], m) == if m.inum == ip.inum then 0 else At(old(disk), r, m)
      ensures forall j: nat :: j < NINODES ==>
              DinodeAt(disk, j) == if j == ip.inum then ip.Copy() else DinodeAt(old(disk), j)
      ensures forall b: nat :: b < FSSIZE && !InMap(b) && b != IBlock(ip.inum) ==> disk[b] == old(disk)[b]
    {
      ghost var d := disk;
      FreedNone(d, r, Addrs(ip.inum), d);
      var i := 0;
      while i < NDIRECT
        invariant Traced() && 0 <= i <= NDIRECT && held == 0 && |ip.addrs| == NADDRS && SameBesidesMap(d, disk)
        invariant FreedFirst(d, r, Addrs(ip.inum), i, d, disk)
        invariant forall s :: 0 <= s < NADDRS ==> ip.addrs[s] == if s < i then 0 else r[ip.inum][s]
      {
        FreeAddr(ip, i, d, r);
        i := i + 1;
      }
      FreeAddr(ip, NDIRECT, d, r);
      FreeAddr(ip, NDIRECT + 1, d, r);
      FreeAddr(ip, NDIRECT + 2, d, r);
      ip.size := 0;
      FreedInode(d, r, ip.inum, d, disk);
      assert ip.addrs == seq(NADDRS, _ => 0);
      ghost var r': Roots := r[ip.inum := ip.addrs];
      ghost var b := IBlock(ip.inum);
      TruncatedStored(d, r, ip.inum, disk, r', b, Store(disk[b], ip.inum % IPB, ip.Copy()));
      TruncatedRecords(d, disk, ip.inum, ip.Copy());
      Iupdate(ip);
    }
  }
}
