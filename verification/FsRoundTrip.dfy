/** Mapping blocks of an empty file and truncating it again. */
module FsRoundTrip {
  import opened FsTree
  import opened FsFree
  import opened FsInode
  import opened Fs

  /** bmap's allocations are kept by the inode, and nothing else it keeps is new. */
  lemma GrownKept(d: Disk, r: Roots, l: Loc, taken: seq<nat>, d': Disk, r': Roots, c: nat)
    requires Forest(d, r) && Grown(d, r, l, taken, d', r') && c != 0
    ensures KeptBy(d', r', l.inum, c) <==> KeptBy(d, r, l.inum, c) || c in taken
  {
    if KeptBy(d, r, l.inum, c) {
      var m :| IsLoc(m) && m.inum == l.inum && At(d, r, m) == c;
      assert At(d', r', m) == c;
    }
    if c in taken {
      var m :| IsLoc(m) && IsPrefix(m, l) && At(d', r', m) == c;
      assert m.inum == l.inum;
    }
  }

  /** The blocks in use are those of d and, besides, those of the inode. */
  ghost predicate Grew(d: Disk, inum: nat, d': Disk, r': Roots) {
    forall c: nat :: 0 < c < FSSIZE ==>
      (IsUsed(d', c) <==> IsUsed(d, c) || KeptBy(d', r', inum, c)) && (KeptBy(d', r', inum, c) ==> !IsUsed(d, c))
  }

  lemma EmptyGrew(d: Disk, r: Roots, inum: nat)
    requires inum < NINODES && r[inum] == seq(NADDRS, _ => 0)
    ensures Grew(d, inum, d, r)
  {
    forall c: nat | 0 < c < FSSIZE ensures !KeptBy(d, r, inum, c) {
      if m :| IsLoc(m) && m.inum == inum && At(d, r, m) == c {
        assert IsPrefix(Loc(inum, m.slot, []), m);
        NothingBelowZero(d, r, Loc(inum, m.slot, []), m);
      }
    }
  }

  lemma GrewMore(d: Disk, d1: Disk, r1: Roots, l: Loc, taken: seq<nat>, d': Disk, r': Roots)
    requires Forest(d1, r1) && Grew(d, l.inum, d1, r1) && Grown(d1, r1, l, taken, d', r')
    ensures Grew(d, l.inum, d', r')
  {
    forall c: nat | 0 < c < FSSIZE
      ensures (IsUsed(d', c) <==> IsUsed(d, c) || KeptBy(d', r', l.inum, c)) &&
                                  (KeptBy(d', r', l.inum, c) ==> !IsUsed(d, c))
    {
      GrownKept(d1, r1, l, taken, d', r', c);
    }
  }

  /** Any sequence of bmap calls. */
  method MapAll(fs: FileSys, ip: Inode, bns: seq<nat>, ghost r: Roots) returns (ok: bool, ghost r': Roots)
    requires ip.inum < NINODES && r[ip.inum] == ip.addrs == seq(NADDRS, _ => 0)
    requires Forest(fs.disk, r) && fs.held == 0
    requires fs.Traced()
    modifies fs`disk, fs`logged, fs`trace, fs`held, ip`addrs
    ensures fs.Traced()
    ensures !ok ==> Full(fs.disk) || exists i :: 0 <= i < |bns| && bns[i] >= MAXFILE
    ensures ok ==> fs.held == 0 && r' == r[ip.inum := ip.addrs]
    ensures ok ==> Forest(fs.disk, r') && Grew(old(fs.disk), ip.inum, fs.disk, r')
  {
    ghost var d := fs.disk;
    r' := r;
    EmptyGrew(d, r, ip.inum);
    var i := 0;
    while i < |bns|
      invariant fs.Traced() && 0 <= i <= |bns| && fs.held == 0 && r' == r[ip.inum := ip.addrs]
      invariant Forest(fs.disk, r') && Grew(d, ip.inum, fs.disk, r')
    {
      ghost var d1, r1 := fs.disk, r';
      var a, taken, r2 := fs.Bmap(ip, bns[i], r1);
      if a.None? { return false, r1; }
      r' := r2;
      GrewMore(d, d1, r1, Place(ip.inum, bns[i]), taken, fs.disk, r');
      i := i + 1;
    }
    ok := true;
  }

  /** ... on an empty inode, then itrunc: the free map is as before. */
  method MapAndTruncate(fs: FileSys, ip: Inode, bns: seq<nat>, ghost r: Roots) returns (ok: bool)
    requires ip.inum < NINODES && r[ip.inum] == ip.addrs == seq(NADDRS, _ => 0)
    requires Forest(fs.disk, r) && Fits(ip.Copy()) && fs.held == 0
    requires fs.Traced()
    modifies fs`disk, fs`logged, fs`trace, fs`held, ip`addrs, ip`size
    ensures fs.Traced()
    ensures !ok ==> Full(fs.disk) || exists i :: 0 <= i < |bns| && bns[i] >= MAXFILE
    ensures ok ==> forall c: nat :: c < FSSIZE ==> (IsUsed(fs.disk, c) <==> IsUsed(old(fs.disk), c))
    ensures ok ==> ip.addrs == old(ip.addrs) && ip.size == 0
  {
    ghost var r';
    ok, r' := MapAll(fs, ip, bns, r);
    if !ok { return; }
    AddrsFit(fs.disk, r', ip.inum);
    assert r'[ip.inum] == ip.addrs;
    fs.Itrunc(ip, r');
  }
}
