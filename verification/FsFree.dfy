/** What truncation frees: everything kept at or below a place. */
module FsFree {
  import opened Blocks
  import opened FsTree

  /** Places side by side: the entries of an index block, or the addresses of an inode. */
  datatype Row = Entries(l: Loc) | Addrs(inum: nat)

  function Nth(g: Row, i: nat): Loc {
    match g
    case Entries(l) => Child(l, i)
    case Addrs(inum) => Loc(inum, i, [])
  }

  /** Block b is kept at place l or further down. */
  ghost predicate KeptFrom(d: Disk, r: Roots, l: Loc, b: nat) {
    exists m :: IsLoc(m) && IsPrefix(l, m) && At(d, r, m) == b
  }

  /** Block b is kept strictly below place l. */
  ghost predicate KeptBelow(d: Disk, r: Roots, l: Loc, b: nat) {
    exists m :: IsLoc(m) && IsPrefix(l, m) && m != l && At(d, r, m) == b
  }

  /** Block b is kept by an inode. */
  ghost predicate KeptBy(d: Disk, r: Roots, inum: nat, b: nat) {
    exists m :: IsLoc(m) && m.inum == inum && At(d, r, m) == b
  }

  /** Block b is kept from one of the first j places of a row on. */
  ghost predicate KeptInFirst(d: Disk, r: Roots, g: Row, j: nat, b: nat) {
    exists i: nat :: i < j && KeptFrom(d, r, Nth(g, i), b)
  }

  /** Places below two different places of a row are different. */
  lemma RowsApart(g: Row, i: nat, j: nat, m: Loc)
    requires IsPrefix(Nth(g, i), m) && IsPrefix(Nth(g, j), m)
    ensures i == j
  {
    if g.Entries? {
      assert m.path[|g.l.path|] == i && m.path[|g.l.path|] == j;
    }
  }

  lemma FromAbsent(d: Disk, r: Roots, l: Loc, b: nat)
    requires IsLoc(l) && At(d, r, l) == 0 && b != 0
    ensures !KeptFrom(d, r, l, b)
  {
    if m :| IsLoc(m) && IsPrefix(l, m) && At(d, r, m) == b {
      NothingBelowZero(d, r, l, m);
    }
  }

  lemma FromSplit(d: Disk, r: Roots, l: Loc, b: nat)
    requires IsLoc(l)
    ensures KeptFrom(d, r, l, b) <==> At(d, r, l) == b || KeptBelow(d, r, l, b)
  {
    assert IsPrefix(l, l);
  }

  lemma BelowSplit(d: Disk, r: Roots, l: Loc, b: nat)
    requires IsLoc(l)
    ensures KeptBelow(d, r, l, b) <==> KeptInFirst(d, r, Entries(l), NINDIRECT, b)
  {
    if KeptBelow(d, r, l, b) {
      var m :| IsLoc(m) && IsPrefix(l, m) && m != l && At(d, r, m) == b;
      var i := m.path[|l.path|];
      assert l.path + [i] <= m.path;
      assert IsPrefix(Nth(Entries(l), i), m);
      assert KeptFrom(d, r, Nth(Entries(l), i), b);
    }
    if KeptInFirst(d, r, Entries(l), NINDIRECT, b) {
      var i: nat :| i < NINDIRECT && KeptFrom(d, r, Nth(Entries(l), i), b);
      var m :| IsLoc(m) && IsPrefix(Nth(Entries(l), i), m) && At(d, r, m) == b;
      assert IsPrefix(l, m) && m != l;
    }
  }

  lemma BySplit(d: Disk, r: Roots, inum: nat, b: nat)
    ensures KeptBy(d, r, inum, b) <==> KeptInFirst(d, r, Addrs(inum), NADDRS, b)
  {
    if KeptBy(d, r, inum, b) {
      var m :| IsLoc(m) && m.inum == inum && At(d, r, m) == b;
      assert IsPrefix(Nth(Addrs(inum), m.slot), m);
      assert KeptFrom(d, r, Nth(Addrs(inum), m.slot), b);
    }
  }

  /** A leaf has nothing below it. */
  lemma LeafBelow(d: Disk, r: Roots, l: Loc, b: nat)
    requires IsLeaf(l)
    ensures !KeptBelow(d, r, l, b)
  {
    forall m | IsLoc(m) && IsPrefix(l, m) ensures m == l {
      assert |m.path| == |l.path|;
    }
  }

  ghost predicate InMap(b: nat) { BMAPSTART <= b < NMETA }

  /** Only the free map has changed. */
  ghost predicate SameBesidesMap(d: Disk, d': Disk) {
    forall b: nat :: b < FSSIZE && !InMap(b) ==> d'[b] == d[b]
  }

  // ---- the free map as a row is worked off; d and r are the forest at the outset ----

  /** From d1 on, everything kept from the first j places of a row on was freed. */
  ghost predicate FreedFirst(d: Disk, r: Roots, g: Row, j: nat, d1: Disk, d': Disk) {
    forall c: nat :: c < FSSIZE ==> (IsUsed(d', c) <==> IsUsed(d1, c) && !(c != 0 && KeptInFirst(d, r, g, j, c)))
  }

  ghost predicate FreedBelow(d: Disk, r: Roots, l: Loc, d1: Disk, d': Disk) {
    forall c: nat :: c < FSSIZE ==> (IsUsed(d', c) <==> IsUsed(d1, c) && !(c != 0 && KeptBelow(d, r, l, c)))
  }

  ghost predicate FreedBy(d: Disk, r: Roots, inum: nat, d1: Disk, d': Disk) {
    forall c: nat :: c < FSSIZE ==> (IsUsed(d', c) <==> IsUsed(d1, c) && !(c != 0 && KeptBy(d, r, inum, c)))
  }

  lemma FreedNone(d: Disk, r: Roots, g: Row, d1: Disk)
    ensures FreedFirst(d, r, g, 0, d1, d1)
  {
  }

  lemma FreedAll(d: Disk, r: Roots, l: Loc, d1: Disk, d': Disk)
    requires IsLoc(l) && FreedFirst(d, r, Entries(l), NINDIRECT, d1, d')
    ensures FreedBelow(d, r, l, d1, d')
  {
    forall c: nat | 0 < c < FSSIZE ensures KeptBelow(d, r, l, c) <==> KeptInFirst(d, r, Entries(l), NINDIRECT, c) {
      BelowSplit(d, r, l, c);
    }
  }

  lemma FreedInode(d: Disk, r: Roots, inum: nat, d1: Disk, d': Disk)
    requires FreedFirst(d, r, Addrs(inum), NADDRS, d1, d')
    ensures FreedBy(d, r, inum, d1, d')
  {
    forall c: nat | 0 < c < FSSIZE ensures KeptBy(d, r, inum, c) <==> KeptInFirst(d, r, Addrs(inum), NADDRS, c) {
      BySplit(d, r, inum, c);
    }
  }

  /** An absent place frees nothing. */
  lemma FreedAbsent(d: Disk, r: Roots, g: Row, j: nat, d1: Disk, d': Disk)
    requires IsLoc(Nth(g, j)) && At(d, r, Nth(g, j)) == 0 && FreedFirst(d, r, g, j, d1, d')
    ensures FreedFirst(d, r, g, j + 1, d1, d')
  {
    forall c: nat | 0 < c < FSSIZE ensures KeptInFirst(d, r, g, j + 1, c) <==> KeptInFirst(d, r, g, j, c) {
      FromAbsent(d, r, Nth(g, j), c);
    }
  }

  /** A present one is freed by freeing what is below it and then its own block. */
  lemma FreedPresent(d: Disk, r: Roots, g: Row, j: nat, d1: Disk, d2: Disk, d3: Disk)
    requires Forest(d, r) && IsLoc(Nth(g, j)) && At(d, r, Nth(g, j)) != 0
    requires FreedFirst(d, r, g, j, d1, d2) && FreedBelow(d, r, Nth(g, j), d2, d3)
    requires IsUsed(d3, At(d, r, Nth(g, j)))
    ensures FreedFirst(d, r, g, j + 1, d1, FlipUsed(d3, At(d, r, Nth(g, j))))
  {
    var b := At(d, r, Nth(g, j));
    FlipUsedOnly(d3, b);
    forall c: nat | 0 < c < FSSIZE
      ensures KeptInFirst(d, r, g, j + 1, c) <==> KeptInFirst(d, r, g, j, c) || c == b || KeptBelow(d, r, Nth(g, j), c)
    {
      FromSplit(d, r, Nth(g, j), c);
    }
  }

  /** Nothing kept from place j of a row on is kept from an earlier place on. */
  lemma Apart(d: Disk, r: Roots, g: Row, j: nat, b: nat)
    requires Forest(d, r) && b != 0 && KeptFrom(d, r, Nth(g, j), b)
    ensures !KeptInFirst(d, r, g, j, b)
  {
    var m :| IsLoc(m) && IsPrefix(Nth(g, j), m) && At(d, r, m) == b;
    forall i: nat | i < j ensures !KeptFrom(d, r, Nth(g, i), b) {
      if k :| IsLoc(k) && IsPrefix(Nth(g, i), k) && At(d, r, k) == b {
        RowsApart(g, i, j, k);
      }
    }
  }

  /** So it is still in use when its turn comes. */
  lemma StillUsed(d: Disk, r: Roots, g: Row, j: nat, d1: Disk, d2: Disk)
    requires Forest(d, r) && IsLoc(Nth(g, j)) && At(d, r, Nth(g, j)) != 0 && FreedFirst(d, r, g, j, d1, d2)
    requires forall c: nat :: 0 < c < FSSIZE && KeptFrom(d, r, Nth(g, j), c) ==> IsUsed(d1, c)
    ensures forall c: nat :: 0 < c < FSSIZE && KeptFrom(d, r, Nth(g, j), c) ==> IsUsed(d2, c)
  {
    forall c: nat | 0 < c < FSSIZE && KeptFrom(d, r, Nth(g, j), c) ensures IsUsed(d2, c) {
      Apart(d, r, g, j, c);
    }
  }

  /** A block is not kept below its own place. */
  lemma NotBelowItself(d: Disk, r: Roots, l: Loc)
    requires Forest(d, r) && IsLoc(l) && At(d, r, l) != 0
    ensures !KeptBelow(d, r, l, At(d, r, l)) && KeptFrom(d, r, l, At(d, r, l))
  {
    assert IsPrefix(l, l);
  }

  ghost predicate UsedBelow(d: Disk, r: Roots, l: Loc, d1: Disk) {
    forall c: nat :: 0 < c < FSSIZE && KeptBelow(d, r, l, c) ==> IsUsed(d1, c)
  }

  ghost predicate UsedFrom(d: Disk, r: Roots, l: Loc, d1: Disk) {
    forall c: nat :: 0 < c < FSSIZE && KeptFrom(d, r, l, c) ==> IsUsed(d1, c)
  }

  lemma UsedFromEntry(d: Disk, r: Roots, l: Loc, j: nat, d1: Disk)
    requires UsedBelow(d, r, l, d1)
    ensures UsedFrom(d, r, Nth(Entries(l), j), d1)
  {
    forall c: nat | 0 < c < FSSIZE && KeptFrom(d, r, Nth(Entries(l), j), c) ensures IsUsed(d1, c) {
      var m :| IsLoc(m) && IsPrefix(Nth(Entries(l), j), m) && At(d, r, m) == c;
      assert IsPrefix(l, m) && m != l;
    }
  }

  lemma UsedFromForest(d: Disk, r: Roots, l: Loc)
    requires Forest(d, r)
    ensures UsedFrom(d, r, l, d)
  {
  }

  // ---- after truncation ----

  lemma {:induction false} TruncatedAt(d: Disk, r: Roots, inum: nat, d': Disk, r': Roots, m: Loc)
    requires Forest(d, r) && inum < NINODES && SameBesidesMap(d, d') && IsLoc(m)
    requires forall j :: 0 <= j < NINODES && j != inum ==> r'[j] == r[j]
    requires forall s :: 0 <= s < NADDRS ==> r'[inum][s] == 0
    ensures At(d', r', m) == if m.inum == inum then 0 else At(d, r, m)
    decreases |m.path|
  {
    if m.path != [] {
      TruncatedAt(d, r, inum, d', r', Parent(m));
    }
  }

  lemma Truncated(d: Disk, r: Roots, inum: nat, d': Disk, r': Roots)
    requires Forest(d, r) && inum < NINODES && SameBesidesMap(d, d') && FreedBy(d, r, inum, d, d')
    requires forall j :: 0 <= j < NINODES && j != inum ==> r'[j] == r[j]
    requires forall s :: 0 <= s < NADDRS ==> r'[inum][s] == 0
    ensures Forest(d', r')
    ensures forall m :: IsLoc(m) ==> At(d', r', m) == if m.inum == inum then 0 else At(d, r, m)
  {
    forall m | IsLoc(m) ensures At(d', r', m) == if m.inum == inum then 0 else At(d, r, m) {
      TruncatedAt(d, r, inum, d', r', m);
    }
  }

  /** The inode record written last is no part of the forest. */
  lemma TruncatedStored(d: Disk, r: Roots, inum: nat, d': Disk, r': Roots, b: nat, data: Block)
    requires Forest(d, r) && inum < NINODES && SameBesidesMap(d, d') && FreedBy(d, r, inum, d, d') && b < BMAPSTART
    requires forall j :: 0 <= j < NINODES && j != inum ==> r'[j] == r[j]
    requires forall s :: 0 <= s < NADDRS ==> r'[inum][s] == 0
    ensures Forest(d'[b := data], r') && FreedBy(d, r, inum, d, d'[b := data])
    ensures forall m :: IsLoc(m) ==> At(d'[b := data], r', m) == if m.inum == inum then 0 else At(d, r, m)
  {
    Truncated(d, r, inum, d', r');
    ForestFrame(d', d'[b := data], r');
    UsedFrame(d', d'[b := data]);
  }
}
