/** The forest of index trees that fs.c keeps on disk: thirteen roots per inode, of which ten point at
    data blocks and three at index blocks one, two and three levels deep. */
module FsTree {
  import opened Blocks
  import opened Bitmap

  const NDIRECT: nat := 10
  const NINDIRECT: nat := 128
  const NDOUINDIRECT: nat := 16384
  const NTRIINDIRECT: nat := 2097152
  const MAXFILE: nat := NDIRECT + NINDIRECT + NDOUINDIRECT + NTRIINDIRECT
  const NADDRS: nat := 13

  // the disk layout that mkfs writes
  const FSSIZE: nat := 40000
  const NINODES: nat := 200
  const IPB: nat := 8
  const INODESTART: nat := 32
  const BMAPSTART: nat := 58
  const NMETA: nat := 68       // first block that holds data

  type Disk = d: seq<Block> | |d| == FSSIZE witness seq<Block>(FSSIZE, _ => ZeroBlock())

  /** The block addresses of every inode. */
  type Roots = r: seq<seq<nat>> | |r| == NINODES && forall j :: 0 <= j < NINODES ==> |r[j]| == NADDRS
    witness seq<seq<nat>>(NINODES, _ => seq<nat>(NADDRS, _ => 0))

  /** A place in the forest: an inode, one of its addresses, and the way down from there. */
  datatype Loc = Loc(inum: nat, slot: nat, path: seq<nat>)

  function Depth(slot: nat): nat { if slot < NDIRECT then 0 else slot - NDIRECT + 1 }

  ghost predicate IsLoc(l: Loc) {
    && l.inum < NINODES && l.slot < NADDRS && |l.path| <= Depth(l.slot)
    && forall k :: 0 <= k < |l.path| ==> l.path[k] < NINDIRECT
  }

  /** A data block's place. */
  ghost predicate IsLeaf(l: Loc) { IsLoc(l) && |l.path| == Depth(l.slot) }

  function Parent(l: Loc): Loc
    requires l.path != []
  {
    l.(path := l.path[..|l.path| - 1])
  }

  function Last(l: Loc): nat
    requires l.path != []
  {
    l.path[|l.path| - 1]
  }

  function Child(l: Loc, i: nat): Loc { l.(path := l.path + [i]) }

  ghost predicate IsPrefix(l: Loc, m: Loc) { l.inum == m.inum && l.slot == m.slot && l.path <= m.path }

  lemma ParentChild(l: Loc)
    requires l.path != []
    ensures l == Child(Parent(l), Last(l))
  {
  }

  lemma ParentPrefix(l: Loc)
    requires IsLoc(l) && l.path != []
    ensures forall m :: IsPrefix(m, Parent(l)) ==> IsPrefix(m, l)
    ensures !IsPrefix(l, Parent(l)) && IsPrefix(l, l) && !IsLeaf(Parent(l))
  {
  }

  /** The i-th address in index block q, where 0 means absent. */
  function Entry(d: Disk, q: nat, i: nat): nat
    requires i < NINDIRECT
  {
    if q == 0 || q >= FSSIZE then 0 else GetWord(d[q], i)
  }

  /** The block number kept at a place, 0 if there is none. */
  ghost function At(d: Disk, r: Roots, l: Loc): nat
    requires IsLoc(l)
    decreases |l.path|
  {
    if l.path == [] then r[l.inum][l.slot] else Entry(d, At(d, r, Parent(l)), Last(l))
  }

  // ---- the free map ----

  function BBlock(b: nat): nat { b / BPB + BMAPSTART }

  predicate IsUsed(d: Disk, b: nat)
    requires b < FSSIZE
  {
    GetBit(d[BBlock(b)], b % BPB)
  }

  /** The disk with the bit of block b changed. */
  function FlipUsed(d: Disk, b: nat): Disk
    requires b < FSSIZE
  {
    d[BBlock(b) := FlipBit(d[BBlock(b)], b % BPB)]
  }

  lemma FlipUsedOnly(d: Disk, b: nat)
    requires b < FSSIZE
    ensures forall c: nat :: c < FSSIZE ==> (IsUsed(FlipUsed(d, b), c) <==> IsUsed(d, c) != (c == b))
  {
    FlipBitOnly(d[BBlock(b)], b % BPB);
  }

  /** Data blocks are no part of the free map. */
  lemma UsedFrame(d: Disk, d': Disk)
    requires forall b :: BMAPSTART <= b < NMETA ==> d'[b] == d[b]
    ensures forall c: nat :: c < FSSIZE ==> (IsUsed(d', c) <==> IsUsed(d, c))
  {
  }

  // ---- well-formedness ----

  /** No block is kept at two places; every block kept is a data-area block in use; and so are
      all blocks below the data area. */
  ghost predicate Forest(d: Disk, r: Roots) {
    && (forall b: nat :: b < NMETA ==> IsUsed(d, b))
    && (forall l :: IsLoc(l) && At(d, r, l) != 0 ==> NMETA <= At(d, r, l) < FSSIZE && IsUsed(d, At(d, r, l)))
    && (forall l, m :: IsLoc(l) && IsLoc(m) && At(d, r, l) != 0 && At(d, r, l) == At(d, r, m) ==> l == m)
  }

  lemma AddrsFit(d: Disk, r: Roots, inum: nat)
    requires Forest(d, r) && inum < NINODES
    ensures forall s :: 0 <= s < NADDRS ==> r[inum][s] < UINT
  {
    forall s | 0 <= s < NADDRS ensures r[inum][s] < UINT {
      assert At(d, r, Loc(inum, s, [])) == r[inum][s];
    }
  }

  /** A block kept at no place. */
  ghost predicate Unkept(d: Disk, r: Roots, b: nat) {
    forall l :: IsLoc(l) ==> At(d, r, l) != b
  }

  /** Contents of blocks other than index blocks do not matter to the forest. */
  lemma {:induction false} AtFrame(d: Disk, d': Disk, r: Roots, l: Loc)
    requires IsLoc(l)
    requires forall m :: IsLoc(m) && !IsLeaf(m) && At(d, r, m) != 0 && At(d, r, m) < FSSIZE ==>
               d'[At(d, r, m)] == d[At(d, r, m)]
    ensures At(d', r, l) == At(d, r, l)
    decreases |l.path|
  {
    if l.path != [] {
      AtFrame(d, d', r, Parent(l));
    }
  }

  /** The blocks whose contents decide where everything is. */
  ghost predicate SameIndex(d: Disk, d': Disk, r: Roots) {
    forall m :: IsLoc(m) && !IsLeaf(m) && At(d, r, m) != 0 && At(d, r, m) < FSSIZE ==>
      d'[At(d, r, m)] == d[At(d, r, m)]
  }

  lemma ForestFrame(d: Disk, d': Disk, r: Roots)
    requires Forest(d, r) && SameIndex(d, d', r)
    requires forall b :: BMAPSTART <= b < NMETA ==> d'[b] == d[b]
    ensures Forest(d', r) && forall l :: IsLoc(l) ==> At(d', r, l) == At(d, r, l)
  {
    UsedFrame(d, d');
    forall l | IsLoc(l) ensures At(d', r, l) == At(d, r, l) { AtFrame(d, d', r, l); }
  }

  // ---- one more block ----

  /** After a free block b was taken and zeroed and its number stored at the empty place l. */
  ghost predicate Linked(d: Disk, r: Roots, l: Loc, b: nat, d': Disk, r': Roots) {
    && IsLoc(l) && 0 < b < FSSIZE
    && At(d, r, l) == 0 && (l.path != [] ==> 0 < At(d, r, Parent(l)) < FSSIZE)
    && d'[b] == ZeroBlock()
    && (forall j, s :: 0 <= j < NINODES && 0 <= s < NADDRS ==>
          r'[j][s] == if l == Loc(j, s, []) then b else r[j][s])
    && (l.path != [] ==> var q := At(d, r, Parent(l)); d'[q] == PutWord(d[q], Last(l), b))
    && (forall q :: NMETA <= q < FSSIZE && q != b && !(l.path != [] && q == At(d, r, Parent(l))) ==> d'[q] == d[q])
  }

  /** The i-th address of a block under Linked. */
  lemma LinkedEntry(d: Disk, r: Roots, l: Loc, b: nat, d': Disk, r': Roots, q: nat, i: nat)
    requires Linked(d, r, l, b, d', r') && NMETA <= q < FSSIZE && i < NINDIRECT
    requires b != q
    ensures Entry(d', q, i) ==
            if l.path != [] && q == At(d, r, Parent(l)) && i == Last(l) then b else Entry(d, q, i)
    ensures Entry(d', b, i) == 0
  {
    ZeroWords();
    if l.path != [] && q == At(d, r, Parent(l)) { GetPutWord(d[q], Last(l), b); }
  }

  /** A block is kept at one place only. */
  lemma OnePlace(d: Disk, r: Roots, l: Loc, m: Loc)
    requires Forest(d, r) && IsLoc(l) && IsLoc(m) && At(d, r, l) == At(d, r, m) != 0
    ensures l == m
  {
  }

  lemma {:induction false} LinkedAt(d: Disk, r: Roots, l: Loc, b: nat, d': Disk, r': Roots, m: Loc)
    requires Forest(d, r) && Linked(d, r, l, b, d', r') && Unkept(d, r, b) && IsLoc(m)
    ensures At(d', r', m) == if m == l then b else At(d, r, m)
    decreases |m.path|
  {
    if m.path == [] {
      assert m == Loc(m.inum, m.slot, []);
    } else {
      var p := Parent(m);
      LinkedAt(d, r, l, b, d', r', p);
      if p == l {
        ZeroWords();
      } else {
        LinkedStep(d, r, l, b, d', r', m);
      }
    }
  }

  /** An entry of a block that was there. */
  lemma LinkedStep(d: Disk, r: Roots, l: Loc, b: nat, d': Disk, r': Roots, m: Loc)
    requires Forest(d, r) && Linked(d, r, l, b, d', r') && Unkept(d, r, b) && IsLoc(m) && m.path != []
    ensures Entry(d', At(d, r, Parent(m)), Last(m)) == if m == l then b else At(d, r, m)
  {
    var p := Parent(m);
    ParentChild(m);
    if l.path != [] {
      ParentChild(l);
      if At(d, r, p) == At(d, r, Parent(l)) { OnePlace(d, r, p, Parent(l)); }
    }
    if At(d, r, p) != 0 {
      LinkedEntry(d, r, l, b, d', r', At(d, r, p), Last(m));
    }
  }

  /** Linked, with the free map to match. */
  ghost predicate Took(d: Disk, r: Roots, l: Loc, b: nat, d': Disk, r': Roots) {
    && Linked(d, r, l, b, d', r') && !IsUsed(d, b)
    && (forall c: nat :: c < FSSIZE ==> (IsUsed(d', c) <==> IsUsed(d, c) || c == b))
    && (forall q :: 0 <= q < BMAPSTART ==> d'[q] == d[q])
  }

  lemma TookForest(d: Disk, r: Roots, l: Loc, b: nat, d': Disk, r': Roots)
    requires Forest(d, r) && Took(d, r, l, b, d', r')
    ensures Forest(d', r') && NMETA <= b
    ensures forall m :: IsLoc(m) ==> At(d', r', m) == if m == l then b else At(d, r, m)
  {
    assert Unkept(d, r, b);
    forall m | IsLoc(m) ensures At(d', r', m) == if m == l then b else At(d, r, m) {
      LinkedAt(d, r, l, b, d', r', m);
    }
  }

  // ---- growing the way to one place ----

  /** All blocks on the way to place l are there now; `taken` lists the ones taken, in order. Nothing
      kept before has moved or changed, and nothing off the way to l is new. */
  ghost predicate Grown(d: Disk, r: Roots, l: Loc, taken: seq<nat>, d': Disk, r': Roots) {
    && Forest(d', r') && IsLoc(l) && At(d', r', l) != 0
    && (forall m :: IsLoc(m) ==>
          At(d', r', m) == At(d, r, m) || (At(d, r, m) == 0 && IsPrefix(m, l) && At(d', r', m) in taken))
    && (forall c: nat :: c < FSSIZE ==> (IsUsed(d', c) <==> IsUsed(d, c) || c in taken))
    && (forall b: nat :: b in taken ==>
          b < FSSIZE && !IsUsed(d, b) && exists m :: IsLoc(m) && IsPrefix(m, l) && At(d', r', m) == b)
    && (forall j :: 0 <= j < NINODES && j != l.inum ==> r'[j] == r[j])
    && (forall q :: 0 <= q < BMAPSTART ==> d'[q] == d[q])
    && (forall m :: IsLeaf(m) && At(d, r, m) != 0 ==> d'[At(d, r, m)] == d[At(d, r, m)])
    && (At(d, r, l) == 0 && IsLeaf(l) ==> d'[At(d', r', l)] == ZeroBlock())
    && |taken| <= |l.path| + 1
    && (taken == [] ==> d' == d && r' == r)
    && (At(d, r, l) != 0 ==> taken == [])
  }

  lemma GrownAlready(d: Disk, r: Roots, l: Loc)
    requires Forest(d, r) && IsLoc(l) && At(d, r, l) != 0
    ensures Grown(d, r, l, [], d, r)
  {
  }

  lemma GrownRoot(d: Disk, r: Roots, l: Loc, b: nat, d': Disk, r': Roots)
    requires Forest(d, r) && l.path == [] && Took(d, r, l, b, d', r')
    ensures Grown(d, r, l, [b], d', r')
  {
    TookForest(d, r, l, b, d', r');
    assert IsPrefix(l, l);
  }

  /** The next place on the way is there already. */
  lemma GrownPresent(d: Disk, r: Roots, l: Loc, taken: seq<nat>, d': Disk, r': Roots)
    requires Forest(d, r) && IsLoc(l) && l.path != [] && Grown(d, r, Parent(l), taken, d', r') && At(d', r', l) != 0
    ensures Grown(d, r, l, taken, d', r')
  {
    ParentPrefix(l);
  }

  /** ... or had to be taken. */
  lemma GrownTook(d: Disk, r: Roots, l: Loc, taken: seq<nat>, d1: Disk, r1: Roots, b: nat, d': Disk, r': Roots)
    requires Forest(d, r) && IsLoc(l) && l.path != [] && Grown(d, r, Parent(l), taken, d1, r1)
    requires Took(d1, r1, l, b, d', r')
    ensures Grown(d, r, l, taken + [b], d', r')
  {
    TookForest(d1, r1, l, b, d', r');
    ParentPrefix(l);
    forall x: nat | x in taken + [b]
      ensures x < FSSIZE && !IsUsed(d, x) && exists m :: IsLoc(m) && IsPrefix(m, l) && At(d', r', m) == x
    {
      TakenKept(d, r, l, taken, d1, r1, b, d', r', x);
    }
    forall m | IsLeaf(m) && At(d, r, m) != 0 ensures d'[At(d, r, m)] == d[At(d, r, m)] {
      DataStays(d, r, l, taken, d1, r1, b, d', r', m);
    }
  }

  lemma TakenKept(d: Disk, r: Roots, l: Loc, taken: seq<nat>, d1: Disk, r1: Roots, b: nat, d': Disk, r': Roots, x: nat)
    requires Forest(d, r) && IsLoc(l) && l.path != [] && Grown(d, r, Parent(l), taken, d1, r1)
    requires Took(d1, r1, l, b, d', r') && x in taken + [b]
    ensures x < FSSIZE && !IsUsed(d, x) && exists m :: IsLoc(m) && IsPrefix(m, l) && At(d', r', m) == x
  {
    TookForest(d1, r1, l, b, d', r');
    ParentPrefix(l);
    if x in taken {
      var m :| IsLoc(m) && IsPrefix(m, Parent(l)) && At(d1, r1, m) == x;
      assert IsPrefix(m, l) && At(d', r', m) == x;
    } else {
      assert At(d', r', l) == x;
    }
  }

  lemma DataStays(d: Disk, r: Roots, l: Loc, taken: seq<nat>, d1: Disk, r1: Roots, b: nat, d': Disk, r': Roots, m: Loc)
    requires Forest(d, r) && IsLoc(l) && l.path != [] && Grown(d, r, Parent(l), taken, d1, r1)
    requires Took(d1, r1, l, b, d', r') && IsLeaf(m) && At(d, r, m) != 0
    ensures d'[At(d, r, m)] == d[At(d, r, m)]
  {
    ParentPrefix(l);
    assert At(d1, r1, m) == At(d, r, m);
  }

  // ---- file blocks and places ----

  /** bmap's index split: the place of a file's block bn. */
  function Place(inum: nat, bn: nat): Loc
    requires bn < MAXFILE
  {
    if bn < NDIRECT then Loc(inum, bn, [])
    else
      var x := bn - NDIRECT;
      if x < NINDIRECT then Loc(inum, NDIRECT, [x])
      else
        var y := x - NINDIRECT;
        if y < NDOUINDIRECT then Loc(inum, NDIRECT + 1, [y / NINDIRECT, y % NINDIRECT])
        else
          var z := y - NDOUINDIRECT;
          Loc(inum, NDIRECT + 2, [z / NDOUINDIRECT, z % NDOUINDIRECT / NINDIRECT, z % NDOUINDIRECT % NINDIRECT])
  }

  /** The file block kept at a data block's place. */
  ghost function FileBlock(l: Loc): (bn: nat)
    requires IsLeaf(l)
  {
    if l.slot < NDIRECT then l.slot
    else if l.slot == NDIRECT then NDIRECT + l.path[0]
    else if l.slot == NDIRECT + 1 then NDIRECT + NINDIRECT + l.path[0] * NINDIRECT + l.path[1]
    else NDIRECT + NINDIRECT + NDOUINDIRECT + l.path[0] * NDOUINDIRECT + l.path[1] * NINDIRECT + l.path[2]
  }

  /** The split is a bijection between the file blocks below MAXFILE and the data places of an inode:
      into ... */
  lemma PlaceOfBlock(inum: nat, bn: nat)
    requires inum < NINODES && bn < MAXFILE
    ensures IsLeaf(Place(inum, bn)) && FileBlock(Place(inum, bn)) == bn
  {
  }

  /** ... and onto. */
  lemma BlockOfPlace(l: Loc)
    requires IsLeaf(l)
    ensures FileBlock(l) < MAXFILE && Place(l.inum, FileBlock(l)) == l
  {
    if l.slot == NDIRECT {
      assert l.path == [l.path[0]];
    } else if l.slot == NDIRECT + 1 {
      assert l.path == [l.path[0], l.path[1]];
    } else if l.slot == NDIRECT + 2 {
      assert l.path == [l.path[0], l.path[1], l.path[2]];
      var z := l.path[0] * NDOUINDIRECT + l.path[1] * NINDIRECT + l.path[2];
      assert z / NDOUINDIRECT == l.path[0] && z % NDOUINDIRECT == l.path[1] * NINDIRECT + l.path[2];
    }
  }

  predicate PathBefore(p: seq<nat>, q: seq<nat>) {
    p != [] && q != [] && (p[0] < q[0] || (p[0] == q[0] && PathBefore(p[1..], q[1..])))
  }

  /** Earlier address of the inode, or earlier on the way down from the same one. */
  predicate PlaceBefore(l: Loc, m: Loc) { l.slot < m.slot || (l.slot == m.slot && PathBefore(l.path, m.path)) }

  lemma Split(a: nat, b: nat, n: nat)
    requires a < b && (n == NINDIRECT || n == NDOUINDIRECT)
    ensures a / n < b / n || (a / n == b / n && a % n < b % n)
  {
  }

  lemma LastBefore(x: nat, y: nat)
    requires x < y
    ensures PathBefore([x], [y])
  {
  }

  lemma TwoBefore(a: nat, b: nat)
    requires a < b
    ensures PathBefore([a / NINDIRECT, a % NINDIRECT], [b / NINDIRECT, b % NINDIRECT])
  {
    var p, q := [a / NINDIRECT, a % NINDIRECT], [b / NINDIRECT, b % NINDIRECT];
    Split(a, b, NINDIRECT);
    assert p[1..] == [a % NINDIRECT] && q[1..] == [b % NINDIRECT];
    if a % NINDIRECT < b % NINDIRECT { LastBefore(a % NINDIRECT, b % NINDIRECT); }
  }

  lemma ThreeBefore(a: nat, b: nat)
    requires a < b
    ensures PathBefore([a / NDOUINDIRECT, a % NDOUINDIRECT / NINDIRECT, a % NDOUINDIRECT % NINDIRECT],
                       [b / NDOUINDIRECT, b % NDOUINDIRECT / NINDIRECT, b % NDOUINDIRECT % NINDIRECT])
  {
    var x, y := a % NDOUINDIRECT, b % NDOUINDIRECT;
    var p, q := [a / NDOUINDIRECT, x / NINDIRECT, x % NINDIRECT], [b / NDOUINDIRECT, y / NINDIRECT, y % NINDIRECT];
    Split(a, b, NDOUINDIRECT);
    assert p[1..] == [x / NINDIRECT, x % NINDIRECT] && q[1..] == [y / NINDIRECT, y % NINDIRECT];
    if x < y { TwoBefore(x, y); }
  }

  /** The split keeps the order, so it is the only bijection that does: blocks that follow each other in the file do
      so in the index blocks. */
  lemma PlaceInOrder(inum: nat, bn: nat, bm: nat)
    requires bn < bm < MAXFILE
    ensures PlaceBefore(Place(inum, bn), Place(inum, bm))
  {
    var x := NDIRECT + NINDIRECT;
    var y := x + NDOUINDIRECT;
    if NDIRECT <= bn && bm < x {
      LastBefore(bn - NDIRECT, bm - NDIRECT);
    } else if x <= bn && bm < y {
      TwoBefore(bn - x, bm - x);
    } else if y <= bn {
      ThreeBefore(bn - y, bm - y);
    }
  }

  /** The first k steps of the way to a place. */
  function Cut(l: Loc, k: nat): Loc
    requires k <= |l.path|
  {
    l.(path := l.path[..k])
  }

  /** What bmap logs on the way to place l: bitmap blocks, the blocks it took, and index blocks it
      stored a new address in. */
  ghost predicate LoggedOnWay(d: Disk, r: Roots, l: Loc, d': Disk, r': Roots, b: nat)
    requires IsLoc(l)
  {
    || BMAPSTART <= b < NMETA
    || exists k :: 0 <= k <= |l.path| && WayLogged(d, r, l, k) && At(d', r', Cut(l, k)) == b
  }

  /** The k-th block on the way is logged: the step after it (or itself, at the end) was missing. */
  ghost predicate WayLogged(d: Disk, r: Roots, l: Loc, k: nat)
    requires IsLoc(l) && k <= |l.path|
  {
    At(d, r, Cut(l, if k < |l.path| then k + 1 else k)) == 0
  }

  /** Every block logged since `before` was logged on the way to l. */
  ghost predicate LoggedWay(d: Disk, r: Roots, before: set<nat>, l: Loc, d': Disk, r': Roots, logged: set<nat>)
    requires IsLoc(l)
  {
    forall b :: b in logged && b !in before ==> LoggedOnWay(d, r, l, d', r', b)
  }

  lemma CutParent(l: Loc, k: nat)
    requires IsLoc(l) && l.path != [] && k <= |l.path| - 1
    ensures Cut(l, k) == Cut(Parent(l), k) && Cut(l, k) != l && IsLoc(Cut(l, k))
    ensures k == |l.path| - 1 ==> Cut(l, k + 1) == l && Cut(l, k) == Parent(l)
  {
  }

  lemma WayLoggedExtends(d: Disk, r: Roots, l: Loc, k: nat)
    requires IsLoc(l) && l.path != [] && k <= |l.path| - 1 && WayLogged(d, r, Parent(l), k)
    ensures WayLogged(d, r, l, k)
  {
    CutParent(l, k);
    if k + 1 <= |l.path| - 1 { CutParent(l, k + 1); }
  }

  lemma WayExtends(d: Disk, r: Roots, before: set<nat>, l: Loc, d1: Disk, r1: Roots, logged: set<nat>, d': Disk,
                   r': Roots)
    requires IsLoc(l) && l.path != []
    requires LoggedWay(d, r, before, Parent(l), d1, r1, logged)
    requires forall m :: IsLoc(m) && m != l ==> At(d', r', m) == At(d1, r1, m)
    ensures LoggedWay(d, r, before, l, d', r', logged)
  {
    forall b | b in logged && b !in before ensures LoggedOnWay(d, r, l, d', r', b) {
      var p := Parent(l);
      if !(BMAPSTART <= b < NMETA) {
        var k :| 0 <= k <= |p.path| && WayLogged(d, r, p, k) && At(d1, r1, Cut(p, k)) == b;
        WayLoggedExtends(d, r, l, k);
        CutParent(l, k);
      }
    }
  }

  /** The blocks logged by taking block b for place l. */
  lemma WayTook(d: Disk, r: Roots, l: Loc, b: nat, d': Disk, r': Roots)
    requires IsLoc(l) && At(d, r, l) == 0 && At(d', r', l) == b
    ensures LoggedOnWay(d, r, l, d', r', b)
    ensures l.path != [] ==> LoggedOnWay(d, r, l, d', r', At(d', r', Parent(l)))
  {
    assert Cut(l, |l.path|) == l;
    assert WayLogged(d, r, l, |l.path|) && At(d', r', Cut(l, |l.path|)) == b;
    if l.path != [] {
      var k := |l.path| - 1;
      assert Cut(l, k) == Parent(l) && Cut(l, k + 1) == l;
      assert WayLogged(d, r, l, k);
    }
  }

  /** Where a walk set out from: the disk, the roots and the blocks logged by then. */
  datatype Start = Start(d: Disk, r: Roots, logged: set<nat>)

  /** bmap has got as far as place l, where it found or put block a. */
  ghost predicate Reached(w: Start, l: Loc, a: nat, taken: seq<nat>, d': Disk, r': Roots, logged: set<nat>) {
    var Start(d, r, before) := w;
    var reached := Forest(d, r) && Grown(d, r, l, taken, d', r') && At(d', r', l) == a &&
                   LoggedWay(d, r, before, l, d', r', logged) &&
                   before <= logged && (taken == [] ==> logged == before);
    reached
  }

  /** The disk after balloc took block b and its number was stored in entry i of block q. */
  ghost predicate Stored(d: Disk, q: nat, i: nat, b: nat, d': Disk) {
    && b < FSSIZE && q < FSSIZE && i < NINDIRECT && !IsUsed(d, b)
    && d' == FlipUsed(d, b)[b := ZeroBlock()][q := PutWord(d[q], i, b)]
  }

  lemma StoredTook(d: Disk, r: Roots, l: Loc, q: nat, b: nat, d': Disk)
    requires Forest(d, r) && IsLoc(l) && l.path != [] && At(d, r, l) == 0
    requires q == At(d, r, Parent(l)) != 0 && Stored(d, q, Last(l), b, d')
    ensures Took(d, r, l, b, d', r)
  {
    FlipUsedOnly(d, b);
    UsedFrame(FlipUsed(d, b), d');
  }

  lemma ChildParent(p: Loc, i: nat)
    requires IsLoc(p) && |p.path| < Depth(p.slot) && i < NINDIRECT
    ensures IsLoc(Child(p, i)) && Child(p, i).path != [] && Parent(Child(p, i)) == p && Last(Child(p, i)) == i
  {
  }

  lemma ReachedTook(w: Start, p: Loc, i: nat, taken: seq<nat>, d1: Disk, r: Roots, logged: set<nat>, q: nat, b: nat,
                    d': Disk)
    requires IsLoc(p) && |p.path| < Depth(p.slot) && Reached(w, p, q, taken, d1, r, logged)
    requires i < NINDIRECT && Entry(d1, q, i) == 0 && Stored(d1, q, i, b, d')
    ensures Reached(w, Child(p, i), b, taken + [b], d', r, logged + {BBlock(b), b, q})
  {
    ChildParent(p, i);
    var l := Child(p, i);
    StoredTook(d1, r, l, q, b, d');
    GrownTook(w.d, w.r, l, taken, d1, r, b, d', r);
    TookForest(d1, r, l, b, d', r);
    TookLogged(w, l, d1, r, logged, q, b, d');
  }

  lemma TookLogged(w: Start, l: Loc, d1: Disk, r: Roots, logged: set<nat>, q: nat, b: nat, d': Disk)
    requires IsLoc(l) && l.path != [] && b < FSSIZE && At(w.d, w.r, l) == 0
    requires LoggedWay(w.d, w.r, w.logged, Parent(l), d1, r, logged)
    requires forall m :: IsLoc(m) ==> At(d', r, m) == if m == l then b else At(d1, r, m)
    requires q == At(d1, r, Parent(l))
    ensures LoggedWay(w.d, w.r, w.logged, l, d', r, logged + {BBlock(b), b, q})
  {
    WayExtends(w.d, w.r, w.logged, l, d1, r, logged, d', r);
    WayTook(w.d, w.r, l, b, d', r);
    CutParent(l, |l.path| - 1);
  }

  lemma ReachedPresent(w: Start, p: Loc, i: nat, taken: seq<nat>, d1: Disk, r: Roots, logged: set<nat>, q: nat)
    requires IsLoc(p) && |p.path| < Depth(p.slot) && Reached(w, p, q, taken, d1, r, logged)
    requires i < NINDIRECT && Entry(d1, q, i) != 0
    ensures Reached(w, Child(p, i), Entry(d1, q, i), taken, d1, r, logged)
  {
    ChildParent(p, i);
    var l := Child(p, i);
    GrownPresent(w.d, w.r, l, taken, d1, r);
    WayExtends(w.d, w.r, w.logged, l, d1, r, logged, d1, r);
  }

  /** Below an absent block there is nothing. */
  lemma {:induction false} NothingBelowZero(d: Disk, r: Roots, l: Loc, m: Loc)
    requires IsLoc(l) && IsLoc(m) && IsPrefix(l, m) && At(d, r, l) == 0
    ensures At(d, r, m) == 0
    decreases |m.path|
  {
    if m.path != l.path {
      assert IsPrefix(l, Parent(m));
      NothingBelowZero(d, r, l, Parent(m));
    } else {
      assert m == l;
    }
  }

  /** Every block is in use. */
  ghost predicate Full(d: Disk) {
    forall c: nat :: c < FSSIZE ==> IsUsed(d, c)
  }

  /** Nothing was kept at l and, by the time it was looked for, no block was left. */
  ghost predicate Missing(d: Disk, r: Roots, l: Loc, d': Disk) {
    var missing := IsLoc(l) && At(d, r, l) == 0 && Full(d');
    missing
  }

  /** An entry missing along the way was missing at the outset. */
  lemma ReachedAbsent(w: Start, p: Loc, i: nat, taken: seq<nat>, d1: Disk, r: Roots, logged: set<nat>, q: nat)
    requires IsLoc(p) && |p.path| < Depth(p.slot) && Reached(w, p, q, taken, d1, r, logged)
    requires i < NINDIRECT && Entry(d1, q, i) == 0 && Full(d1)
    ensures Missing(w.d, w.r, Child(p, i), d1)
  {
    ChildParent(p, i);
  }

  lemma ReachedBlock(w: Start, l: Loc, a: nat, taken: seq<nat>, d': Disk, r: Roots, logged: set<nat>)
    requires Reached(w, l, a, taken, d', r, logged)
    ensures NMETA <= a < FSSIZE
    ensures forall b: nat :: b < FSSIZE && !IsUsed(d', b) ==> b != a && NMETA <= b
  {
  }

  /** The way down from an address, step by step. */
  lemma PlacePath(inum: nat, slot: nat, i: nat, j: nat, k: nat)
    ensures Child(Loc(inum, slot, []), i) == Loc(inum, slot, [i])
    ensures Child(Child(Loc(inum, slot, []), i), j) == Loc(inum, slot, [i, j])
    ensures Child(Child(Child(Loc(inum, slot, []), i), j), k) == Loc(inum, slot, [i, j, k])
  {
  }

  lemma MissingChild(d: Disk, r: Roots, p: Loc, i: nat, d': Disk)
    requires Missing(d, r, p, d') && |p.path| < Depth(p.slot) && i < NINDIRECT
    ensures Missing(d, r, Child(p, i), d')
  {
    ChildParent(p, i);
  }
}
