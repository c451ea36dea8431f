/** How many blocks one write of at most 1536 bytes puts in the log. */
module FsBudget {
  import opened Common
  import LogSpec
  import opened FsTree
  import opened FsFile

  /** The data blocks of a write to file blocks first..last. */
  function DataPlaces(inum: nat, first: nat, last: nat): seq<Loc>
    requires first <= last < MAXFILE
  {
    seq(last - first + 1, i requires 0 <= i <= last - first => Place(inum, first + i))
  }

  /** The index blocks such a write can change: the one right above the first block, and those on the way to the
      last. */
  function IndexPlaces(inum: nat, first: nat, last: nat): seq<Loc>
    requires first <= last < MAXFILE
  {
    var l, m := Place(inum, first), Place(inum, last);
    (if l.path != [] then [Parent(l)] else []) + seq(|m.path|, k requires 0 <= k < |m.path| => Cut(m, k))
  }

  ghost predicate InChunk(inum: nat, first: nat, last: nat, m: Loc)
    requires first <= last < MAXFILE
  {
    m in DataPlaces(inum, first, last) || m in IndexPlaces(inum, first, last)
  }

  /** File blocks under the same lowest index block. */
  predicate SameLeaf(b: nat, c: nat) {
    NDIRECT <= b && NDIRECT <= c && (b - NDIRECT) / NINDIRECT == (c - NDIRECT) / NINDIRECT
  }

  lemma SameLeafParent(inum: nat, b: nat, c: nat)
    requires inum < NINODES && b < MAXFILE && c < MAXFILE && SameLeaf(b, c)
    ensures Place(inum, b).path != [] && Place(inum, c).path != [] && Parent(Place(inum, b)) == Parent(Place(inum, c))
  {
    SplitLeaf(b);
    SplitLeaf(c);
  }

  /** bmap's index split in terms of the lowest index block. */
  lemma SplitLeaf(b: nat)
    requires NDIRECT <= b < MAXFILE
    ensures var t, i := (b - NDIRECT) / NINDIRECT, (b - NDIRECT) % NINDIRECT;
            forall inum: nat :: Place(inum, b) ==
              if t == 0 then Loc(inum, NDIRECT, [i])
              else if t <= NINDIRECT then Loc(inum, NDIRECT + 1, [t - 1, i])
              else Loc(inum, NDIRECT + 2, [(t - 129) / NINDIRECT, (t - 129) % NINDIRECT, i])
  {
    var t, i := (b - NDIRECT) / NINDIRECT, (b - NDIRECT) % NINDIRECT;
    assert b == NDIRECT + t * NINDIRECT + i;
    if t > NINDIRECT {
      var z := b - NDIRECT - NINDIRECT - NDOUINDIRECT;
      assert z == (t - 129) * NINDIRECT + i;
      assert z / NDOUINDIRECT == (t - 129) / NINDIRECT;
      assert z % NDOUINDIRECT / NINDIRECT == (t - 129) % NINDIRECT;
      assert z % NDOUINDIRECT % NINDIRECT == i;
    }
  }

  /** Up to four blocks in a row cross into another index block at most once, and then not right after entering
      the first. */
  lemma CrossOnce(first: nat, b: nat, last: nat)
    requires first <= b <= last <= first + 3 && NDIRECT <= b && !SameLeaf(b, last)
    ensures b > NDIRECT && SameLeaf(b - 1, b) && (NDIRECT <= first && SameLeaf(first, b))
  {
  }

  lemma InChunkPlaces(inum: nat, first: nat, last: nat, c: nat, k: nat)
    requires inum < NINODES && first <= c <= last < MAXFILE
    ensures InChunk(inum, first, last, Place(inum, c))
    ensures Place(inum, first).path != [] ==> InChunk(inum, first, last, Parent(Place(inum, first)))
    ensures k < |Place(inum, last).path| ==> InChunk(inum, first, last, Cut(Place(inum, last), k))
  {
    assert DataPlaces(inum, first, last)[c - first] == Place(inum, c);
    var l, m, ps := Place(inum, first), Place(inum, last), IndexPlaces(inum, first, last);
    if l.path != [] { assert ps[0] == Parent(l); }
    if k < |m.path| { assert ps[|ps| - |m.path| + k] == Cut(m, k); }
  }

  /** A block kept at one of the places of the write. */
  ghost predicate KeptInChunk(d: Disk, r: Roots, inum: nat, first: nat, last: nat, b: nat)
    requires first <= last < MAXFILE
  {
    b != 0 && exists m :: IsLoc(m) && InChunk(inum, first, last, m) && At(d, r, m) == b
  }

  /** Everything logged since `before` is part of the free map or kept at one of the places of the write. */
  ghost predicate LoggedIn(before: set<nat>, logged: set<nat>, inum: nat, first: nat, last: nat, d: Disk, r: Roots)
    requires first <= last < MAXFILE
  {
    forall b :: b in logged && b !in before ==> BMAPSTART <= b < NMETA || KeptInChunk(d, r, inum, first, last, b)
  }

  /** The places on the way to block c whose blocks bmap logs, given that all blocks before c are there. */
  lemma WayInChunk(d: Disk, r: Roots, inum: nat, first: nat, last: nat, c: nat, k: nat)
    requires inum < NINODES && first <= c <= last < MAXFILE && last <= first + 3
    requires c > 0 ==> BlockAt(d, r, inum, c - 1) != 0
    requires IsLoc(Place(inum, c)) && k <= |Place(inum, c).path| && WayLogged(d, r, Place(inum, c), k)
    ensures IsLoc(Cut(Place(inum, c), k)) && InChunk(inum, first, last, Cut(Place(inum, c), k))
  {
    var l := Place(inum, c);
    if k == |l.path| {
      assert Cut(l, k) == l;
      InChunkPlaces(inum, first, last, c, 0);
    } else if SameLeaf(c, last) {
      SameLeafParent(inum, c, last);
      assert Cut(l, k) == Cut(Parent(l), k) == Cut(Place(inum, last), k);
      InChunkPlaces(inum, first, last, c, k);
    } else {
      CrossOnce(first, c, last);
      SameLeafParent(inum, first, c);
      SameLeafParent(inum, c - 1, c);
      if k + 1 < |l.path| {
        WayPresent(d, r, inum, c, k);
      } else {
        assert Cut(l, k) == Parent(l);
        InChunkPlaces(inum, first, last, c, 0);
      }
    }
  }

  /** Index blocks shared with a block that is there are there. */
  lemma WayPresent(d: Disk, r: Roots, inum: nat, c: nat, k: nat)
    requires inum < NINODES && 0 < c < MAXFILE && BlockAt(d, r, inum, c - 1) != 0
    requires Place(inum, c).path != [] && Place(inum, c - 1).path != [] &&
             Parent(Place(inum, c - 1)) == Parent(Place(inum, c))
    requires IsLoc(Place(inum, c)) && k + 1 < |Place(inum, c).path|
    ensures !WayLogged(d, r, Place(inum, c), k)
  {
    var l, p := Place(inum, c), Place(inum, c - 1);
    PlaceOfBlock(inum, c - 1);
    var m := Cut(l, k + 1);
    assert m == Cut(Parent(p), k + 1);
    assert IsLoc(m) && IsPrefix(m, p);
    if At(d, r, m) == 0 { NothingBelowZero(d, r, m, p); }
  }

  /** One turn of writei's loop. */
  lemma ChunkStep(before: set<nat>, w: Start, inum: nat, first: nat, last: nat, c: nat, a: nat, taken: seq<nat>,
                  d': Disk, r': Roots, logged: set<nat>)
    requires inum < NINODES && first <= c <= last < MAXFILE && last <= first + 3
    requires LoggedIn(before, w.logged, inum, first, last, w.d, w.r)
    requires c > 0 ==> BlockAt(w.d, w.r, inum, c - 1) != 0
    requires Reached(w, Place(inum, c), a, taken, d', r', logged)
    ensures LoggedIn(before, logged + {a}, inum, first, last, d', r')
  {
    PlaceOfBlock(inum, c);
    forall b | b in logged + {a} && b !in before && !(BMAPSTART <= b < NMETA)
      ensures KeptInChunk(d', r', inum, first, last, b)
    {
      if b == a {
        InChunkPlaces(inum, first, last, c, 0);
      } else if b in w.logged {
        KeptStays(w, Place(inum, c), taken, d', r', inum, first, last, b);
      } else {
        NewOnWay(w, inum, first, last, c, taken, d', r', b);
      }
    }
  }

  lemma KeptStays(w: Start, l: Loc, taken: seq<nat>, d': Disk, r': Roots, inum: nat, first: nat, last: nat, b: nat)
    requires first <= last < MAXFILE && KeptInChunk(w.d, w.r, inum, first, last, b) && Grown(w.d, w.r, l, taken, d', r')
    ensures KeptInChunk(d', r', inum, first, last, b)
  {
    var m :| IsLoc(m) && InChunk(inum, first, last, m) && At(w.d, w.r, m) == b;
    assert At(d', r', m) == b;
  }

  lemma NewOnWay(w: Start, inum: nat, first: nat, last: nat, c: nat, taken: seq<nat>, d': Disk, r': Roots, b: nat)
    requires inum < NINODES && first <= c <= last < MAXFILE && last <= first + 3
    requires c > 0 ==> BlockAt(w.d, w.r, inum, c - 1) != 0
    requires IsLoc(Place(inum, c)) && At(d', r', Place(inum, c)) != 0
    requires LoggedOnWay(w.d, w.r, Place(inum, c), d', r', b) && !(BMAPSTART <= b < NMETA)
    ensures KeptInChunk(d', r', inum, first, last, b)
  {
    var l := Place(inum, c);
    var k :| 0 <= k <= |l.path| && WayLogged(w.d, w.r, l, k) && At(d', r', Cut(l, k)) == b;
    WayInChunk(w.d, w.r, inum, first, last, c, k);
    if b == 0 { NothingBelowZero(d', r', Cut(l, k), l); }
  }

  /** ... and the bytes put in the block. */
  lemma ChunkPoke(before: set<nat>, w: Start, inum: nat, first: nat, last: nat, c: nat, a: nat, taken: seq<nat>,
                  d1: Disk, r': Roots, logged: set<nat>, d': Disk)
    requires inum < NINODES && first <= c <= last < MAXFILE && last <= first + 3
    requires LoggedIn(before, w.logged, inum, first, last, w.d, w.r)
    requires c > 0 ==> BlockAt(w.d, w.r, inum, c - 1) != 0
    requires Reached(w, Place(inum, c), a, taken, d1, r', logged)
    requires a < FSSIZE && d' == d1[a := d'[a]]
    ensures LoggedIn(before, logged + {a}, inum, first, last, d', r')
  {
    ChunkStep(before, w, inum, first, last, c, a, taken, d1, r', logged);
    PlaceOfBlock(inum, c);
    PokeKeeps(d1, r', inum, c, d'[a]);
    LoggedInFrame(before, logged + {a}, inum, first, last, d1, d', r');
  }

  lemma LoggedInFrame(before: set<nat>, logged: set<nat>, inum: nat, first: nat, last: nat, d: Disk, d': Disk, r: Roots)
    requires first <= last < MAXFILE && LoggedIn(before, logged, inum, first, last, d, r)
    requires forall l :: IsLoc(l) ==> At(d', r, l) == At(d, r, l)
    ensures LoggedIn(before, logged, inum, first, last, d', r)
  {
    forall b | b in logged && b !in before && !(BMAPSTART <= b < NMETA)
      ensures KeptInChunk(d', r, inum, first, last, b)
    {
      var m :| IsLoc(m) && InChunk(inum, first, last, m) && At(d, r, m) == b;
      assert At(d', r, m) == b;
    }
  }

  /** The blocks kept at a list of places. */
  ghost function BlocksAt(d: Disk, r: Roots, ps: seq<Loc>): set<nat>
    requires forall i :: 0 <= i < |ps| ==> IsLoc(ps[i])
  {
    if ps == [] then {} else BlocksAt(d, r, ps[..|ps| - 1]) + {At(d, r, ps[|ps| - 1])}
  }

  lemma {:induction false} BlocksAtSize(d: Disk, r: Roots, ps: seq<Loc>)
    requires forall i :: 0 <= i < |ps| ==> IsLoc(ps[i])
    ensures |BlocksAt(d, r, ps)| <= |ps|
    ensures forall i :: 0 <= i < |ps| ==> At(d, r, ps[i]) in BlocksAt(d, r, ps)
  {
    if ps != [] { BlocksAtSize(d, r, ps[..|ps| - 1]); }
  }

  lemma PlacesAreLocs(inum: nat, first: nat, last: nat)
    requires inum < NINODES && first <= last < MAXFILE
    ensures forall m :: m in DataPlaces(inum, first, last) || m in IndexPlaces(inum, first, last) ==> IsLoc(m)
    ensures |IndexPlaces(inum, first, last)| <= 4
  {
    IndexAreLocs(inum, first, last);
    forall i: nat | i < |DataPlaces(inum, first, last)| ensures IsLoc(DataPlaces(inum, first, last)[i]) {
      PlaceOfBlock(inum, first + i);
    }
  }

  lemma IndexAreLocs(inum: nat, first: nat, last: nat)
    requires inum < NINODES && first <= last < MAXFILE
    ensures |IndexPlaces(inum, first, last)| <= 4 && forall m :: m in IndexPlaces(inum, first, last) ==> IsLoc(m)
  {
    PlaceOfBlock(inum, first);
    PlaceOfBlock(inum, last);
  }

  /** What a write of up to four blocks logs: free map blocks, at most four data blocks and at most four index
      blocks. */
  lemma ChunkBound(before: set<nat>, logged: set<nat>, inum: nat, first: nat, last: nat, d: Disk, r: Roots)
      returns (data: set<nat>, index: set<nat>)
    requires inum < NINODES && first <= last < MAXFILE && last <= first + 3
    requires LoggedIn(before, logged, inum, first, last, d, r)
    ensures |data| <= 4 && |index| <= 4
    ensures forall b :: b in logged && b !in before ==> BMAPSTART <= b < NMETA || b in data || b in index
  {
    PlacesAreLocs(inum, first, last);
    data, index := BlocksAt(d, r, DataPlaces(inum, first, last)), BlocksAt(d, r, IndexPlaces(inum, first, last));
    BlocksAtSize(d, r, DataPlaces(inum, first, last));
    BlocksAtSize(d, r, IndexPlaces(inum, first, last));
  }

  /** The blocks logged by one operation: free map blocks, the inode record's block, at most four data blocks and
      at most four index blocks. */
  ghost predicate IsChunkLog(s: set<nat>, ib: nat) {
    exists data: set<nat>, index: set<nat> :: |data| <= 4 && |index| <= 4 && LogParts(s, ib, data, index)
  }

  ghost predicate LogParts(s: set<nat>, ib: nat, data: set<nat>, index: set<nat>) {
    forall b :: b in s ==> BMAPSTART <= b < NMETA || b == ib || b in data || b in index
  }

  lemma ChunkLog(logged: set<nat>, ib: nat, inum: nat, first: nat, last: nat, d: Disk, r: Roots)
    requires inum < NINODES && first <= last < MAXFILE && last <= first + 3
    requires LoggedIn({ib}, logged, inum, first, last, d, r)
    ensures IsChunkLog(logged, ib)
  {
    var data, index := ChunkBound({ib}, logged, inum, first, last, d, r);
    assert LogParts(logged, ib, data, index);
  }

  /** Such an operation keeps within its budget if its allocations touch one free map block. */
  lemma ChunkLogFits(s: set<nat>, ib: nat, bm: nat)
    requires IsChunkLog(s, ib) && forall b :: b in s && BMAPSTART <= b < NMETA ==> b == bm
    ensures |s| <= LogSpec.MAXOPBLOCKS
  {
    var data, index :| |data| <= 4 && |index| <= 4 && LogParts(s, ib, data, index);
    var all := data + index + {ib, bm};
    assert s <= all;
    SubsetSize(s, all);
  }
}
