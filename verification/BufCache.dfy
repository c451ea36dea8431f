/** The buffer cache of bio.c over the disk of memide.c, step by step, and what every run of it
    presents to its callers: a plain disk. */
module BufCache {
  import opened Common
  import opened Blocks
  import opened LogSpec

  const NBUF: nat := 30
  const DISKDEV: nat := 1   // the only device iderw accepts

  datatype Buf = Buf(dev: nat, blockno: nat, refcnt: nat, valid: bool, dirty: bool, data: Block)

  /** All buffers, the MRU list as buffer numbers (head.next first), and the disk. */
  datatype Cache = Cache(bufs: seq<Buf>, mru: seq<nat>, disk: Disk)

  predicate Holds(b: Buf, dev: nat, blockno: nat) { b.dev == dev && b.blockno == blockno }

  /** bget may recycle the buffer. */
  predicate Evictable(b: Buf) { b.refcnt == 0 && !b.dirty }

  predicate IsPermutation(s: seq<nat>, n: nat) {
    && |s| == n
    && (forall i :: 0 <= i < n ==> s[i] < n)
    && (forall i, j :: 0 <= i < j < n ==> s[i] != s[j])
  }

  predicate Shaped(c: Cache) { |c.bufs| == NBUF && IsPermutation(c.mru, NBUF) }

  /** bget's first loop: from position k towards the least recently used. */
  function FirstHit(c: Cache, dev: nat, blockno: nat, k: nat): (r: Option<nat>)
    requires Shaped(c) && k <= NBUF
    ensures r.Some? ==> r.value < NBUF && Holds(c.bufs[r.value], dev, blockno)
    ensures r.None? ==> forall j :: k <= j < NBUF ==> !Holds(c.bufs[c.mru[j]], dev, blockno)
    decreases NBUF - k
  {
    if k == NBUF then None
    else if Holds(c.bufs[c.mru[k]], dev, blockno) then Some(c.mru[k])
    else FirstHit(c, dev, blockno, k + 1)
  }

  /** bget's second loop: from position k - 1 towards the most recently used. */
  function LastFree(c: Cache, k: nat): (r: Option<nat>)
    requires Shaped(c) && k <= NBUF
    ensures r.Some? ==> r.value < NBUF && Evictable(c.bufs[r.value])
    ensures r.None? ==> forall j :: 0 <= j < k ==> !Evictable(c.bufs[c.mru[j]])
  {
    if k == 0 then None
    else if Evictable(c.bufs[c.mru[k - 1]]) then Some(c.mru[k - 1])
    else LastFree(c, k - 1)
  }

  /** bget: a cached buffer, or the least recently used one that may be recycled; None is the
      panic "no buffers". */
  function Bget(c: Cache, b: nat): (r: Option<(Cache, nat)>)
    requires Shaped(c)
    ensures r.Some? ==> r.value.1 < NBUF && r.value.0.mru == c.mru && |r.value.0.bufs| == NBUF &&
                        r.value.0.disk == c.disk
  {
    match FirstHit(c, DISKDEV, b, 0)
    case Some(i) => Some((c.(bufs := c.bufs[i := c.bufs[i].(refcnt := c.bufs[i].refcnt + 1)]), i))
    case None =>
      match LastFree(c, NBUF)
      case Some(i) => Some((c.(bufs := c.bufs[i := Buf(DISKDEV, b, 1, false, false, c.bufs[i].data)]), i))
      case None => None
  }

  /** bread: bget, then iderw if the buffer has not been read. */
  function Bread(c: Cache, b: nat): (r: Option<(Cache, nat)>)
    requires Shaped(c) && b < |c.disk|
  {
    match Bget(c, b)
    case None => None
    case Some(p) =>
      var (g, i) := p;
      var buf := g.bufs[i];
      Some((if buf.valid then g else g.(bufs := g.bufs[i := buf.(valid := true, data := c.disk[b])]), i))
  }

  /** A holder changes the contents and calls log_write: the buffer is pinned. */
  function Update(c: Cache, i: nat, data: Block): Cache
    requires i < |c.bufs|
  {
    c.(bufs := c.bufs[i := c.bufs[i].(data := data, dirty := true)])
  }

  /** A holder changes the contents and calls bwrite. */
  function WriteThrough(c: Cache, i: nat, data: Block): Cache
    requires i < |c.bufs| && c.bufs[i].blockno < |c.disk|
  {
    Cache(c.bufs[i := c.bufs[i].(data := data, dirty := false, valid := true)], c.mru,
          c.disk[c.bufs[i].blockno := data])
  }

  /** brelse's relinking: to the head of the list. */
  function MoveToFront(mru: seq<nat>, i: nat): seq<nat> { [i] + Without(mru, i) }

  function Without(mru: seq<nat>, i: nat): seq<nat> {
    if mru == [] then [] else if mru[0] == i then mru[1..] else [mru[0]] + Without(mru[1..], i)
  }

  function Brelse(c: Cache, i: nat): Cache
    requires i < |c.bufs| && c.bufs[i].refcnt > 0
  {
    var b := c.bufs[i];
    c.(bufs := c.bufs[i := b.(refcnt := b.refcnt - 1)],
       mru := if b.refcnt == 1 then MoveToFront(c.mru, i) else c.mru)
  }

  /** The reference counts, and the buffers they keep from being recycled. */
  ghost function Refs(bufs: seq<Buf>): (r: seq<nat>)
    ensures |r| == |bufs| && forall i :: 0 <= i < |bufs| ==> r[i] == bufs[i].refcnt
  {
    seq(|bufs|, i requires 0 <= i < |bufs| => bufs[i].refcnt)
  }

  ghost function InUse(refs: seq<nat>): set<nat> { set i: nat | i < |refs| && refs[i] > 0 }

  // ---- the invariant ----

  ghost predicate BufInv(b: Buf, disk: Disk) {
    if b.dev == 0 then b.refcnt == 0 && !b.valid && !b.dirty
    else b.dev == DISKDEV && b.blockno < |disk| && b.valid && (!b.dirty ==> b.data == disk[b.blockno])
  }

  /** At most one buffer per block of the disk. */
  ghost predicate Unique(bufs: seq<Buf>) {
    forall i, j :: 0 <= i < j < |bufs| && bufs[i].dev == DISKDEV && bufs[j].dev == DISKDEV ==>
      bufs[i].blockno != bufs[j].blockno
  }

  ghost predicate Inv(c: Cache) {
    && Shaped(c) && Unique(c.bufs)
    && forall i :: 0 <= i < |c.bufs| ==> BufInv(c.bufs[i], c.disk)
  }

  ghost predicate Cached(c: Cache, i: int, b: nat) { 0 <= i < |c.bufs| && Holds(c.bufs[i], DISKDEV, b) }

  ghost predicate Uncached(c: Cache, b: nat) { forall i :: !Cached(c, i, b) }

  /** Some buffer keeps block b until it is written. */
  ghost predicate Kept(c: Cache, b: nat) { exists i :: Cached(c, i, b) && c.bufs[i].dirty && c.bufs[i].valid }

  /** v is the disk as a caller of bread sees it. */
  ghost predicate IsView(c: Cache, v: Disk) {
    && |v| == |c.disk|
    && (forall i :: 0 <= i < |c.bufs| && c.bufs[i].dev == DISKDEV && c.bufs[i].blockno < |v| ==>
          v[c.bufs[i].blockno] == c.bufs[i].data)
    && (forall b: nat {:trigger Uncached(c, b)} :: b < |v| && Uncached(c, b) ==> v[b] == c.disk[b])
  }

  /** pinned is the set of blocks whose buffers bget must not recycle. */
  ghost predicate IsPinned(c: Cache, pinned: set<nat>) {
    && (forall i :: 0 <= i < |c.bufs| && c.bufs[i].dirty ==> c.bufs[i].blockno in pinned)
    && (forall b: nat {:trigger Kept(c, b)} :: b in pinned ==> Kept(c, b))
  }

  lemma SameCached(c: Cache, c': Cache)
    requires |c'.bufs| == |c.bufs| && forall i :: 0 <= i < |c.bufs| ==>
               c'.bufs[i].dev == c.bufs[i].dev && c'.bufs[i].blockno == c.bufs[i].blockno
    ensures forall j, x: nat :: Cached(c, j, x) <==> Cached(c', j, x)
    ensures forall x: nat {:trigger Uncached(c', x)} :: Uncached(c, x) <==> Uncached(c', x)
  {
    forall x: nat ensures Uncached(c, x) <==> Uncached(c', x) {
      assert forall j :: Cached(c, j, x) <==> Cached(c', j, x);
    }
  }

  lemma MissAll(c: Cache, b: nat)
    requires Shaped(c) && FirstHit(c, DISKDEV, b, 0).None?
    ensures Uncached(c, b)
  {
    forall i ensures !Cached(c, i, b) {
      if 0 <= i < NBUF { var k := Position(c.mru, NBUF, i); }
    }
  }

  /** A permutation reaches every number below n. */
  lemma Position(s: seq<nat>, n: nat, i: nat) returns (k: nat)
    requires IsPermutation(s, n) && i < n
    ensures k < n && s[k] == i
  {
    if i !in s {
      Pigeon(s, Below(n) - {i});
      assert false;
    }
    k :| 0 <= k < |s| && s[k] == i;
  }

  ghost function Below(n: nat): (r: set<nat>)
    ensures |r| == n && forall x: nat :: x in r <==> x < n
  {
    if n == 0 then {} else Below(n - 1) + {n - 1}
  }

  lemma Pigeon(s: seq<nat>, t: set<nat>)
    requires (forall i, j :: 0 <= i < j < |s| ==> s[i] != s[j]) && forall i :: 0 <= i < |s| ==> s[i] in t
    ensures |s| <= |t|
  {
    if s != [] { Pigeon(s[..|s| - 1], t - {s[|s| - 1]}); }
  }

  /** What a step leaves alone: nothing seen, pinned or stored changes. */
  ghost predicate Same(c: Cache, c': Cache) {
    && c'.disk == c.disk
    && (forall v :: IsView(c, v) ==> IsView(c', v))
    && (forall p :: IsPinned(c, p) ==> IsPinned(c', p))
  }

  /** What iderw needs of a buffer that bget hands to bread. */
  lemma GotBuffer(c: Cache, b: nat)
    requires Inv(c) && Bget(c, b).Some?
    ensures var (g, i) := Bget(c, b).value; Holds(g.bufs[i], DISKDEV, b) && (!g.bufs[i].valid ==> !g.bufs[i].dirty)
  {
    var (g, i) := Bget(c, b).value;
    assert BufInv(c.bufs[i], c.disk);
  }

  /** bread moves no held buffer to another block. */
  lemma HeldStay(c: Cache, b: nat, j: nat)
    requires Inv(c) && b < |c.disk| && Bread(c, b).Some? && j < NBUF && c.bufs[j].refcnt > 0
    ensures var c' := Bread(c, b).value.0;
            |c'.bufs| == NBUF && Holds(c'.bufs[j], c.bufs[j].dev, c.bufs[j].blockno) && c'.bufs[j].refcnt > 0
  {
  }

  /** bread returns the last contents written and changes neither what is seen, what is pinned,
      nor the disk. */
  lemma {:induction false} BreadKeeps(c: Cache, b: nat, v: Disk)
    requires Inv(c) && IsView(c, v) && b < |c.disk| && Bread(c, b).Some?
    ensures var (c', i) := Bread(c, b).value;
            Inv(c') && Same(c, c') && Cached(c', i, b) && c'.bufs[i].refcnt > 0 && c'.bufs[i].data == v[b]
  {
    var (c', i) := Bread(c, b).value;
    if FirstHit(c, DISKDEV, b, 0).None? {
      MissAll(c, b);
      Recycled(c, b, i);
      assert c' == c.(bufs := c.bufs[i := Buf(DISKDEV, b, 1, true, false, c.disk[b])]);
    } else {
      assert Cached(c, i, b) && BufInv(c.bufs[i], c.disk);
      Rereferenced(c, i, c.bufs[i].refcnt + 1);
      assert c' == c.(bufs := c.bufs[i := c.bufs[i].(refcnt := c.bufs[i].refcnt + 1)]);
    }
  }

  /** Reference counts are invisible. */
  lemma Rereferenced(c: Cache, i: nat, n: nat)
    requires Inv(c) && i < NBUF && c.bufs[i].dev == DISKDEV
    ensures var c' := c.(bufs := c.bufs[i := c.bufs[i].(refcnt := n)]); Inv(c') && Same(c, c')
  {
    var c' := c.(bufs := c.bufs[i := c.bufs[i].(refcnt := n)]);
    SameCached(c, c');
    forall p, x | IsPinned(c, p) && x in p ensures Kept(c', x) {
      assert Kept(c, x);
      var j :| Cached(c, j, x) && c.bufs[j].dirty && c.bufs[j].valid;
      assert Cached(c', j, x) && c'.bufs[j].dirty && c'.bufs[j].valid;
    }
  }

  /** A clean unreferenced buffer may take another block. */
  lemma Recycled(c: Cache, b: nat, i: nat)
    requires Inv(c) && i < NBUF && Evictable(c.bufs[i]) && b < |c.disk| && Uncached(c, b)
    ensures var c' := c.(bufs := c.bufs[i := Buf(DISKDEV, b, 1, true, false, c.disk[b])]);
            Inv(c') && Same(c, c') && forall v :: IsView(c, v) ==> v[b] == c.disk[b]
  {
    var c' := c.(bufs := c.bufs[i := Buf(DISKDEV, b, 1, true, false, c.disk[b])]);
    assert Unique(c'.bufs) by {
      forall j | 0 <= j < NBUF && j != i ensures c.bufs[j].dev == DISKDEV ==> c.bufs[j].blockno != b {
        assert !Cached(c, j, b);
      }
    }
    forall v | IsView(c, v) ensures IsView(c', v) { RecycledView(c, b, i, v); }
    forall p, x | IsPinned(c, p) && x in p ensures Kept(c', x) {
      assert Kept(c, x);
      var j :| Cached(c, j, x) && c.bufs[j].dirty && c.bufs[j].valid;
      assert Cached(c', j, x) && c'.bufs[j].dirty && c'.bufs[j].valid;
    }
  }

  lemma RecycledView(c: Cache, b: nat, i: nat, v: Disk)
    requires Inv(c) && i < NBUF && Evictable(c.bufs[i]) && b < |c.disk| && Uncached(c, b)
    requires IsView(c, v)
    ensures IsView(c.(bufs := c.bufs[i := Buf(DISKDEV, b, 1, true, false, c.disk[b])]), v)
  {
    var c' := c.(bufs := c.bufs[i := Buf(DISKDEV, b, 1, true, false, c.disk[b])]);
    forall x: nat | x < |v| && Uncached(c', x) ensures v[x] == c'.disk[x] {
      forall j | Cached(c, j, x) && j != i ensures false { assert Cached(c', j, x); }
      if Cached(c, i, x) {
        assert BufInv(c.bufs[i], c.disk);
      } else {
        assert Uncached(c, x);
      }
    }
  }

  /** The buffer of block b is replaced by one that is valid and pinned. */
  lemma UpdateKeeps(c: Cache, i: nat, data: Block, v: Disk, pinned: set<nat>)
    requires Inv(c) && IsView(c, v) && IsPinned(c, pinned) && i < NBUF && c.bufs[i].dev == DISKDEV
    ensures var b, c' := c.bufs[i].blockno, Update(c, i, data);
            b < |v| && Inv(c') && IsView(c', v[b := data]) && IsPinned(c', pinned + {b}) && c'.disk == c.disk
  {
    var b, c' := c.bufs[i].blockno, Update(c, i, data);
    assert BufInv(c.bufs[i], c.disk);
    SameCached(c, c');
    forall x | x in pinned + {b} ensures Kept(c', x) {
      if x == b {
        assert Cached(c', i, x);
      } else {
        assert Kept(c, x);
      var j :| Cached(c, j, x) && c.bufs[j].dirty && c.bufs[j].valid;
        assert Cached(c', j, x) && c'.bufs[j].dirty && c'.bufs[j].valid;
      }
    }
    assert Cached(c', i, b);
  }

  lemma WriteThroughKeeps(c: Cache, i: nat, data: Block, v: Disk, pinned: set<nat>)
    requires Inv(c) && IsView(c, v) && IsPinned(c, pinned) && i < NBUF && c.bufs[i].dev == DISKDEV
    ensures var b := c.bufs[i].blockno;
            && b < |v| && var c' := WriteThrough(c, i, data);
            && Inv(c') && IsView(c', v[b := data]) && IsPinned(c', pinned - {b}) && c'.disk == c.disk[b := data]
  {
    assert BufInv(c.bufs[i], c.disk);
    var b, c' := c.bufs[i].blockno, WriteThrough(c, i, data);
    SameCached(c, c');
    assert Cached(c', i, b);
    forall j | 0 <= j < NBUF && j != i ensures BufInv(c'.bufs[j], c'.disk) {
      assert BufInv(c.bufs[j], c.disk);
    }
    forall x | x in pinned - {b} ensures Kept(c', x) {
      assert Kept(c, x);
      var j :| Cached(c, j, x) && c.bufs[j].dirty && c.bufs[j].valid;
      assert Cached(c', j, x) && c'.bufs[j].dirty && c'.bufs[j].valid;
    }
  }

  lemma {:induction false} WithoutOne(s: seq<nat>, i: nat)
    requires i in s && forall j, k :: 0 <= j < k < |s| ==> s[j] != s[k]
    ensures var r := Without(s, i);
            && |r| == |s| - 1 && (forall x :: x in r <==> x in s && x != i)
            && (forall j, k :: 0 <= j < k < |r| ==> r[j] != r[k])
  {
    if s[0] != i {
      WithoutOne(s[1..], i);
      var r := Without(s[1..], i);
      assert s == [s[0]] + s[1..];
      assert s[0] !in s[1..];
      assert forall k :: 0 <= k < |r| ==> r[k] in r;
    } else {
      assert s == [i] + s[1..];
    }
  }

  lemma FrontPermutes(s: seq<nat>, i: nat)
    requires IsPermutation(s, NBUF) && i < NBUF
    ensures IsPermutation(MoveToFront(s, i), NBUF)
  {
    var k := Position(s, NBUF, i);
    WithoutOne(s, i);
    var r := Without(s, i);
    assert forall k :: 0 <= k < |r| ==> r[k] in r;
  }

  lemma BrelseKeeps(c: Cache, i: nat)
    requires Inv(c) && i < NBUF && c.bufs[i].dev == DISKDEV && c.bufs[i].refcnt > 0
    ensures Inv(Brelse(c, i)) && Same(c, Brelse(c, i))
  {
    Rereferenced(c, i, c.bufs[i].refcnt - 1);
    var c1 := c.(bufs := c.bufs[i := c.bufs[i].(refcnt := c.bufs[i].refcnt - 1)]);
    FrontPermutes(c.mru, i);
    Relisted(c1, Brelse(c, i).mru);
  }

  /** The order of the list is invisible. */
  lemma Relisted(c: Cache, mru: seq<nat>)
    requires Inv(c) && IsPermutation(mru, NBUF)
    ensures Inv(c.(mru := mru)) && Same(c, c.(mru := mru))
  {
    var c' := c.(mru := mru);
    SameCached(c, c');
    forall x: nat ensures Kept(c, x) ==> Kept(c', x) {
      if Kept(c, x) {
        var j :| Cached(c, j, x) && c.bufs[j].dirty && c.bufs[j].valid;
        assert Cached(c', j, x) && c'.bufs[j].dirty && c'.bufs[j].valid;
      }
    }
  }

  /** Away from the pinned blocks callers see what is on the disk. */
  lemma CleanSame(c: Cache, v: Disk, pinned: set<nat>, b: nat)
    requires Inv(c) && IsView(c, v) && IsPinned(c, pinned) && b < |v| && b !in pinned
    ensures v[b] == c.disk[b]
  {
    if !Uncached(c, b) {
      var i :| Cached(c, i, b);
      assert BufInv(c.bufs[i], c.disk);
    }
  }
}
