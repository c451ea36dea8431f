/** Every run of the buffer cache refines a plain disk. */
module CacheRun {
  import opened Common
  import opened Blocks
  import opened LogSpec
  import opened BufCache

  datatype Event =
    | Read(b: nat)              // bread
    | Log(b: nat, data: Block)  // change a held buffer and log_write it
    | Put(b: nat, data: Block)  // change a held buffer and bwrite it
    | Release(b: nat)           // brelse

  /** binit: no buffer holds a block yet; each was pushed at the head in turn. */
  function Binit(d: Disk): Cache {
    Cache(seq(NBUF, _ => Buf(0, 0, 0, false, false, ZeroBlock())),
          seq(NBUF, i requires 0 <= i < NBUF => NBUF - 1 - i), d)
  }

  /** The buffer through which a holder of block b works. */
  function Held(c: Cache, b: nat): (r: Option<nat>)
    requires Shaped(c)
    ensures r.Some? ==> r.value < NBUF && Holds(c.bufs[r.value], DISKDEV, b) && c.bufs[r.value].refcnt > 0
  {
    match FirstHit(c, DISKDEV, b, 0)
    case Some(i) => if c.bufs[i].refcnt > 0 then Some(i) else None
    case None => None
  }

  /** One atomic step; None is a panic: no buffers, a block beyond the disk, or a buffer not held. */
  function Step(c: Cache, e: Event): Option<Cache> {
    if !Shaped(c) || e.b >= |c.disk| then None
    else if e.Read? then
      (match Bread(c, e.b) case Some(p) => Some(p.0) case None => None)
    else
      match Held(c, e.b)
      case None => None
      case Some(i) =>
        match e
        case Log(_, data) => Some(Update(c, i, data))
        case Put(_, data) => Some(WriteThrough(c, i, data))
        case Release(_) => Some(Brelse(c, i))
  }

  function Run(d: Disk, es: seq<Event>): Option<Cache> {
    if es == [] then Some(Binit(d))
    else
      match Run(d, es[..|es| - 1])
      case None => None
      case Some(c) => Step(c, es[|es| - 1])
  }

  // ---- the plain disk ----

  /** What a reader of block numbers must see: the last contents written, by either kind of write. */
  function Contents(d: Disk, es: seq<Event>): (r: Disk)
    ensures |r| == |d|
  {
    if es == [] then d
    else
      var r, e := Contents(d, es[..|es| - 1]), es[|es| - 1];
      if (e.Log? || e.Put?) && e.b < |d| then r[e.b := e.data] else r
  }

  /** What is on the disk itself: only bwrite gets there. */
  function Stored(d: Disk, es: seq<Event>): (r: Disk)
    ensures |r| == |d|
  {
    if es == [] then d
    else
      var r, e := Stored(d, es[..|es| - 1]), es[|es| - 1];
      if e.Put? && e.b < |d| then r[e.b := e.data] else r
  }

  /** Blocks logged and not yet written home. */
  function Pinned(es: seq<Event>): set<nat> {
    if es == [] then {}
    else
      var r, e := Pinned(es[..|es| - 1]), es[|es| - 1];
      if e.Log? then r + {e.b} else if e.Put? then r - {e.b} else r
  }

  lemma BinitInv(d: Disk)
    ensures Inv(Binit(d)) && IsView(Binit(d), d) && IsPinned(Binit(d), {})
  {
  }

  ghost predicate Refines(c: Cache, v: Disk, stored: Disk, pinned: set<nat>) {
    Inv(c) && IsView(c, v) && c.disk == stored && IsPinned(c, pinned)
  }

  lemma StepRefines(c: Cache, e: Event, v: Disk, stored: Disk, pinned: set<nat>)
    requires Refines(c, v, stored, pinned) && Step(c, e).Some?
    ensures e.b < |v| == |stored|
    ensures Refines(Step(c, e).value,
                    if e.Log? || e.Put? then v[e.b := e.data] else v,
                    if e.Put? then stored[e.b := e.data] else stored,
                    if e.Log? then pinned + {e.b} else if e.Put? then pinned - {e.b} else pinned)
  {
    if e.Read? {
      BreadKeeps(c, e.b, v);
    } else {
      var i := Held(c, e.b).value;
      if e.Log? { UpdateKeeps(c, i, e.data, v, pinned); }
      if e.Put? { WriteThroughKeeps(c, i, e.data, v, pinned); }
      if e.Release? { BrelseKeeps(c, i); }
    }
  }

  /** The cache refines the plain disk in every run: the list stays a permutation of all buffers, no
      block has two buffers, the disk gets exactly what bwrite wrote, and logged blocks stay
      cached, valid and dirty until they are written. */
  lemma {:induction false} CacheRefinesDisk(d: Disk, es: seq<Event>)
    requires Run(d, es).Some?
    ensures Refines(Run(d, es).value, Contents(d, es), Stored(d, es), Pinned(es))
  {
    if es == [] {
      BinitInv(d);
    } else {
      var rest, e := es[..|es| - 1], es[|es| - 1];
      CacheRefinesDisk(d, rest);
      StepRefines(Run(d, rest).value, e, Contents(d, rest), Stored(d, rest), Pinned(rest));
    }
  }

  /** bread always returns the last contents written. */
  lemma ReadsLastWrite(d: Disk, es: seq<Event>, b: nat)
    requires Run(d, es).Some? && b < |d|
    ensures var c := Run(d, es).value;
            && Inv(c) && |c.disk| == |d|
            && (Bread(c, b).Some? ==>
                  var (c', i) := Bread(c, b).value;
                  i < |c'.bufs| && Holds(c'.bufs[i], DISKDEV, b) && c'.bufs[i].data == Contents(d, es)[b])
  {
    CacheRefinesDisk(d, es);
    var c := Run(d, es).value;
    if Bread(c, b).Some? { BreadKeeps(c, b, Contents(d, es)); }
  }

  // ---- running out of buffers ----

  ghost function DirtyBufs(c: Cache): set<nat> { set i: nat | i < |c.bufs| && c.bufs[i].dirty }

  lemma {:induction false} DirtyAtMostPinned(c: Cache, ids: set<nat>, pinned: set<nat>)
    requires Inv(c) && ids <= DirtyBufs(c)
    requires forall i :: i in ids ==> c.bufs[i].blockno in pinned
    ensures |ids| <= |pinned|
  {
    if ids != {} {
      var i :| i in ids;
      var b := c.bufs[i].blockno;
      forall j | j in ids - {i} ensures c.bufs[j].blockno in pinned - {b} {
        assert BufInv(c.bufs[i], c.disk) && BufInv(c.bufs[j], c.disk);
      }
      DirtyAtMostPinned(c, ids - {i}, pinned - {b});
    }
  }

  /** bget finds a victim whenever the pinned blocks and the held buffers do not fill the cache. */
  lemma VictimExists(c: Cache, pinned: set<nat>, b: nat)
    requires Inv(c) && IsPinned(c, pinned) && b < |c.disk|
    requires |pinned| + |InUse(Refs(c.bufs))| < NBUF
    ensures Bread(c, b).Some?
  {
    var held := InUse(Refs(c.bufs));
    if Bread(c, b).None? {
      forall i: nat | i < NBUF ensures i in held + DirtyBufs(c) {
        var k := Position(c.mru, NBUF, i);
        assert !Evictable(c.bufs[c.mru[k]]);
      }
      DirtyAtMostPinned(c, DirtyBufs(c), pinned);
      SubsetSize(Below(NBUF), held + DirtyBufs(c));
      assert false;
    }
  }

  /** A pinned block needs no victim. */
  lemma PinnedHit(c: Cache, pinned: set<nat>, b: nat)
    requires Inv(c) && IsPinned(c, pinned) && b < |c.disk| && b in pinned
    ensures Bread(c, b).Some?
  {
    assert Kept(c, b);
    if FirstHit(c, DISKDEV, b, 0).None? { MissAll(c, b); }
  }
}
