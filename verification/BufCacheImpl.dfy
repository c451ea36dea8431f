/** bio.c as it runs: an array of buffers on a doubly linked list that is relinked in place.
    Buffers are numbered 0..NBUF-1; number NBUF is the list head. */
module BufCacheImpl {
  import opened Common
  import opened Blocks
  import opened LogSpec
  import opened BufCache
  import CacheRun

  const HEAD: nat := NBUF

  ghost function Ring(s: seq<nat>): seq<nat> { [HEAD] + s + [HEAD] }

  ghost predicate IsList(s: seq<nat>) {
    && (forall i :: 0 <= i < |s| ==> s[i] < NBUF)
    && (forall i, j :: 0 <= i < j < |s| ==> s[i] != s[j])
  }

  /** next and prev link the buffers of s, in order, into a ring through the head. */
  ghost predicate Links(next: seq<nat>, prev: seq<nat>, s: seq<nat>) {
    && |next| == |prev| == NBUF + 1 && IsList(s)
    && forall k :: 0 <= k <= |s| ==> next[Ring(s)[k]] == Ring(s)[k + 1] && prev[Ring(s)[k + 1]] == Ring(s)[k]
  }

  lemma InsertLinks(next: seq<nat>, prev: seq<nat>, s: seq<nat>, b: nat)
    requires Links(next, prev, s) && b < NBUF && b !in s
    ensures next[HEAD] <= NBUF
    ensures Links(next[b := next[HEAD]][HEAD := b], prev[b := HEAD][next[HEAD] := b], [b] + s)
  {
    var t := [b] + s;
    assert Ring(s)[0] == HEAD && Ring(s)[1] == next[HEAD];
    var next', prev' := next[b := next[HEAD]][HEAD := b], prev[b := HEAD][next[HEAD] := b];
    forall k | 0 <= k <= |t| ensures next'[Ring(t)[k]] == Ring(t)[k + 1] && prev'[Ring(t)[k + 1]] == Ring(t)[k] {
      if k > 0 { assert Ring(t)[k + 1] == Ring(s)[k]; }
      if k > 1 { assert Ring(t)[k] == Ring(s)[k - 1] == s[k - 2]; }
    }
  }

  lemma UnlinkLinks(next: seq<nat>, prev: seq<nat>, s: seq<nat>, p: nat)
    requires Links(next, prev, s) && p < |s|
    ensures next[s[p]] <= NBUF && prev[s[p]] <= NBUF
    ensures Links(next[prev[s[p]] := next[s[p]]], prev[next[s[p]] := prev[s[p]]], s[..p] + s[p + 1..])
  {
    var b, t := s[p], s[..p] + s[p + 1..];
    assert Ring(s)[p + 1] == b && prev[b] == Ring(s)[p] && next[b] == Ring(s)[p + 2];
    var next', prev' := next[prev[b] := next[b]], prev[next[b] := prev[b]];
    forall k | 0 <= k <= |t| ensures next'[Ring(t)[k]] == Ring(t)[k + 1] && prev'[Ring(t)[k + 1]] == Ring(t)[k] {
      var k' := if k < p then k else k + 1;
      assert Ring(t)[k + 1] == Ring(s)[k' + 1];
      assert k != p ==> Ring(t)[k] == Ring(s)[k'];
    }
  }

  lemma {:induction false} WithoutAt(s: seq<nat>, p: nat)
    requires p < |s| && forall i :: 0 <= i < p ==> s[i] != s[p]
    ensures Without(s, s[p]) == s[..p] + s[p + 1..]
  {
    if p > 0 {
      var t, q := s[1..], p - 1;
      assert t[q] == s[p];
      WithoutAt(t, q);
      assert s[..p] == [s[0]] + t[..q] && s[p + 1..] == t[q + 1..];
    }
  }

  /** Held buffers still hold their blocks. */
  ghost predicate StayPut(bufs: seq<Buf>, bufs': seq<Buf>) {
    && |bufs'| == |bufs|
    && forall j :: 0 <= j < |bufs| && bufs[j].refcnt > 0 ==>
         Holds(bufs'[j], bufs[j].dev, bufs[j].blockno) && bufs'[j].refcnt > 0
  }

  /** Somebody holds block b in buffer i. */
  ghost predicate Taken(bufs: seq<Buf>, i: nat, b: nat) {
    i < |bufs| == NBUF && Holds(bufs[i], DISKDEV, b) && bufs[i].refcnt > 0
  }

  /** Buffer i has one more reference. */
  ghost predicate Took(bufs: seq<Buf>, i: nat, bufs': seq<Buf>) {
    i < |bufs| && Refs(bufs') == Refs(bufs)[i := Refs(bufs)[i] + 1]
  }

  /** Buffer i has one reference less. */
  ghost predicate Gave(bufs: seq<Buf>, i: nat, bufs': seq<Buf>) {
    i < |bufs| && Refs(bufs)[i] > 0 && Refs(bufs') == Refs(bufs)[i := Refs(bufs)[i] - 1]
  }

  lemma BreadTook(c: Cache, b: nat)
    requires Inv(c) && b < |c.disk| && BufCache.Bread(c, b).Some?
    ensures var (c', i) := BufCache.Bread(c, b).value; Took(c.bufs, i, c'.bufs)
  {
    var (c', i) := BufCache.Bread(c, b).value;
    assert c'.bufs == c.bufs[i := c'.bufs[i]] && c'.bufs[i].refcnt == c.bufs[i].refcnt + 1;
    UpdatedRefs(c.bufs, i, c'.bufs[i]);
  }

  lemma UpdatedRefs(bufs: seq<Buf>, i: nat, b: Buf)
    requires i < |bufs|
    ensures Refs(bufs[i := b]) == Refs(bufs)[i := b.refcnt]
  {
  }

  lemma BreadStays(c: Cache, b: nat)
    requires Inv(c) && b < |c.disk| && BufCache.Bread(c, b).Some?
    ensures StayPut(c.bufs, BufCache.Bread(c, b).value.0.bufs)
  {
    var c' := BufCache.Bread(c, b).value.0;
    forall j: nat | j < NBUF && c.bufs[j].refcnt > 0
      ensures Holds(c'.bufs[j], c.bufs[j].dev, c.bufs[j].blockno) && c'.bufs[j].refcnt > 0
    {
      HeldStay(c, b, j);
    }
  }

  lemma BreadRefines(c: Cache, b: nat, v: Disk, pinned: set<nat>)
    requires CacheRun.Refines(c, v, c.disk, pinned) && b < |c.disk| && BufCache.Bread(c, b).Some?
    ensures var (c', i) := BufCache.Bread(c, b).value;
            && CacheRun.Refines(c', v, c.disk, pinned) && i < |c'.bufs| == NBUF && Holds(c'.bufs[i], DISKDEV, b)
            && c'.bufs[i].refcnt > 0 && b < |v| && c'.bufs[i].data == v[b]
  {
    BreadKeeps(c, b, v);
  }

  lemma BreadGives(c: Cache, b: nat, v: Disk, pinned: set<nat>, c': Cache, i: nat)
    requires CacheRun.Refines(c, v, c.disk, pinned) && b < |c.disk| && BufCache.Bread(c, b) == Some((c', i))
    ensures CacheRun.Refines(c', v, c.disk, pinned) && Taken(c'.bufs, i, b) && b < |v| && c'.bufs[i].data == v[b]
    ensures Took(c.bufs, i, c'.bufs) && StayPut(c.bufs, c'.bufs)
  {
    BreadRefines(c, b, v, pinned);
    BreadTook(c, b);
    BreadStays(c, b);
  }

  /** The buffers that bget cannot recycle do not fill the cache, or the block needs none. */
  ghost predicate RoomFor(bufs: seq<Buf>, pinned: set<nat>, b: nat) {
    b in pinned || |pinned| + |InUse(Refs(bufs))| < NBUF
  }

  lemma RoomSuffices(c: Cache, pinned: set<nat>, b: nat)
    requires Inv(c) && IsPinned(c, pinned) && b < |c.disk| && RoomFor(c.bufs, pinned, b)
    ensures BufCache.Bread(c, b).Some?
  {
    if b in pinned { CacheRun.PinnedHit(c, pinned, b); } else { CacheRun.VictimExists(c, pinned, b); }
  }

  class BCache {
    const bufs: array<Buf>
    const next: array<nat>
    const prev: array<nat>
    var disk: Disk
    ghost var mru: seq<nat>     // the list, most recently used first
    ghost var view: Disk        // the disk as callers of bread see it
    ghost var pinned: set<nat>  // blocks logged and not yet written home
    ghost var trace: seq<Write> // every block write, oldest first
    ghost const origin: Disk    // the disk before them

    ghost function Abs(): Cache
      reads this, bufs
    {
      Cache(bufs[..], mru, disk)
    }

    ghost predicate Linked()
      reads this, next, prev
    {
      && bufs.Length == NBUF && next.Length == NBUF + 1 && prev.Length == NBUF + 1 && next != prev
      && |mru| == NBUF && Links(next[..], prev[..], mru)
    }

    ghost predicate Valid()
      reads this, bufs, next, prev
    {
      var valid := && Linked() && CacheRun.Refines(Abs(), view, disk, pinned)
                   && InRange(origin, trace) && disk == Apply(origin, trace);
      valid
    }

    /** binit */
    constructor (d: Disk)
      ensures Valid() && fresh(bufs) && fresh(next) && fresh(prev)
      ensures Abs() == CacheRun.Binit(d) && view == disk == d && pinned == {} && trace == [] && origin == d
    {
      origin := d;
      bufs := new Buf[NBUF](_ => Buf(0, 0, 0, false, false, ZeroBlock()));
      next := new nat[NBUF + 1](_ => HEAD);
      prev := new nat[NBUF + 1](_ => HEAD);
      disk, view, pinned, trace := d, d, {}, [];
      mru := [];
      new;
      var b: nat := 0;
      while b < NBUF
        invariant b <= NBUF && Links(next[..], prev[..], mru)
        invariant mru == seq(b, i requires 0 <= i < b => b - 1 - i)
        invariant bufs[..] == CacheRun.Binit(d).bufs
        invariant disk == view == d && pinned == {} && trace == []
      {
        InsertLinks(next[..], prev[..], mru, b);
        ghost var n0: seq<nat>, p0: seq<nat> := next[..], prev[..];
        next[b] := next[HEAD];
        prev[b] := HEAD;
        prev[next[HEAD]] := b;
        next[HEAD] := b;
        assert next[..] == n0[b := n0[HEAD]][HEAD := b] && prev[..] == p0[b := HEAD][n0[HEAD] := b];
        mru := [b] + mru;
        b := b + 1;
      }
      CacheRun.BinitInv(d);
    }

    /** bget's first loop, from the most recently used buffer on. */
    method FindCached(blockno: nat) returns (r: Option<nat>)
      requires Linked() && Shaped(Abs())
      ensures r == FirstHit(Abs(), DISKDEV, blockno, 0)
    {
      var b := next[HEAD];
      assert Ring(mru)[0] == HEAD && b == Ring(mru)[1];
      ghost var k := 0;
      while b != HEAD
        invariant 0 <= k <= NBUF && b == Ring(mru)[k + 1]
        invariant FirstHit(Abs(), DISKDEV, blockno, 0) == FirstHit(Abs(), DISKDEV, blockno, k)
        decreases NBUF - k
      {
        assert b == mru[k];
        if bufs[b].dev == DISKDEV && bufs[b].blockno == blockno {
          return Some(b);
        }
        b := next[b];
        k := k + 1;
      }
      return None;
    }

    /** bget's second loop, from the least recently used buffer back. */
    method FindVictim() returns (r: Option<nat>)
      requires Linked() && Shaped(Abs())
      ensures r == LastFree(Abs(), NBUF)
    {
      var b := prev[HEAD];
      ghost var k := NBUF;
      assert prev[Ring(mru)[NBUF + 1]] == Ring(mru)[NBUF];
      while b != HEAD
        invariant 0 <= k <= NBUF && b == Ring(mru)[k]
        invariant LastFree(Abs(), NBUF) == LastFree(Abs(), k)
        decreases k
      {
        assert b == mru[k - 1];
        if bufs[b].refcnt == 0 && !bufs[b].dirty {
          return Some(b);
        }
        assert prev[Ring(mru)[k]] == Ring(mru)[k - 1];
        b := prev[b];
        k := k - 1;
      }
      return None;
    }

    method Bget(blockno: nat) returns (r: Option<nat>)
      requires Linked() && Shaped(Abs())
      modifies bufs
      ensures Linked()
      ensures BufCache.Bget(old(Abs()), blockno) == if r.Some? then Some((Abs(), r.value)) else None
      ensures r.None? ==> Abs() == old(Abs())
    {
      r := FindCached(blockno);
      if r.Some? {
        bufs[r.value] := bufs[r.value].(refcnt := bufs[r.value].refcnt + 1);
        return;
      }
      r := FindVictim();
      if r.Some? {
        bufs[r.value] := Buf(DISKDEV, blockno, 1, false, false, bufs[r.value].data);
      }
    }

    /** iderw, with its panics: false when there is nothing to do, for another device, or beyond
        the disk. A dirty buffer is written and becomes clean; otherwise an invalid one is read. */
    method Iderw(i: nat) returns (ok: bool)
      requires Linked() && i < NBUF
      modifies this`disk, this`trace, bufs
      ensures Linked()
      ensures var b := old(bufs[i]);
              && ok == ((b.dirty || !b.valid) && b.dev == DISKDEV && b.blockno < |old(disk)|)
              && (ok && b.dirty ==> Abs() == WriteThrough(old(Abs()), i, b.data) &&
                                    trace == old(trace) + [Write(b.blockno, b.data)])
              && (ok && !b.dirty ==> bufs[..] == old(bufs[..])[i := b.(valid := true, data := old(disk)[b.blockno])] &&
                                     disk == old(disk) && trace == old(trace))
              && (!ok ==> Abs() == old(Abs()) && trace == old(trace))
    {
      var b := bufs[i];
      if b.valid && !b.dirty { return false; }
      if b.dev != DISKDEV { return false; }
      if b.blockno >= |disk| { return false; }
      if b.dirty {
        b := b.(dirty := false);
        disk := disk[b.blockno := b.data];
        trace := trace + [Write(b.blockno, b.data)];
      } else {
        b := b.(data := disk[b.blockno]);
      }
      bufs[i] := b.(valid := true);
      ok := true;
    }

    /** bget, and iderw for a buffer that was not read yet. */
    method Fetch(blockno: nat) returns (r: Option<nat>)
      requires Linked() && Inv(Abs()) && blockno < |disk|
      modifies this`disk, this`trace, bufs
      ensures Linked() && disk == old(disk) && trace == old(trace)
      ensures BufCache.Bread(old(Abs()), blockno) == if r.Some? then Some((Abs(), r.value)) else None
      ensures r.None? ==> Abs() == old(Abs())
    {
      ghost var c := Abs();
      r := Bget(blockno);
      if r.Some? {
        GotBuffer(c, blockno);
        if !bufs[r.value].valid {
          var ok := Iderw(r.value);
        }
      }
    }

    /** bread: the buffer returned holds the last contents written to the block, and buffers
        already held stay where they are. */
    method Bread(blockno: nat) returns (r: Option<nat>)
      requires Valid() && blockno < |disk|
      modifies this`disk, this`trace, bufs
      ensures Valid() && disk == old(disk) && trace == old(trace)
      ensures BufCache.Bread(old(Abs()), blockno) == if r.Some? then Some((Abs(), r.value)) else None
      ensures r.None? ==> Abs() == old(Abs())
      ensures r.Some? ==> Taken(bufs[..], r.value, blockno) && bufs[r.value].data == view[blockno]
      ensures r.Some? ==> Took(old(bufs[..]), r.value, bufs[..])
      ensures old(RoomFor(bufs[..], pinned, blockno)) ==> r.Some?
      ensures StayPut(old(bufs[..]), bufs[..])
    {
      ghost var c := Abs();
      if RoomFor(bufs[..], pinned, blockno) { RoomSuffices(c, pinned, blockno); }
      r := Fetch(blockno);
      if r.Some? {
        BreadGives(c, blockno, view, pinned, Abs(), r.value);
      }
    }

    /** bread as its callers know it. */
    method Take(blockno: nat) returns (r: Option<nat>)
      requires Valid() && blockno < |disk|
      modifies this`disk, this`trace, bufs
      ensures Valid() && disk == old(disk) && trace == old(trace) && StayPut(old(bufs[..]), bufs[..])
      ensures old(RoomFor(bufs[..], pinned, blockno)) ==> r.Some?
      ensures r.Some? ==> Taken(bufs[..], r.value, blockno) && bufs[r.value].data == view[blockno]
      ensures r.Some? ==> Took(old(bufs[..]), r.value, bufs[..])
    {
      r := Bread(blockno);
    }

    /** A holder overwrites the contents of its buffer and calls bwrite. */
    method Bwrite(i: nat, data: Block)
      requires Valid() && i < NBUF && bufs[i].dev == DISKDEV && bufs[i].refcnt > 0
      modifies this`disk, this`trace, this`view, this`pinned, bufs
      ensures Valid()
      ensures var b := old(bufs[i].blockno);
              && b < |old(disk)|
              && bufs[..] == old(bufs[..])[i := old(bufs[i]).(data := data, dirty := false)]
              && disk == old(disk)[b := data] && view == old(view)[b := data] && pinned == old(pinned) - {b}
              && trace == old(trace) + [Write(b, data)]
      ensures Refs(bufs[..]) == old(Refs(bufs[..]))
    {
      ghost var c := Abs();
      WriteThroughKeeps(c, i, data, view, pinned);
      ApplySnoc(origin, trace, Write(c.bufs[i].blockno, data));
      bufs[i] := bufs[i].(data := data, dirty := true);
      var ok := Iderw(i);
      assert bufs[..] == WriteThrough(c, i, data).bufs;
      view, pinned := view[c.bufs[i].blockno := data], pinned - {c.bufs[i].blockno};
    }

    /** A holder overwrites the contents of its buffer and log_write sets B_DIRTY. */
    method Pin(i: nat, data: Block)
      requires Valid() && i < NBUF && bufs[i].dev == DISKDEV && bufs[i].refcnt > 0
      modifies this`view, this`pinned, bufs
      ensures Valid()
      ensures var b := old(bufs[i].blockno);
              && b < |old(view)|
              && bufs[..] == old(bufs[..])[i := old(bufs[i]).(data := data, dirty := true)]
              && view == old(view)[b := data] && pinned == old(pinned) + {b}
      ensures Refs(bufs[..]) == old(Refs(bufs[..]))
    {
      ghost var c := Abs();
      UpdateKeeps(c, i, data, view, pinned);
      bufs[i] := bufs[i].(data := data, dirty := true);
      view, pinned := view[c.bufs[i].blockno := data], pinned + {c.bufs[i].blockno};
    }

    /** brelse: the last reference moves the buffer to the head of the list. */
    method Brelse(i: nat)
      requires Valid() && i < NBUF && bufs[i].dev == DISKDEV && bufs[i].refcnt > 0
      modifies this`mru, bufs, next, prev
      ensures Valid() && bufs[..] == old(bufs[..])[i := old(bufs[i]).(refcnt := old(bufs[i].refcnt) - 1)]
      ensures mru == if bufs[i].refcnt == 0 then MoveToFront(old(mru), i) else old(mru)
      ensures Gave(old(bufs[..]), i, bufs[..])
    {
      ghost var c := Abs();
      BrelseKeeps(c, i);
      UpdatedRefs(c.bufs, i, c.bufs[i].(refcnt := c.bufs[i].refcnt - 1));
      bufs[i] := bufs[i].(refcnt := bufs[i].refcnt - 1);
      if bufs[i].refcnt == 0 {
        Relink(i);
      }
    }

    method Relink(i: nat)
      requires Linked() && i < NBUF && IsPermutation(mru, NBUF)
      modifies this`mru, next, prev
      ensures Linked() && mru == MoveToFront(old(mru), i)
    {
      ghost var p := Position(mru, NBUF, i);
      ghost var n0: seq<nat>, p0: seq<nat> := next[..], prev[..];
      UnlinkLinks(n0, p0, mru, p);
      prev[next[i]] := prev[i];
      next[prev[i]] := next[i];
      ghost var rest := mru[..p] + mru[p + 1..];
      assert next[..] == n0[p0[i] := n0[i]] && prev[..] == p0[n0[i] := p0[i]];
      WithoutAt(mru, p);
      WithoutOne(mru, i);
      InsertLinks(next[..], prev[..], rest, i);
      ghost var n1: seq<nat>, p1: seq<nat> := next[..], prev[..];
      next[i] := next[HEAD];
      prev[i] := HEAD;
      prev[next[HEAD]] := i;
      next[HEAD] := i;
      assert next[..] == n1[i := n1[HEAD]][HEAD := i] && prev[..] == p1[i := HEAD][n1[HEAD] := i];
      mru := [i] + rest;
    }
  }
}
