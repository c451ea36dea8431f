/** One operation at a time over the log and the buffer cache never runs out of buffers. */
module CacheBound {
  import opened Common
  import opened Blocks
  import opened LogSpec
  import opened BufCache
  import opened BufCacheImpl
  import opened LogImpl
  import CacheRun
  import LogRun

  /** The deepest nesting of held buffers when another is asked for: itrunc's walk down a triple
      indirect tree. */
  const HELDMAX: nat := 3

  /** What a process asks of the log and the cache. */
  datatype Call =
    | Begin                        // begin_op
    | Read(b: nat)                 // bread
    | Write(b: nat, data: Block)   // change a held buffer and log_write it
    | Release(b: nat)              // brelse
    | End                          // end_op
    | Sync                         // sys_sync

  /** A buffer in use holds the block it is listed for, once. */
  ghost predicate Listed(bufs: seq<Buf>, held: map<nat, nat>, i: nat) {
    i < |bufs| && (bufs[i].refcnt > 0 ==> bufs[i].refcnt == 1 && bufs[i].blockno in held && held[bufs[i].blockno] == i)
  }

  ghost predicate HeldAt(bufs: seq<Buf>, held: map<nat, nat>, b: nat) { b in held && Taken(bufs, held[b], b) }

  // ---- what a process sees: a plain disk behind a plain transaction ----

  /** The contents bread shows, those on the disk, the blocks logged since the last commit, and the process:
      the blocks it holds, whether it is in an operation, and what that operation has logged. */
  datatype Plain = Plain(view: Disk, stored: Disk, lh: seq<nat>, held: set<nat>, inOp: bool, logged: set<nat>)

  /** One call; a call that a process as described above does not make changes nothing. */
  ghost function After(s: Plain, call: Call): (t: Plain)
    ensures |t.view| == |s.view|
  {
    match call
    case Begin => if s.inOp then s else s.(inOp := true, logged := {})
    case Read(b) => if b < |s.view| && b !in s.held && |s.held| <= HELDMAX then s.(held := s.held + {b}) else s
    case Write(b, data) =>
      if s.inOp && b in s.held && IsHome(|s.view|, b) && |s.logged + {b}| <= MAXOPBLOCKS
      then s.(view := s.view[b := data], lh := LogRun.Absorb(s.lh, b), logged := s.logged + {b}) else s
    case Release(b) => s.(held := s.held - {b})
    case End =>
      if !s.inOp || s.held != {} then s
      else if |s.lh| >= 16 then s.(stored := s.view, lh := [], inOp := false, logged := {})
      else s.(inOp := false, logged := {})
    case Sync => if s.inOp || s.held != {} then s else s.(stored := s.view, lh := [], logged := {})
  }

  ghost function AfterAll(s: Plain, calls: seq<Call>): (t: Plain)
    ensures |t.view| == |s.view|
  {
    if calls == [] then s else After(AfterAll(s, calls[..|calls| - 1]), calls[|calls| - 1])
  }

  lemma AfterNext(s: Plain, calls: seq<Call>, k: nat, next: nat)
    requires k < |calls| && next == k + 1
    ensures AfterAll(s, calls[..next]) == After(AfterAll(s, calls[..k]), calls[k])
  {
    assert calls[..next][..k] == calls[..k];
  }

  /** held gives, for each block that is held, its buffer; nobody else holds any. */
  ghost predicate HoldsExactly(bufs: seq<Buf>, held: map<nat, nat>) {
    && (forall b: nat {:trigger HeldAt(bufs, held, b)} :: b in held ==> HeldAt(bufs, held, b))
    && (forall i: nat {:trigger Listed(bufs, held, i)} :: i < |bufs| ==> Listed(bufs, held, i))
  }

  lemma TookHolds(bufs: seq<Buf>, held: map<nat, nat>, i: nat, b: nat, bufs': seq<Buf>)
    requires HoldsExactly(bufs, held) && b !in held && |bufs| == NBUF
    requires Took(bufs, i, bufs') && StayPut(bufs, bufs') && Taken(bufs', i, b)
    ensures HoldsExactly(bufs', held[b := i])
  {
    var held' := held[b := i];
    assert Listed(bufs, held, i);
    assert Refs(bufs)[i] == 0 && Refs(bufs')[i] == 1;
    forall j: nat | j < NBUF ensures Listed(bufs', held', j) {
      assert Listed(bufs, held, j);
      assert j != i ==> Refs(bufs')[j] == Refs(bufs)[j];
    }
    forall x: nat | x in held' ensures HeldAt(bufs', held', x) {
      assert x != b ==> HeldAt(bufs, held, x);
    }
  }

  lemma GaveHolds(bufs: seq<Buf>, held: map<nat, nat>, b: nat)
    requires HoldsExactly(bufs, held) && b in held && |bufs| == NBUF
    ensures held[b] < NBUF && Taken(bufs, held[b], b) && bufs[held[b]].refcnt == 1
    ensures HoldsExactly(bufs[held[b] := bufs[held[b]].(refcnt := 0)], held - {b})
  {
    assert HeldAt(bufs, held, b) && Listed(bufs, held, held[b]);
    var bufs' := bufs[held[b] := bufs[held[b]].(refcnt := 0)];
    forall j: nat | j < NBUF ensures Listed(bufs', held - {b}, j) { assert Listed(bufs, held, j); }
    forall x: nat | x in held - {b} ensures HeldAt(bufs', held - {b}, x) { assert HeldAt(bufs, held, x); }
  }

  lemma Fewer(held: map<nat, nat>, b: nat)
    ensures |held - {b}| <= |held| && (held - {b}).Keys == held.Keys - {b}
  {
    assert (held - {b}).Keys == held.Keys - {b};
    SubsetSize((held - {b}).Keys, held.Keys);
  }

  lemma SameHolds(bufs: seq<Buf>, held: map<nat, nat>, bufs': seq<Buf>)
    requires HoldsExactly(bufs, held) && SameHolders(bufs, bufs')
    ensures HoldsExactly(bufs', held)
  {
    forall j: nat | j < |bufs| ensures Listed(bufs', held, j) {
      assert Listed(bufs, held, j) && Refs(bufs')[j] == Refs(bufs)[j];
    }
    forall x: nat | x in held ensures HeldAt(bufs', held, x) {
      assert HeldAt(bufs, held, x) && Refs(bufs')[held[x]] == Refs(bufs)[held[x]];
    }
  }

  /** With nothing held, only the counts matter. */
  lemma NoneHolds(bufs: seq<Buf>, bufs': seq<Buf>)
    requires HoldsExactly(bufs, map[]) && |bufs'| == |bufs| && Refs(bufs') == Refs(bufs)
    ensures HoldsExactly(bufs', map[])
  {
    forall j: nat | j < |bufs| ensures Listed(bufs', map[], j) {
      assert Listed(bufs, map[], j) && Refs(bufs')[j] == Refs(bufs)[j];
    }
  }

  /** At most as many buffers are in use as blocks are held. */
  lemma {:induction false} InUseAtMost(c: Cache, ids: set<nat>, blocks: set<nat>)
    requires Inv(c) && ids <= InUse(Refs(c.bufs)) && forall i :: i in ids ==> c.bufs[i].blockno in blocks
    ensures |ids| <= |blocks|
  {
    if ids != {} {
      var i :| i in ids;
      var b := c.bufs[i].blockno;
      forall j | j in ids - {i} ensures c.bufs[j].blockno in blocks - {b} {
        assert BufInv(c.bufs[i], c.disk) && BufInv(c.bufs[j], c.disk);
      }
      InUseAtMost(c, ids - {i}, blocks - {b});
    }
  }

  ghost predicate Within(s: set<nat>, q: seq<nat>) { forall x :: x in s ==> x in q }

  /** The only process, which keeps to one operation at a time and to its budget. */
  class Process {
    const log: Log
    var held: map<nat, nat>
    var inOp: bool
    var logged: set<nat>

    /** The transaction is what is pinned; it outgrows half the log only by what this operation logged. */
    ghost predicate Valid()
      reads this, log, log.block, log.cache, log.cache.bufs, log.cache.next, log.cache.prev
    {
      var valid := && log.Ready() && !log.committing && log.outstanding == (if inOp then 1 else 0)
                   && HoldsExactly(log.cache.bufs[..], held) && |held| <= HELDMAX + 1
                   && |logged| <= MAXOPBLOCKS && Within(logged, log.Lh())
                   && log.n <= NLOG / 2 + (if inOp then |logged| else 0);
      valid
    }

    /** The log and the cache show the process the plain state s. */
    ghost predicate Shows(s: Plain)
      reads this, log, log.block, log.cache
    {
      && log.n <= log.block.Length && log.Lh() == s.lh && held.Keys == s.held && inOp == s.inOp && logged == s.logged
      && HomeEq(log.cache.view, s.view) && HomeEq(log.cache.disk, s.stored)
    }

    constructor (l: Log)
      requires l.Ready() && !l.committing && l.outstanding == 0 && l.n <= NLOG / 2
      requires HoldsExactly(l.cache.bufs[..], map[])
      ensures Valid() && log == l && held == map[] && !inOp && logged == {}
    {
      log, held, inOp, logged := l, map[], false, {};
    }

    /** At most 25 blocks are pinned and at most four buffers held, so one is always spare. */
    lemma AlwaysSpare()
      requires Valid()
      ensures log.Spare() >= NBUF - (NLOG / 2 + MAXOPBLOCKS) - |held| > 0
    {
      log.ReadyCommits();
      var c := log.cache.Abs();
      var held', ids := held.Keys, InUse(Refs(c.bufs));
      assert forall i :: i in ids ==> Listed(c.bufs, held, i);
      InUseAtMost(c, ids, held');
    }

    /** bread, with at most three other buffers held: there is a buffer, and it shows the last contents
        written. */
    method Read(b: nat) returns (r: Option<nat>)
      requires Valid() && b < |log.cache.disk| && b !in held && |held| <= HELDMAX
      modifies this`held, log.cache`disk, log.cache`trace, log.cache.bufs
      ensures Valid() && r.Some? && held == old(held)[b := r.value] && log.cache.disk == old(log.cache.disk)
      ensures r.value < NBUF && log.cache.bufs[r.value].data == log.cache.view[b]
    {
      ghost var bufs := log.cache.bufs[..];
      AlwaysSpare();
      r := log.cache.Take(b);
      TookHolds(bufs, held, r.value, b, log.cache.bufs[..]);
      held := held[b := r.value];
    }

    /** log_write of a held block with room for one more. */
    method Put(b: nat, data: Block) returns (ok: bool)
      requires log.Ready() && log.n < 29 && log.outstanding >= 1
      requires HoldsExactly(log.cache.bufs[..], held) && b in held && IsHome(|log.cache.disk|, b)
      modifies log`n, log.block, log.cache, log.cache.bufs
      ensures ok && log.Ready() && HoldsExactly(log.cache.bufs[..], held) && log.cache.disk == old(log.cache.disk)
      ensures log.Lh() == LogRun.Absorb(old(log.Lh()), b) && log.cache.view == old(log.cache.view)[b := data]
    {
      ghost var bufs := log.cache.bufs[..];
      assert HeldAt(bufs, held, b);
      var k := held[b];
      assert log.cache.bufs[k].blockno == b;
      ok := log.LogWrite(k, data);
      assert ok;
      SameHolds(bufs, held, log.cache.bufs[..]);
    }

    /** log_write of a held block within the budget: no panic. */
    method Write(b: nat, data: Block) returns (ok: bool)
      requires Valid() && inOp && b in held && IsHome(|log.cache.disk|, b) && |logged + {b}| <= MAXOPBLOCKS
      modifies this`logged, log`n, log.block, log.cache, log.cache.bufs
      ensures Valid() && ok && log.cache.view == old(log.cache.view)[b := data] && logged == old(logged) + {b}
      ensures log.Lh() == LogRun.Absorb(old(log.Lh()), b) && log.cache.disk == old(log.cache.disk)
    {
      Counted(log.Lh(), logged, b);
      ok := Put(b, data);
      logged := logged + {b};
    }

    /** brelse */
    method Release(b: nat)
      requires Valid() && b in held
      modifies this`held, log.cache`mru, log.cache.bufs, log.cache.next, log.cache.prev
      ensures Valid() && held == old(held) - {b} && held.Keys == old(held).Keys - {b}
      ensures log.Lh() == old(log.Lh())
    {
      ghost var bufs := log.cache.bufs[..];
      var i := held[b];
      GaveHolds(bufs, held, b);
      Fewer(held, b);
      held := held - {b};
      log.Brelse(i);
    }

    method Begin() returns (go: bool)
      requires Valid() && !inOp
      modifies this`inOp, this`logged, log`outstanding
      ensures Valid() && go && inOp && logged == {}
    {
      go := log.BeginOp();
      inOp, logged := true, {};
    }

    /** end_op with nothing held: if it commits, the commit runs through. */
    method End() returns (ok: bool)
      requires Valid() && inOp && held == map[]
      modifies this`inOp, this`logged, log, log.cache, log.cache.bufs, log.cache.next, log.cache.prev
      ensures Valid() && ok && !inOp && logged == {} && HomeEq(log.cache.view, old(log.cache.view))
      ensures if old(log.n) >= 16 then log.n == 0 && HomeEq(log.cache.disk, old(log.cache.view))
              else log.Lh() == old(log.Lh()) && log.cache.disk == old(log.cache.disk)
    {
      ghost var bufs := log.cache.bufs[..];
      AlwaysSpare();
      var committed;
      ok, committed := log.EndOp();
      NoneHolds(bufs, log.cache.bufs[..]);
      inOp, logged := false, {};
    }

    /** sys_sync between operations with nothing held: it runs through. */
    method Sync() returns (ok: bool)
      requires Valid() && !inOp && held == map[]
      modifies this`logged, log`n, log.cache, log.cache.bufs, log.cache.next, log.cache.prev
      ensures Valid() && ok && log.n == 0 && logged == {}
      ensures HomeEq(log.cache.disk, old(log.cache.view)) && HomeEq(log.cache.view, old(log.cache.view))
    {
      ghost var bufs := log.cache.bufs[..];
      AlwaysSpare();
      var r;
      ok, r := log.Sync();
      NoneHolds(bufs, log.cache.bufs[..]);
      logged := {};
    }

    /** Any calls at all: no bread finds the cache full, no panic of the log is reached, and the process sees
        what the plain disk would show it. */
    method Serve(calls: seq<Call>, ghost s: Plain) returns (panicked: bool)
      requires Valid() && Shows(s)
      modifies this, log, log.block, log.cache, log.cache.bufs, log.cache.next, log.cache.prev
      ensures Valid() && !panicked && Shows(AfterAll(s, calls))
    {
      panicked := false;
      var k := 0;
      assert calls[..0] == [];
      while k < |calls|
        invariant 0 <= k <= |calls| && Valid() && !panicked && Shows(AfterAll(s, calls[..k]))
      {
        var next := k + 1;
        AfterNext(s, calls, k, next);
        var ok := ServeOne(calls[k], AfterAll(s, calls[..k]));
        panicked := panicked || !ok;
        k := next;
      }
      assert calls[..k] == calls;
    }

    method ServeOne(call: Call, ghost s: Plain) returns (ok: bool)
      requires Valid() && Shows(s)
      modifies this, log, log.block, log.cache, log.cache.bufs, log.cache.next, log.cache.prev
      ensures Valid() && ok && Shows(After(s, call))
    {
      ok := true;
      match call
      case Begin => if !inOp { ok := Begin(); }
      case Read(b) => ok := ServeRead(b, s);
      case Write(b, data) => ok := ServeWrite(b, data, s);
      case Release(b) => ok := ServeRelease(b, s);
      case End => ok := ServeEnd(s);
      case Sync => ok := ServeSync(s);
    }

    method ServeRead(b: nat, ghost s: Plain) returns (ok: bool)
      requires Valid() && Shows(s)
      modifies this, log, log.block, log.cache, log.cache.bufs, log.cache.next, log.cache.prev
      ensures Valid() && ok && Shows(After(s, Call.Read(b)))
    {
      ok := true;
      if b < |log.cache.disk| && b !in held && |held| <= HELDMAX {
        var r := Read(b);
        ok := r.Some?;
        assert held.Keys == s.held + {b};
      }
    }

    method ServeWrite(b: nat, data: Block, ghost s: Plain) returns (ok: bool)
      requires Valid() && Shows(s)
      modifies this, log, log.block, log.cache, log.cache.bufs, log.cache.next, log.cache.prev
      ensures Valid() && ok && Shows(After(s, Call.Write(b, data)))
    {
      ok := true;
      if inOp && b in held && IsHome(|log.cache.disk|, b) && |logged + {b}| <= MAXOPBLOCKS {
        ok := Write(b, data);
        assert HomeEq(log.cache.view, s.view[b := data]);
      }
    }

    method ServeRelease(b: nat, ghost s: Plain) returns (ok: bool)
      requires Valid() && Shows(s)
      modifies this, log, log.block, log.cache, log.cache.bufs, log.cache.next, log.cache.prev
      ensures Valid() && ok && Shows(After(s, Call.Release(b)))
    {
      ok := true;
      if b in held {
        Release(b);
      } else {
        assert s.held - {b} == s.held;
      }
    }

    method ServeEnd(ghost s: Plain) returns (ok: bool)
      requires Valid() && Shows(s)
      modifies this, log, log.block, log.cache, log.cache.bufs, log.cache.next, log.cache.prev
      ensures Valid() && ok && Shows(After(s, Call.End))
    {
      ok := true;
      if inOp && held == map[] {
        ok := End();
        assert log.n == 0 ==> log.Lh() == [];
      }
    }

    method ServeSync(ghost s: Plain) returns (ok: bool)
      requires Valid() && Shows(s)
      modifies this, log, log.block, log.cache, log.cache.bufs, log.cache.next, log.cache.prev
      ensures Valid() && ok && Shows(After(s, Call.Sync))
    {
      ok := true;
      if !inOp && held == map[] {
        ok := Sync();
        assert log.Lh() == [];
      }
    }
  }

  /** From power on, over any disk used through this log: binit, recovery, then the calls. */
  method Boot(d: Disk, calls: seq<Call>) returns (panicked: bool, p: Process)
    requires GoodDisk(d)
    ensures !panicked && p.Valid()
    ensures p.Shows(AfterAll(Plain(Recover(d), Recover(d), [], {}, false, {}), calls))
  {
    var cache := new BCache(d);
    var log := new Log(cache);
    NoneInUse(cache.bufs[..]);
    var ok, _ := log.RecoverFromLog();
    NoneHolds(CacheRun.Binit(d).bufs, cache.bufs[..]);
    p := new Process(log);
    panicked := p.Serve(calls, Plain(Recover(d), Recover(d), [], {}, false, {}));
    panicked := panicked || !ok;
  }

  lemma NoneInUse(bufs: seq<Buf>)
    requires forall i :: 0 <= i < |bufs| ==> bufs[i].refcnt == 0
    ensures InUse(Refs(bufs)) == {} && HoldsExactly(bufs, map[])
  {
  }

  /** A block that is new to the transaction is new to the operation. */
  lemma Counted(lh: seq<nat>, logged: set<nat>, b: nat)
    requires Within(logged, lh)
    ensures |LogRun.Absorb(lh, b)| - |lh| <= |logged + {b}| - |logged| && Within(logged + {b}, LogRun.Absorb(lh, b))
  {
    SubsetSize(logged, logged + {b});
  }
}
