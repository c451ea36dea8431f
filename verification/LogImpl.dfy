/** log.c as it runs over the linked buffer cache: the block writes it issues are exactly those of
    LogSpec, in order, also when it stops half-way for lack of a buffer. */
module LogImpl {
  import opened Common
  import opened Blocks
  import opened LogSpec
  import opened BufCache
  import opened BufCacheImpl
  import LogRun

  // ---- the writes expected of a commit, as progress through a list ----

  /** Since trace t, the first k of the writes ws were issued. */
  ghost predicate Issued(t: seq<Write>, ws: seq<Write>, k: nat, u: seq<Write>) { k <= |ws| && u == t + ws[..k] }

  lemma IssuedNext(t: seq<Write>, ws: seq<Write>, k: nat, u: seq<Write>, next: nat, w: Write)
    requires k < |ws| && Issued(t, ws, k, u) && next == k + 1 && w == ws[k]
    ensures Issued(t, ws, next, u + [w])
  {
    assert t + ws[..k] + [w] == t + ws[..next];
  }

  lemma {:induction false} ApplyConcat(d: Disk, a: seq<Write>, b: seq<Write>)
    requires InRange(d, a) && InRange(d, b)
    ensures InRange(d, a + b) && Apply(d, a + b) == Apply(Apply(d, a), b)
  {
    if b == [] {
      assert a + b == a;
    } else {
      ApplyConcat(d, a, b[..|b| - 1]);
      assert (a + b)[..|a + b| - 1] == a + b[..|b| - 1];
    }
  }

  /** The cache contents after the first k blocks of the transaction were copied into the log. */
  ghost predicate Logged(v: Disk, lh: seq<nat>, k: nat, w: Disk) {
    var logged := GoodLh(|v|, lh) && LOGSTART + NLOG <= |v| == |w| && k <= |lh| &&
                  (forall b: nat :: b < |v| && !(LOGSTART < b < LOGSTART + NLOG) ==> w[b] == v[b]) &&
                  (forall i :: 0 <= i < k ==> w[LOGSTART + 1 + i] == v[lh[i]]);
    logged
  }

  lemma LoggedStep(v: Disk, lh: seq<nat>, k: nat, w: Disk, next: nat, log: nat)
    requires Logged(v, lh, k, w) && k < |lh| && next == k + 1 && log == LOGSTART + 1 + k
    ensures lh[k] < |v| && log < |v| && w[lh[k]] == v[lh[k]]
    ensures Logged(v, lh, next, w[log := w[lh[k]]])
  {
  }

  /** The cache contents after the first k logged blocks were copied home. */
  ghost predicate Installed(v: Disk, lh: seq<nat>, k: nat, w: Disk) {
    var installed := GoodLh(|v|, lh) && LOGSTART + NLOG <= |v| == |w| && k <= |lh| &&
                     (forall b: nat :: b < |v| && b !in lh ==> w[b] == v[b]) &&
                     (forall i :: 0 <= i < k ==> w[lh[i]] == v[LOGSTART + 1 + i]);
    installed
  }

  lemma InstalledStep(v: Disk, lh: seq<nat>, k: nat, w: Disk, next: nat, log: nat)
    requires Installed(v, lh, k, w) && k < |lh| && next == k + 1 && log == LOGSTART + 1 + k
    ensures lh[k] < |v| && log < |v| && w[log] == v[log]
    ensures Installed(v, lh, next, w[lh[k] := w[log]])
  {
  }

  /** The writes of write_log and the first write_head. */
  ghost predicate LogPart(head: Block, v: Disk, lh: seq<nat>, ws: seq<Write>) {
    var logs := GoodLh(|v|, lh) && |ws| == |lh| + 1 && ws[|lh|] == Write(LOGSTART, PutHead(head, lh, |lh|)) &&
                forall i :: 0 <= i < |lh| ==> ws[i] == Write(LOGSTART + 1 + i, v[lh[i]]);
    logs
  }

  /** The writes of install_trans and the second write_head. */
  ghost predicate HomePart(head: Block, v: Disk, lh: seq<nat>, xs: seq<Write>) {
    var homes := GoodLh(|v|, lh) && |xs| == |lh| + 1 &&
                 xs[|lh|] == Write(LOGSTART, ClearHead(PutHead(head, lh, |lh|))) &&
                 forall i :: 0 <= i < |lh| ==> xs[i] == Write(lh[i], v[lh[i]]);
    homes
  }

  lemma CommitSplit(d: Disk, v: Disk, lh: seq<nat>) returns (ws: seq<Write>, xs: seq<Write>)
    requires CanCommit(d, v, lh) && lh != []
    ensures CommitWrites(d, v, lh) == ws + xs && LogPart(d[LOGSTART], v, lh, ws) && HomePart(d[LOGSTART], v, lh, xs)
  {
    var all, m := CommitWrites(d, v, lh), |lh| + 1;
    ws, xs := all[..m], all[m..];
    assert all == ws + xs;
    CommitLogPart(d, v, lh);
    CommitHomePart(d, v, lh);
  }

  lemma CommitLogPart(d: Disk, v: Disk, lh: seq<nat>)
    requires CanCommit(d, v, lh) && lh != []
    ensures LogPart(d[LOGSTART], v, lh, CommitWrites(d, v, lh)[..|lh| + 1])
  {
    forall i | 0 <= i <= |lh| ensures CommitWrites(d, v, lh)[i] == CommitWrite(d, v, lh, i) {
      CommitWriteAt(d, v, lh, i);
    }
  }

  lemma HomeWrite(d: Disk, v: Disk, lh: seq<nat>, i: nat, j: nat)
    requires CanCommit(d, v, lh) && i < |lh| && j == |lh| + 1 + i
    ensures CommitWrites(d, v, lh)[j] == Write(lh[i], v[lh[i]])
  {
    CommitWriteAt(d, v, lh, j);
    CommitWriteHome(d, v, lh, i, j);
  }

  lemma CommitHomePart(d: Disk, v: Disk, lh: seq<nat>)
    requires CanCommit(d, v, lh) && lh != []
    ensures HomePart(d[LOGSTART], v, lh, CommitWrites(d, v, lh)[|lh| + 1..])
  {
    var all := CommitWrites(d, v, lh);
    forall i | 0 <= i < |lh| ensures all[|lh| + 1..][i] == Write(lh[i], v[lh[i]]) {
      HomeWrite(d, v, lh, i, |lh| + 1 + i);
    }
    CommitWriteAt(d, v, lh, 2 * |lh| + 1);
    HomeList(d[LOGSTART], v, lh, all);
  }

  lemma HomeList(head: Block, v: Disk, lh: seq<nat>, all: seq<Write>)
    requires GoodLh(|v|, lh) && |all| == 2 * |lh| + 2
    requires forall i :: 0 <= i < |lh| ==> all[|lh| + 1..][i] == Write(lh[i], v[lh[i]])
    requires all[2 * |lh| + 1] == Write(LOGSTART, ClearHead(PutHead(head, lh, |lh|)))
    ensures HomePart(head, v, lh, all[|lh| + 1..])
  {
  }

  lemma IssuedLeft(t: seq<Write>, a: seq<Write>, b: seq<Write>, k: nat, u: seq<Write>)
    requires Issued(t, a, k, u)
    ensures Issued(t, a + b, k, u)
  {
    assert (a + b)[..k] == a[..k];
  }

  lemma IssuedRight(t: seq<Write>, a: seq<Write>, u: seq<Write>, b: seq<Write>, k: nat, w: seq<Write>)
    requires Issued(t, a, |a|, u) && Issued(u, b, k, w)
    ensures Issued(t, a + b, |a| + k, w)
  {
    assert (a + b)[..|a| + k] == a + b[..k];
  }

  lemma IssuedDisk(origin: Disk, t: seq<Write>, ws: seq<Write>, k: nat, u: seq<Write>)
    requires Issued(t, ws, k, u) && InRange(origin, t) && InRange(origin, ws)
    ensures InRange(origin, u) && Apply(origin, u) == Apply(Apply(origin, t), ws[..k])
  {
    ApplyConcat(origin, t, ws[..k]);
  }

  /** A commit that ran to its end. */
  lemma CommitEnded(d: Disk, v: Disk, lh: seq<nat>, k: nat, e: Disk)
    requires CanCommit(d, v, lh) && k == |CommitWrites(d, v, lh)| && e == Apply(d, CommitWrites(d, v, lh)[..k])
    ensures GoodDisk(e) && HeadN(e[LOGSTART]) == 0 && HomeEq(e, v)
  {
    assert CommitWrites(d, v, lh)[..k] == CommitWrites(d, v, lh);
    CommitDone(d, v, lh);
  }

  /** A recovery that ran to its end. */
  lemma RecoverEnded(d: Disk, k: nat, e: Disk)
    requires GoodDisk(d) && k == |RecoverWrites(d)| && e == Apply(d, RecoverWrites(d)[..k])
    ensures e == Recover(d) && GoodDisk(e) && HeadN(e[LOGSTART]) == 0
  {
    assert RecoverWrites(d)[..k] == RecoverWrites(d);
    RecoverAt(d);
    ClearHeadIdempotent(d[LOGSTART]);
  }

  /** The first k blocks are no longer pinned, the others as before. */
  ghost predicate Unpinned(lh: seq<nat>, k: nat, pinned: set<nat>, pinned': set<nat>) {
    && k <= |lh| && pinned' <= pinned && (forall i :: 0 <= i < k ==> lh[i] !in pinned')
    && (forall i :: k <= i < |lh| && lh[i] in pinned ==> lh[i] in pinned')
  }

  lemma UnpinNext(lh: seq<nat>, k: nat, next: nat, pinned: set<nat>, pinned': set<nat>)
    requires Unpinned(lh, k, pinned, pinned') && Distinct(lh) && k < |lh| && next == k + 1
    ensures Unpinned(lh, next, pinned, pinned' - {lh[k]}) && |pinned'| <= |pinned|
  {
    SubsetSize(pinned', pinned);
  }

  /** The same blocks are held in the same buffers. */
  ghost predicate SameHolders(bufs: seq<Buf>, bufs': seq<Buf>) {
    && |bufs'| == |bufs| && Refs(bufs') == Refs(bufs)
    && forall i :: 0 <= i < |bufs| ==> Holds(bufs'[i], bufs[i].dev, bufs[i].blockno)
  }

  ghost predicate Elements(s: seq<nat>, t: set<nat>) { forall x :: x in t <==> x in s }

  /** There is a buffer for any block, and then one for a second block. */
  ghost predicate RoomForTwo(bufs: seq<Buf>, pinned: set<nat>, second: nat) {
    var free := NBUF - |pinned| - |InUse(Refs(bufs))|;
    free > 0 && (second in pinned || free > 1)
  }

  /** One reference more holds at most one buffer more. */
  lemma RoomForSecond(bufs: seq<Buf>, i: nat, bufs': seq<Buf>, pinned: set<nat>, second: nat)
    requires Took(bufs, i, bufs') && RoomForTwo(bufs, pinned, second)
    ensures RoomFor(bufs', pinned, second)
  {
    SubsetSize(InUse(Refs(bufs')), InUse(Refs(bufs)) + {i});
  }

  /** Buffers i and j have one more reference each. */
  ghost predicate TookTwo(bufs: seq<Buf>, i: nat, j: nat, bufs': seq<Buf>) {
    var r := Refs(bufs);
    i < |r| && j < |r| && var r1 := r[i := r[i] + 1]; Refs(bufs') == r1[j := r1[j] + 1]
  }

  /** Giving both back. */
  lemma GaveBoth(bufs: seq<Buf>, i: nat, j: nat, bufs2: seq<Buf>, bufs3: seq<Buf>)
    requires TookTwo(bufs, i, j, bufs2) && (Gave(bufs2, i, bufs3) || Gave(bufs2, j, bufs3))
    ensures Gave(bufs2, i, bufs3) ==> Refs(bufs3)[j] > 0 && Refs(bufs3)[j := Refs(bufs3)[j] - 1] == Refs(bufs)
    ensures Gave(bufs2, j, bufs3) ==> Refs(bufs3)[i] > 0 && Refs(bufs3)[i := Refs(bufs3)[i] - 1] == Refs(bufs)
  {
  }

  lemma TookGave(bufs: seq<Buf>, i: nat, bufs1: seq<Buf>, bufs2: seq<Buf>, bufs3: seq<Buf>)
    requires Took(bufs, i, bufs1) && Refs(bufs2) == Refs(bufs1) && Gave(bufs2, i, bufs3)
    ensures Refs(bufs3) == Refs(bufs)
  {
  }

  lemma TookBoth(bufs: seq<Buf>, i: nat, bufs1: seq<Buf>, j: nat, bufs2: seq<Buf>)
    requires Took(bufs, i, bufs1) && Took(bufs1, j, bufs2)
    ensures TookTwo(bufs, i, j, bufs2)
  {
  }

  class Log {
    const cache: BCache
    var outstanding: nat
    var committing: bool
    var n: nat               // lh.n
    const block: array<nat>  // lh.block

    ghost function Lh(): seq<nat>
      reads this`n, block
      requires n <= block.Length
    {
      block[..n]
    }

    /** The buffers that are neither pinned nor held. */
    ghost function Spare(): int
      reads cache, cache.bufs
    {
      NBUF - |cache.pinned| - |InUse(Refs(cache.bufs[..]))|
    }

    ghost predicate AllPinned()
      reads this`n, block, cache
      requires n <= block.Length
    {
      forall x :: x in Lh() ==> x in cache.pinned
    }

    ghost predicate Valid()
      reads this`n, block, cache, cache.bufs, cache.next, cache.prev
    {
      var valid := && cache.Valid() && block.Length == LOGSIZE && block != cache.next && block != cache.prev
                   && n <= SLOTS && LOGSTART + NLOG <= |cache.disk| && GoodLh(|cache.disk|, Lh());
      valid
    }

    /** Between commits: the transaction is what is pinned, and the header on disk is clear. */
    ghost predicate Ready()
      reads this`n, block, cache, cache.bufs, cache.next, cache.prev
    {
      var ready := && Valid() && Elements(Lh(), cache.pinned)
                   && GoodDisk(cache.disk) && HeadN(cache.disk[LOGSTART]) == 0;
      ready
    }

    /** Then a commit may start, and only the blocks of the transaction are pinned. */
    lemma ReadyCommits()
      requires Ready()
      ensures CanCommit(cache.disk, cache.view, Lh()) && cache.view[LOGSTART] == cache.disk[LOGSTART]
      ensures AllPinned() && (forall b :: b in cache.pinned ==> !InLog(b)) && |cache.pinned| <= n
    {
      forall b: nat | b < |cache.disk| && b !in cache.pinned ensures cache.view[b] == cache.disk[b] {
        CleanSame(cache.Abs(), cache.view, cache.pinned, b);
      }
      AtMostLength(cache.pinned, Lh());
    }

    constructor (c: BCache)
      requires c.Valid() && LOGSTART + NLOG <= |c.disk| <= UINT
      ensures cache == c && fresh(block) && Valid() && n == 0 && outstanding == 0 && !committing
    {
      cache, n, outstanding, committing := c, 0, 0, false;
      block := new nat[LOGSIZE](_ => 0);
    }

    /** Two buffers, as the loops of log.c hold them at a time. */
    method Pair(first: nat, second: nat) returns (ok: bool, i: nat, j: nat)
      requires cache.Valid() && first < |cache.disk| && second < |cache.disk|
      modifies cache`disk, cache`trace, cache.bufs
      ensures cache.Valid() && cache.disk == old(cache.disk) && cache.trace == old(cache.trace)
      ensures old(RoomForTwo(cache.bufs[..], cache.pinned, second)) ==> ok
      ensures ok ==> Taken(cache.bufs[..], i, first) && Taken(cache.bufs[..], j, second)
      ensures ok ==> cache.bufs[i].data == cache.view[first] && cache.bufs[j].data == cache.view[second]
      ensures ok ==> TookTwo(old(cache.bufs[..]), i, j, cache.bufs[..])
    {
      ghost var bufs := cache.bufs[..];
      ok, i, j := false, 0, 0;
      var a := cache.Take(first);
      if a.Some? {
        i := a.value;
        if RoomForTwo(bufs, cache.pinned, second) { RoomForSecond(bufs, i, cache.bufs[..], cache.pinned, second); }
        ghost var bufs1 := cache.bufs[..];
        var b := cache.Take(second);
        if b.Some? {
          ok, j := true, b.value;
          TookBoth(bufs, i, bufs1, j, cache.bufs[..]);
        }
      }
    }

    /** Both are released again, in either order. */
    method Release(i: nat, j: nat, ghost bufs: seq<Buf>)
      requires cache.Valid() && i < NBUF && j < NBUF && cache.bufs[i].dev == DISKDEV && cache.bufs[j].dev == DISKDEV
      requires TookTwo(bufs, i, j, cache.bufs[..]) || TookTwo(bufs, j, i, cache.bufs[..])
      modifies cache`mru, cache.bufs, cache.next, cache.prev
      ensures cache.Valid() && Refs(cache.bufs[..]) == Refs(bufs)
    {
      ghost var bufs2 := cache.bufs[..];
      assert Refs(bufs2)[i] > 0;
      cache.Brelse(i);
      ghost var bufs3 := cache.bufs[..];
      if TookTwo(bufs, i, j, bufs2) { GaveBoth(bufs, i, j, bufs2, bufs3); } else { GaveBoth(bufs, j, i, bufs2, bufs3); }
      assert bufs3[j].dev == DISKDEV;
      cache.Brelse(j);
    }

    /** One turn of a copying loop: the log block first, then the home block; the copy goes to the one
        or to the other. */
    method CopyBlock(log: nat, home: nat, toLog: bool) returns (ok: bool)
      requires cache.Valid() && log < |cache.disk| && home < |cache.disk|
      modifies cache, cache.bufs, cache.next, cache.prev
      ensures cache.Valid() && (ok ==> Refs(cache.bufs[..]) == old(Refs(cache.bufs[..])))
      ensures old(RoomForTwo(cache.bufs[..], cache.pinned, home)) ==> ok
      ensures !ok ==> cache.view == old(cache.view) && cache.disk == old(cache.disk) &&
                      cache.pinned == old(cache.pinned) && cache.trace == old(cache.trace)
      ensures ok ==> var (to, data) := if toLog then (log, old(cache.view)[home]) else (home, old(cache.view)[log]);
                     && cache.view == old(cache.view)[to := data] && cache.disk == old(cache.disk)[to := data]
                     && cache.pinned == old(cache.pinned) - {to} && cache.trace == old(cache.trace) + [Write(to, data)]
    {
      ghost var bufs := cache.bufs[..];
      var i, j;
      ok, i, j := Pair(log, home);
      if ok && toLog {
        cache.Bwrite(i, cache.bufs[j].data);
        Release(j, i, bufs);
      } else if ok {
        cache.Bwrite(j, cache.bufs[i].data);
        Release(i, j, bufs);
      }
    }

    /** One turn of write_log. */
    method LogBlock(tail: nat, ghost next: nat, ghost v: Disk, ghost t: seq<Write>, ghost ws: seq<Write>)
        returns (ok: bool)
      requires Valid() && tail < n && next == tail + 1 && Logged(v, Lh(), tail, cache.view) && tail < |ws|
      requires Issued(t, ws, tail, cache.trace) && ws[tail] == Write(LOGSTART + 1 + tail, v[Lh()[tail]])
      requires forall b :: b in cache.pinned ==> !InLog(b)
      modifies cache, cache.bufs, cache.next, cache.prev
      ensures Valid() && cache.pinned == old(cache.pinned) && (ok ==> Refs(cache.bufs[..]) == old(Refs(cache.bufs[..])))
      ensures old(Spare()) > 0 && old(AllPinned()) ==> ok
      ensures var k := if ok then next else tail; Logged(v, Lh(), k, cache.view) && Issued(t, ws, k, cache.trace)
    {
      assert block[tail] == Lh()[tail];
      var log := LOGSTART + tail + 1;
      IssuedNext(t, ws, tail, cache.trace, next, ws[tail]);
      LoggedStep(v, Lh(), tail, cache.view, next, log);
      ok := CopyBlock(log, block[tail], true);
    }

    /** write_log: cached blocks go to the log; k of the expected writes ws are issued, all unless
        bread panicked. */
    method WriteLog(ghost ws: seq<Write>) returns (ok: bool, ghost k: nat)
      requires Valid() && (forall b :: b in cache.pinned ==> !InLog(b)) && n <= |ws|
      requires forall i :: 0 <= i < n ==> ws[i] == Write(LOGSTART + 1 + i, cache.view[Lh()[i]])
      modifies cache, cache.bufs, cache.next, cache.prev
      ensures Valid() && cache.pinned == old(cache.pinned) && k <= n && (ok ==> k == n)
      ensures ok ==> Refs(cache.bufs[..]) == old(Refs(cache.bufs[..]))
      ensures old(Spare()) > 0 && old(AllPinned()) ==> ok
      ensures Logged(old(cache.view), Lh(), k, cache.view) && Issued(old(cache.trace), ws, k, cache.trace)
    {
      ghost var lh := Lh();
      var tail := 0;
      ok, k := true, 0;
      while tail < n
        invariant 0 <= tail == k <= n && Valid() && Lh() == lh && cache.pinned == old(cache.pinned)
        invariant Refs(cache.bufs[..]) == old(Refs(cache.bufs[..]))
        invariant Logged(old(cache.view), lh, k, cache.view) && Issued(old(cache.trace), ws, k, cache.trace)
      {
        var next := tail + 1;
        assert ws[tail] == Write(LOGSTART + 1 + tail, old(cache.view)[lh[tail]]);
        ok := LogBlock(tail, next, old(cache.view), old(cache.trace), ws);
        if !ok { return; }
        tail, k := next, next;
      }
    }

    /** One turn of install_trans. */
    method InstallBlock(tail: nat, ghost next: nat, ghost v: Disk, ghost t: seq<Write>, ghost ws: seq<Write>)
        returns (ok: bool)
      requires Valid() && tail < n && next == tail + 1 && Installed(v, Lh(), tail, cache.view) && tail < |ws|
      requires Issued(t, ws, tail, cache.trace) && ws[tail] == Write(Lh()[tail], v[LOGSTART + 1 + tail])
      modifies cache, cache.bufs, cache.next, cache.prev
      ensures Valid()
      ensures var k := if ok then next else tail; Installed(v, Lh(), k, cache.view) && Issued(t, ws, k, cache.trace)
      ensures ok ==> Refs(cache.bufs[..]) == old(Refs(cache.bufs[..]))
      ensures old(Spare()) > 0 && (Lh()[tail] in old(cache.pinned) || old(Spare()) > 1) ==> ok
      ensures cache.pinned == if ok then old(cache.pinned) - {Lh()[tail]} else old(cache.pinned)
    {
      assert block[tail] == Lh()[tail];
      var log := LOGSTART + tail + 1;
      IssuedNext(t, ws, tail, cache.trace, next, ws[tail]);
      InstalledStep(v, Lh(), tail, cache.view, next, log);
      ok := CopyBlock(log, block[tail], false);
    }

    /** install_trans: every logged block goes from the log to its home and is unpinned. */
    method InstallTrans(ghost ws: seq<Write>) returns (ok: bool, ghost k: nat)
      requires Valid() && n <= |ws|
      requires forall i :: 0 <= i < n ==> ws[i] == Write(Lh()[i], cache.view[LOGSTART + 1 + i])
      modifies cache, cache.bufs, cache.next, cache.prev
      ensures Valid() && k <= n && (ok ==> k == n)
      ensures ok ==> Refs(cache.bufs[..]) == old(Refs(cache.bufs[..]))
      ensures old(Spare()) > 0 && (old(AllPinned()) || old(Spare()) > 1) ==> ok
      ensures Installed(old(cache.view), Lh(), k, cache.view) && Issued(old(cache.trace), ws, k, cache.trace)
      ensures cache.pinned <= old(cache.pinned) && forall i :: 0 <= i < k ==> Lh()[i] !in cache.pinned
    {
      ghost var lh := Lh();
      var tail := 0;
      ok, k := true, 0;
      while tail < n
        invariant 0 <= tail == k <= n && Valid()
        invariant Lh() == lh
        invariant Refs(cache.bufs[..]) == old(Refs(cache.bufs[..]))
        invariant Installed(old(cache.view), lh, k, cache.view) && Issued(old(cache.trace), ws, k, cache.trace)
        invariant Unpinned(lh, k, old(cache.pinned), cache.pinned)
      {
        var next := tail + 1;
        UnpinNext(lh, k, next, old(cache.pinned), cache.pinned);
        assert ws[tail] == Write(lh[tail], old(cache.view)[LOGSTART + 1 + tail]);
        ok := InstallBlock(tail, next, old(cache.view), old(cache.trace), ws);
        if !ok { return; }
        tail, k := next, next;
      }
    }

    /** The header block as write_head fills it in. */
    method HeadBlock(data: Block) returns (hb: Block)
      requires Valid()
      ensures hb == PutHead(data, Lh(), n)
    {
      hb := PutWord(data, 0, n);
      var i := 0;
      while i < n
        invariant 0 <= i <= n && hb == PutHead(data, Lh(), i)
      {
        assert block[i] == Lh()[i];
        hb := PutWord(hb, i + 1, block[i]);
        i := i + 1;
      }
    }

    /** A buffer taken before is written and released. */
    method PutAway(i: nat, data: Block, ghost b: nat, ghost bufs: seq<Buf>)
      requires cache.Valid() && Taken(cache.bufs[..], i, b) && Took(bufs, i, cache.bufs[..])
      modifies cache, cache.bufs, cache.next, cache.prev
      ensures cache.Valid() && Refs(cache.bufs[..]) == Refs(bufs) && b < |old(cache.disk)|
      ensures cache.view == old(cache.view)[b := data] && cache.disk == old(cache.disk)[b := data]
      ensures cache.pinned == old(cache.pinned) - {b} && cache.trace == old(cache.trace) + [Write(b, data)]
    {
      ghost var bufs1 := cache.bufs[..];
      cache.Bwrite(i, data);
      ghost var bufs2 := cache.bufs[..];
      cache.Brelse(i);
      TookGave(bufs, i, bufs1, bufs2, cache.bufs[..]);
    }

    /** write_head: n and the block numbers into the header block. */
    method WriteHead() returns (ok: bool)
      requires Valid()
      modifies cache, cache.bufs, cache.next, cache.prev
      ensures Valid() && (ok ==> Refs(cache.bufs[..]) == old(Refs(cache.bufs[..])))
      ensures old(Spare()) > 0 ==> ok
      ensures ok ==> var head := PutHead(old(cache.view)[LOGSTART], Lh(), n);
                     && cache.view == old(cache.view)[LOGSTART := head]
                     && cache.pinned == old(cache.pinned) - {LOGSTART}
                     && cache.trace == old(cache.trace) + [Write(LOGSTART, head)]
      ensures !ok ==> cache.view == old(cache.view) && cache.trace == old(cache.trace) &&
                      cache.pinned == old(cache.pinned)
    {
      ghost var bufs := cache.bufs[..];
      var buf := cache.Take(LOGSTART);
      ok := buf.Some?;
      if ok {
        var hb := HeadBlock(cache.bufs[buf.value].data);
        PutAway(buf.value, hb, LOGSTART, bufs);
      }
    }

    /** The end of commit() and of recover_from_log(): install, then erase the transaction. */
    method InstallAndClear(ghost ws: seq<Write>) returns (ok: bool, ghost k: nat)
      requires Valid() && |ws| == n + 1
      requires forall i :: 0 <= i < n ==> ws[i] == Write(Lh()[i], cache.view[LOGSTART + 1 + i])
      requires ws[n] == Write(LOGSTART, ClearHead(cache.view[LOGSTART]))
      modifies this`n, cache, cache.bufs, cache.next, cache.prev
      ensures cache.Valid() && |cache.disk| == |old(cache.disk)| && Issued(old(cache.trace), ws, k, cache.trace)
      ensures old(Spare()) > 0 && (old(AllPinned()) || old(Spare()) > 1) ==> ok
      ensures ok ==> k == |ws| && n == 0 && Refs(cache.bufs[..]) == old(Refs(cache.bufs[..]))
      ensures ok ==> cache.pinned <= old(cache.pinned) && forall x :: x in old(Lh()) ==> x !in cache.pinned
    {
      ghost var lh := Lh();
      ok, k := InstallTrans(ws);
      if ok {
        assert forall x :: x in lh ==> x !in cache.pinned;
        SubsetSize(cache.pinned, old(cache.pinned));
        n := 0;
        ghost var u := cache.trace;
        ok := WriteHead();
        if ok {
          IssuedNext(old(cache.trace), ws, k, u, k + 1, ws[k]);
          k := k + 1;
        }
      }
    }

    /** The start of commit(), up to the header write that is the real commit. */
    method LogAndHead(ghost ws: seq<Write>) returns (ok: bool, ghost k: nat)
      requires Valid() && (forall b :: b in cache.pinned ==> !InLog(b)) && n < |ws|
      requires forall i :: 0 <= i < n ==> ws[i] == Write(LOGSTART + 1 + i, cache.view[Lh()[i]])
      requires ws[n] == Write(LOGSTART, PutHead(cache.view[LOGSTART], Lh(), n))
      modifies cache, cache.bufs, cache.next, cache.prev
      ensures Valid() && Issued(old(cache.trace), ws, k, cache.trace)
      ensures old(Spare()) > 0 && old(AllPinned()) ==> ok
      ensures ok ==> k == n + 1 && cache.pinned == old(cache.pinned)
      ensures ok ==> Refs(cache.bufs[..]) == old(Refs(cache.bufs[..]))
      ensures ok ==> cache.view[LOGSTART] == PutHead(old(cache.view)[LOGSTART], Lh(), n)
      ensures ok ==> forall i :: 0 <= i < n ==> cache.view[LOGSTART + 1 + i] == old(cache.view)[Lh()[i]]
    {
      ok, k := WriteLog(ws);
      if ok {
        ghost var u := cache.trace;
        ok := WriteHead();
        if ok {
          IssuedNext(old(cache.trace), ws, k, u, k + 1, ws[k]);
          k := k + 1;
        }
      }
    }

    method CommitBody(ghost ws: seq<Write>, ghost xs: seq<Write>) returns (ok: bool, ghost k: nat)
      requires Ready() && n > 0
      requires LogPart(cache.view[LOGSTART], cache.view, Lh(), ws) &&
               HomePart(cache.view[LOGSTART], cache.view, Lh(), xs)
      modifies this`n, cache, cache.bufs, cache.next, cache.prev
      ensures cache.Valid() && Issued(old(cache.trace), ws + xs, k, cache.trace)
      ensures old(Spare()) > 0 ==> ok
      ensures ok ==> k == |ws| + |xs| && n == 0 && cache.pinned == {} &&
                     Refs(cache.bufs[..]) == old(Refs(cache.bufs[..]))
    {
      ReadyCommits();
      ok, k := LogAndHead(ws);
      if ok {
        ghost var u, j := cache.trace, 0;
        ok, j := InstallAndClear(xs);
        IssuedRight(old(cache.trace), ws, u, xs, j, cache.trace);
        k := k + j;
      } else {
        IssuedLeft(old(cache.trace), ws, xs, k, cache.trace);
      }
    }

    /** commit(): the first k of the writes of CommitWrites reach the disk, all of them if some buffer is
        neither pinned nor held; then the log is empty, nothing is pinned and the home blocks are as
        cached. */
    method Commit() returns (ok: bool, ghost k: nat)
      requires Ready()
      modifies this`n, cache, cache.bufs, cache.next, cache.prev
      ensures old(Spare()) > 0 ==> ok
      ensures ok ==> Refs(cache.bufs[..]) == old(Refs(cache.bufs[..]))
      ensures CanCommit(old(cache.disk), old(cache.view), old(Lh()))
      ensures Issued(old(cache.trace), CommitWrites(old(cache.disk), old(cache.view), old(Lh())), k, cache.trace)
      ensures cache.disk == Apply(old(cache.disk), CommitWrites(old(cache.disk), old(cache.view), old(Lh()))[..k])
      ensures ok ==> k == |CommitWrites(old(cache.disk), old(cache.view), old(Lh()))|
      ensures ok ==> Ready() && n == 0 && HomeEq(cache.view, old(cache.view)) && HomeEq(cache.disk, old(cache.view))
    {
      ghost var d, v, lh, t := cache.disk, cache.view, Lh(), cache.trace;
      ReadyCommits();
      ok, k := true, 0;
      if n > 0 {
        ghost var ws, xs := CommitSplit(d, v, lh);
        ok, k := CommitBody(ws, xs);
      }
      IssuedDisk(cache.origin, t, CommitWrites(d, v, lh), k, cache.trace);
      if ok {
        CommitEnded(d, v, lh, k, cache.disk);
        Emptied();
      }
    }

    /** With nothing pinned callers of bread see the disk. */
    lemma Emptied()
      requires cache.Valid() && cache.pinned == {}
      ensures cache.view == cache.disk
    {
      forall b: nat | b < |cache.disk| ensures cache.view[b] == cache.disk[b] {
        CleanSame(cache.Abs(), cache.view, cache.pinned, b);
      }
    }

    /** read_head */
    method ReadHead() returns (ok: bool)
      requires cache.Valid() && block.Length == LOGSIZE && block != cache.next && block != cache.prev
      requires GoodDisk(cache.disk) && cache.pinned == {}
      modifies this`n, block, cache, cache.bufs, cache.next, cache.prev
      ensures cache.Valid() && cache.view == old(cache.view) && cache.disk == old(cache.disk) &&
              cache.pinned == {} && cache.trace == old(cache.trace)
      ensures old(Spare()) > 0 ==> ok
      ensures ok ==> Valid() && Lh() == Head(cache.disk[LOGSTART]) && Refs(cache.bufs[..]) == old(Refs(cache.bufs[..]))
    {
      ghost var bufs := cache.bufs[..];
      Emptied();
      var buf := cache.Take(LOGSTART);
      if buf.None? { return false; }
      LoadHead(cache.bufs[buf.value].data);
      ghost var bufs1 := cache.bufs[..];
      cache.Brelse(buf.value);
      TookGave(bufs, buf.value, bufs1, bufs1, cache.bufs[..]);
      ok := true;
    }

    method LoadHead(data: Block)
      requires block.Length == LOGSIZE && HeadN(data) <= LOGSIZE
      modifies this`n, block
      ensures n == HeadN(data) && Lh() == Head(data)
    {
      n := GetWord(data, 0);
      var i := 0;
      while i < n
        invariant 0 <= i <= n == HeadN(data)
        invariant forall j :: 0 <= j < i ==> block[j] == GetWord(data, j + 1)
      {
        block[i] := GetWord(data, i + 1);
        i := i + 1;
      }
      assert Lh() == Head(data);
    }

    /** recover_from_log(): the first k of the writes of RecoverWrites reach the disk, all of them if two
        buffers are free; then the log is ready and the disk is the recovered one. */
    method RecoverFromLog() returns (ok: bool, ghost k: nat)
      requires cache.Valid() && block.Length == LOGSIZE && block != cache.next && block != cache.prev
      requires GoodDisk(cache.disk) && cache.pinned == {}
      modifies this`n, block, cache, cache.bufs, cache.next, cache.prev
      ensures old(Spare()) > 1 ==> ok
      ensures Issued(old(cache.trace), RecoverWrites(old(cache.disk)), k, cache.trace)
      ensures cache.disk == Apply(old(cache.disk), RecoverWrites(old(cache.disk))[..k])
      ensures ok ==> Ready() && n == 0 && cache.disk == Recover(old(cache.disk)) && cache.view == cache.disk
      ensures ok ==> Refs(cache.bufs[..]) == old(Refs(cache.bufs[..]))
    {
      ghost var d, t := cache.disk, cache.trace;
      ghost var ws := RecoverWrites(d);
      k := 0;
      ok := ReadHead();
      if ok {
        Emptied();
        ok, k := InstallAndClear(ws);
      }
      IssuedDisk(cache.origin, t, ws, k, cache.trace);
      if ok {
        RecoverEnded(d, k, cache.disk);
        Emptied();
        assert Lh() == [];
      }
    }

    /** One look of begin_op at the log: go ahead, or sleep on the log's channel. */
    method BeginOp() returns (go: bool)
      modifies this`outstanding
      ensures go <==> !committing && n + 10 * (old(outstanding) + 1) <= 30
      ensures outstanding == if go then old(outstanding) + 1 else old(outstanding)
    {
      if committing {
        return false;
      } else if n + (outstanding + 1) * MAXOPBLOCKS > LOGSIZE {
        return false;
      }
      outstanding := outstanding + 1;
      go := true;
    }

    /** brelse between commits leaves the log ready. */
    method Brelse(k: nat)
      requires Ready() && k < NBUF && cache.bufs[k].dev == DISKDEV && cache.bufs[k].refcnt > 0
      modifies cache`mru, cache.bufs, cache.next, cache.prev
      ensures Ready() && Lh() == old(Lh())
      ensures cache.bufs[..] == old(cache.bufs[..])[k := old(cache.bufs[k]).(refcnt := old(cache.bufs[k].refcnt) - 1)]
    {
      cache.Brelse(k);
      assert Lh() == old(Lh());
    }

    /** log_write, by a holder of buffer k who has new contents for it; false is either of its panics. */
    method LogWrite(k: nat, data: Block) returns (ok: bool)
      requires Ready() && k < NBUF && cache.bufs[k].dev == DISKDEV && cache.bufs[k].refcnt > 0
      requires IsHome(|cache.disk|, cache.bufs[k].blockno)
      modifies this`n, block, cache, cache.bufs
      ensures ok <==> old(n) < 29 && outstanding >= 1
      ensures Ready() && cache.disk == old(cache.disk) && cache.trace == old(cache.trace)
      ensures SameHolders(old(cache.bufs[..]), cache.bufs[..])
      ensures var b := old(cache.bufs[k].blockno);
              && Lh() == (if ok && b !in old(Lh()) then old(Lh()) + [b] else old(Lh()))
              && cache.view == (if ok then old(cache.view)[b := data] else old(cache.view))
    {
      if n >= LOGSIZE || n >= NLOG - 1 { return false; }
      if outstanding < 1 { return false; }
      var b := cache.bufs[k].blockno;
      Append(b);
      cache.Pin(k, data);
      ok := true;
    }

    /** The absorption loop of log_write. */
    method Append(b: nat)
      requires block.Length == LOGSIZE && n < LOGSIZE
      modifies this`n, block
      ensures n <= block.Length && Lh() == LogRun.Absorb(old(Lh()), b)
    {
      var i := 0;
      while i < n && block[i] != b
        invariant 0 <= i <= n && forall j :: 0 <= j < i ==> block[j] != b
      {
        i := i + 1;
      }
      ghost var lh := Lh();
      assert i < n ==> lh[i] == b;
      block[i] := b;
      if i == n {
        n := n + 1;
      }
      assert Lh() == LogRun.Absorb(lh, b);
    }

    /** end_op: the last operation out commits once more than half the log is in use. */
    method EndOp() returns (ok: bool, committed: bool)
      requires Ready() && outstanding >= 1
      modifies this, cache, cache.bufs, cache.next, cache.prev
      ensures old(committing) ==> !ok
      ensures !old(committing) && old(Spare()) > 0 ==> ok
      ensures outstanding == old(outstanding) - 1
      ensures ok ==> Ready() && !committing && HomeEq(cache.view, old(cache.view))
      ensures ok ==> Refs(cache.bufs[..]) == old(Refs(cache.bufs[..]))
      ensures ok ==> (committed <==> outstanding == 0 && old(n) >= 16)
      ensures ok && committed ==> n == 0 && HomeEq(cache.disk, old(cache.view))
      ensures ok && !committed ==> Lh() == old(Lh()) && cache.disk == old(cache.disk) && cache.view == old(cache.view)
    {
      outstanding := outstanding - 1;
      committed := false;
      if committing { return false, false; }
      ok := true;
      if outstanding == 0 && n > NLOG / 2 {
        committed := true;
        ok := CommitNow();
      }
    }

    /** end_op's commit, during which no operation begins. */
    method CommitNow() returns (ok: bool)
      requires Ready() && !committing
      modifies this`n, this`committing, cache, cache.bufs, cache.next, cache.prev
      ensures old(Spare()) > 0 ==> ok
      ensures !committing && (ok ==> Ready() && n == 0 && Refs(cache.bufs[..]) == old(Refs(cache.bufs[..])))
      ensures ok ==> HomeEq(cache.view, old(cache.view)) && HomeEq(cache.disk, old(cache.view))
    {
      committing := true;
      ghost var k;
      ok, k := Commit();
      committing := false;
    }

    /** sys_sync, whatever is outstanding: undisturbed, it returns 0 with everything cached on disk. */
    method Sync() returns (ok: bool, r: int)
      requires Ready()
      modifies this`n, cache, cache.bufs, cache.next, cache.prev
      ensures old(Spare()) > 0 ==> ok
      ensures ok ==> r == 0 && Ready() && n == 0 && Refs(cache.bufs[..]) == old(Refs(cache.bufs[..]))
      ensures ok ==> HomeEq(cache.view, old(cache.view)) && HomeEq(cache.disk, old(cache.view))
    {
      ghost var k;
      ok, k := Commit();
      r := if n == 0 then 0 else -1;
    }
  }
}
