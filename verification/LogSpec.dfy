/** The on-disk redo log: the block writes that a commit and a recovery issue,
    and what a recovery makes of the disk after any prefix of them. */
module LogSpec {
  import opened Blocks

  const LOGSTART: nat := 2                 // sb.logstart, as laid out by mkfs
  const MAXOPBLOCKS: nat := 10
  const LOGSIZE: nat := 30                 // entries in struct logheader
  const NLOG: nat := 30                    // log.size: the header block and 29 data blocks
  const SLOTS: nat := NLOG - 1

  type Disk = seq<Block>

  datatype Write = Write(blockno: nat, data: Block)

  ghost predicate InRange(d: Disk, ws: seq<Write>) {
    forall i :: 0 <= i < |ws| ==> ws[i].blockno < |d|
  }

  /** The disk after single-block writes, oldest first. */
  ghost function Apply(d: Disk, ws: seq<Write>): (r: Disk)
    requires InRange(d, ws)
    ensures |r| == |d|
  {
    if ws == [] then d
    else
      var w := ws[|ws| - 1];
      Apply(d, ws[..|ws| - 1])[w.blockno := w.data]
  }

  lemma ApplySnoc(d: Disk, ws: seq<Write>, w: Write)
    requires InRange(d, ws) && w.blockno < |d|
    ensures InRange(d, ws + [w]) && Apply(d, ws + [w]) == Apply(d, ws)[w.blockno := w.data]
  {
    assert (ws + [w])[..|ws|] == ws;
  }

  lemma {:induction false} Untouched(d: Disk, ws: seq<Write>, b: nat)
    requires InRange(d, ws) && b < |d|
    requires forall i :: 0 <= i < |ws| ==> ws[i].blockno != b
    ensures Apply(d, ws)[b] == d[b]
  {
    if ws != [] {
      Untouched(d, ws[..|ws| - 1], b);
    }
  }

  lemma {:induction false} LastWrite(d: Disk, ws: seq<Write>, i: nat)
    requires InRange(d, ws) && i < |ws|
    requires forall j :: i < j < |ws| ==> ws[j].blockno != ws[i].blockno
    ensures Apply(d, ws)[ws[i].blockno] == ws[i].data
  {
    if i < |ws| - 1 {
      LastWrite(d, ws[..|ws| - 1], i);
    }
  }

  predicate InLog(b: nat) { LOGSTART <= b < LOGSTART + NLOG }

  /** A block that a transaction may carry: on the disk and outside the log area. */
  predicate IsHome(size: nat, b: nat) { b < size && !InLog(b) }

  ghost predicate HomeEq(d: Disk, e: Disk) {
    |d| == |e| && forall b: nat :: IsHome(|d|, b) ==> d[b] == e[b]
  }

  ghost predicate Distinct(s: seq<nat>) {
    forall i, j :: 0 <= i < j < |s| ==> s[i] != s[j]
  }

  /** The block numbers of a transaction, as log_write keeps them. */
  ghost predicate GoodLh(size: nat, lh: seq<nat>) {
    && |lh| <= SLOTS
    && Distinct(lh)
    && size <= UINT
    && forall i :: 0 <= i < |lh| ==> IsHome(size, lh[i])
  }

  // struct logheader inside the header block: word 0 is n, words 1.. are block[].

  function HeadN(b: Block): nat { GetWord(b, 0) }

  function Head(b: Block): seq<nat>
    requires HeadN(b) <= LOGSIZE
  {
    seq(HeadN(b), i requires 0 <= i < HeadN(b) => GetWord(b, i + 1))
  }

  /** The header block after write_head has copied n and the first i entries of lh. */
  function PutHead(b: Block, lh: seq<nat>, i: nat): Block
    requires i <= |lh| <= LOGSIZE
    requires forall j :: 0 <= j < |lh| ==> lh[j] < UINT
  {
    if i == 0 then PutWord(b, 0, |lh|)
    else PutWord(PutHead(b, lh, i - 1), i, lh[i - 1])
  }

  lemma {:induction false} PutHeadWords(b: Block, lh: seq<nat>, i: nat)
    requires i <= |lh| <= LOGSIZE
    requires forall j :: 0 <= j < |lh| ==> lh[j] < UINT
    ensures GetWord(PutHead(b, lh, i), 0) == |lh|
    ensures forall j :: 0 <= j < i ==> GetWord(PutHead(b, lh, i), j + 1) == lh[j]
  {
    if i == 0 {
      GetPutWord(b, 0, |lh|);
    } else {
      PutHeadWords(b, lh, i - 1);
      GetPutWord(PutHead(b, lh, i - 1), i, lh[i - 1]);
    }
  }

  /** Round trip: read_head recovers from the block exactly what write_head stored. */
  lemma HeadRoundTrip(b: Block, lh: seq<nat>)
    requires |lh| <= LOGSIZE
    requires forall j :: 0 <= j < |lh| ==> lh[j] < UINT
    ensures HeadN(PutHead(b, lh, |lh|)) == |lh|
    ensures Head(PutHead(b, lh, |lh|)) == lh
  {
    PutHeadWords(b, lh, |lh|);
  }

  function ClearHead(b: Block): Block { PutWord(b, 0, 0) }

  // ---- recovery ----

  /** What is on a disk that has only been written through this log. */
  ghost predicate GoodDisk(d: Disk) {
    && LOGSTART + NLOG <= |d| <= UINT
    && HeadN(d[LOGSTART]) <= SLOTS
    && GoodLh(|d|, Head(d[LOGSTART]))
  }

  ghost function InstallWrites(d: Disk, lh: seq<nat>): (ws: seq<Write>)
    requires GoodLh(|d|, lh) && LOGSTART + NLOG <= |d|
    ensures |ws| == |lh| && InRange(d, ws)
  {
    seq(|lh|, i requires 0 <= i < |lh| => Write(lh[i], d[LOGSTART + 1 + i]))
  }

  /** The writes of recover_from_log, in order: every logged block home, then the cleared header. */
  ghost function RecoverWrites(d: Disk): (ws: seq<Write>)
    requires GoodDisk(d)
    ensures InRange(d, ws) && |ws| == HeadN(d[LOGSTART]) + 1
  {
    InstallWrites(d, Head(d[LOGSTART])) + [Write(LOGSTART, ClearHead(d[LOGSTART]))]
  }

  ghost function Recover(d: Disk): (r: Disk)
    requires GoodDisk(d)
    ensures |r| == |d|
  {
    Apply(d, RecoverWrites(d))
  }

  /** The disk after the first k writes of a recovery that has not yet cleared the header. */
  lemma RecoverPrefixWrites(d: Disk, k: nat, i: nat)
    requires GoodDisk(d) && k <= HeadN(d[LOGSTART]) && i < k
    ensures RecoverWrites(d)[..k][i] == Write(Head(d[LOGSTART])[i], d[LOGSTART + 1 + i])
  {
  }

  lemma RecoverPrefixAt(d: Disk, k: nat)
    requires GoodDisk(d) && k <= HeadN(d[LOGSTART])
    ensures var lh := Head(d[LOGSTART]); var r := Apply(d, RecoverWrites(d)[..k]);
            && (forall b :: 0 <= b < |d| && b !in lh ==> r[b] == d[b])
            && (forall i :: 0 <= i < |lh| ==> r[lh[i]] == if i < k then d[LOGSTART + 1 + i] else d[lh[i]])
  {
    var lh := Head(d[LOGSTART]);
    var ws := RecoverWrites(d)[..k];
    forall i | 0 <= i < k ensures ws[i] == Write(lh[i], d[LOGSTART + 1 + i]) { RecoverPrefixWrites(d, k, i); }
    forall b | 0 <= b < |d| && b !in lh ensures Apply(d, ws)[b] == d[b] {
      Untouched(d, ws, b);
    }
    forall i | 0 <= i < |lh|
      ensures Apply(d, ws)[lh[i]] == if i < k then d[LOGSTART + 1 + i] else d[lh[i]]
    {
      if i < k { LastWrite(d, ws, i); } else { Untouched(d, ws, lh[i]); }
    }
  }

  /** A recovery, block by block. */
  lemma RecoverAt(d: Disk)
    requires GoodDisk(d)
    ensures var lh := Head(d[LOGSTART]); var r := Recover(d);
            && r[LOGSTART] == ClearHead(d[LOGSTART])
            && (forall b :: 0 <= b < |d| && b != LOGSTART && b !in lh ==> r[b] == d[b])
            && (forall i :: 0 <= i < |lh| ==> r[lh[i]] == d[LOGSTART + 1 + i])
  {
    var n := HeadN(d[LOGSTART]);
    RecoverPrefixAt(d, n);
    assert RecoverWrites(d)[..n + 1] == RecoverWrites(d);
  }

  lemma ClearHeadIdempotent(b: Block)
    ensures HeadN(ClearHead(b)) == 0 && ClearHead(ClearHead(b)) == ClearHead(b)
  {
    GetPutWord(b, 0, 0);
  }

  lemma ClearRecovers(e: Disk)
    requires GoodDisk(e) && HeadN(e[LOGSTART]) == 0
    ensures HomeEq(Recover(e), e)
    ensures ClearHead(e[LOGSTART]) == e[LOGSTART] ==> Recover(e) == e
  {
    RecoverAt(e);
  }

  /** Recovery restarts: a crash after any prefix of its writes leaves a disk that recovers to
      the same blocks as the uninterrupted recovery. */
  lemma RecoverRestart(d: Disk, k: nat)
    requires GoodDisk(d) && k <= |RecoverWrites(d)|
    ensures var e := Apply(d, RecoverWrites(d)[..k]); GoodDisk(e) && Recover(e) == Recover(d)
  {
    var e := Apply(d, RecoverWrites(d)[..k]);
    RecoverAt(d);
    if k <= HeadN(d[LOGSTART]) {
      RecoverPrefixAt(d, k);
      RestartMidway(d, e);
    } else {
      assert RecoverWrites(d)[..k] == RecoverWrites(d);
      ClearHeadIdempotent(d[LOGSTART]);
      ClearRecovers(e);
    }
  }

  lemma RestartMidway(d: Disk, e: Disk)
    requires GoodDisk(d) && |e| == |d|
    requires forall b :: 0 <= b < |d| && b !in Head(d[LOGSTART]) ==> e[b] == d[b]
    ensures GoodDisk(e) && Recover(e) == Recover(d)
  {
    var lh := Head(d[LOGSTART]);
    assert LOGSTART !in lh;
    RecoverAt(d);
    RecoverAt(e);
    forall b | 0 <= b < |d| ensures Recover(e)[b] == Recover(d)[b] {
      if b in lh {
        var i :| 0 <= i < |lh| && lh[i] == b;
        assert Recover(e)[lh[i]] == e[LOGSTART + 1 + i] == d[LOGSTART + 1 + i];
      }
    }
  }

  /** The disk after recoveries cut short, one after the other, at the given numbers of writes. */
  ghost function Restarts(d: Disk, cuts: seq<nat>): Disk
    requires GoodDisk(d)
    decreases |cuts|
  {
    if cuts == [] then d
    else if cuts[0] <= |RecoverWrites(d)| then
      (RecoverRestart(d, cuts[0]); Restarts(Apply(d, RecoverWrites(d)[..cuts[0]]), cuts[1..]))
    else Restarts(d, cuts[1..])
  }

  lemma {:induction false} RecoverAnyRestarts(d: Disk, cuts: seq<nat>)
    requires GoodDisk(d)
    ensures GoodDisk(Restarts(d, cuts)) && Recover(Restarts(d, cuts)) == Recover(d)
    decreases |cuts|
  {
    if cuts != [] {
      if cuts[0] <= |RecoverWrites(d)| {
        RecoverRestart(d, cuts[0]);
        RecoverAnyRestarts(Apply(d, RecoverWrites(d)[..cuts[0]]), cuts[1..]);
      } else {
        RecoverAnyRestarts(d, cuts[1..]);
      }
    }
  }

  // ---- commit ----

  /** A commit may start: the header on disk is clear and the cache differs from the disk
      only at blocks named by the transaction. */
  ghost predicate CanCommit(d: Disk, mem: Disk, lh: seq<nat>) {
    && GoodDisk(d) && HeadN(d[LOGSTART]) == 0
    && |mem| == |d| && GoodLh(|d|, lh)
    && forall b: nat :: IsHome(|d|, b) && b !in lh ==> mem[b] == d[b]
  }

  /** The i-th write of commit: log blocks, header, home blocks, cleared header. */
  ghost function CommitWrite(d: Disk, mem: Disk, lh: seq<nat>, i: nat): (w: Write)
    requires CanCommit(d, mem, lh) && i < 2 * |lh| + 2
    ensures w.blockno < |d|
  {
    var n := |lh|;
    if i < n then Write(LOGSTART + 1 + i, mem[lh[i]])
    else if i == n then Write(LOGSTART, PutHead(d[LOGSTART], lh, n))
    else if i <= 2 * n then Write(lh[i - n - 1], mem[lh[i - n - 1]])
    else Write(LOGSTART, ClearHead(PutHead(d[LOGSTART], lh, n)))
  }

  ghost function CommitWrites(d: Disk, mem: Disk, lh: seq<nat>): (ws: seq<Write>)
    requires CanCommit(d, mem, lh)
    ensures InRange(d, ws)
    ensures |ws| == if lh == [] then 0 else 2 * |lh| + 2
  {
    if lh == [] then []
    else seq(2 * |lh| + 2, i requires 0 <= i < 2 * |lh| + 2 => CommitWrite(d, mem, lh, i))
  }

  lemma CommitWriteAt(d: Disk, mem: Disk, lh: seq<nat>, i: nat)
    requires CanCommit(d, mem, lh) && i < |CommitWrites(d, mem, lh)|
    ensures CommitWrites(d, mem, lh)[i] == CommitWrite(d, mem, lh, i)
  {
  }

  lemma CommitWriteHome(d: Disk, mem: Disk, lh: seq<nat>, i: nat, j: nat)
    requires CanCommit(d, mem, lh) && i < |lh| && j == |lh| + 1 + i
    ensures CommitWrite(d, mem, lh, j) == Write(lh[i], mem[lh[i]])
  {
    assert j - |lh| - 1 == i;
  }

  /** Phase 1: only log data blocks have been written. */
  lemma {:induction false} CommitLogged(d: Disk, mem: Disk, lh: seq<nat>, k: nat)
    requires CanCommit(d, mem, lh) && k <= |lh| && lh != []
    ensures var r := Apply(d, CommitWrites(d, mem, lh)[..k]);
            forall b :: 0 <= b < |d| && !(LOGSTART < b < LOGSTART + NLOG) ==> r[b] == d[b]
  {
    var ws := CommitWrites(d, mem, lh)[..k];
    forall b | 0 <= b < |d| && !(LOGSTART < b < LOGSTART + NLOG)
      ensures Apply(d, ws)[b] == d[b]
    {
      Untouched(d, ws, b);
    }
  }

  /** Phase 2: the header names the transaction, whose blocks are all in the log, and some of
      them are home. */
  lemma {:induction false} CommitInstalled(d: Disk, mem: Disk, lh: seq<nat>, k: nat)
    requires CanCommit(d, mem, lh) && lh != [] && |lh| < k <= 2 * |lh| + 1
    ensures var r := Apply(d, CommitWrites(d, mem, lh)[..k]);
            && r[LOGSTART] == PutHead(d[LOGSTART], lh, |lh|)
            && (forall i :: 0 <= i < |lh| ==> r[LOGSTART + 1 + i] == mem[lh[i]])
            && (forall b: nat :: IsHome(|d|, b) && b !in lh ==> r[b] == d[b])
            && (forall i :: 0 <= i < k - |lh| - 1 ==> r[lh[i]] == mem[lh[i]])
  {
    CommitMid(d, mem, lh, k);
    MidDisk(d, mem, lh, CommitWrites(d, mem, lh)[..k]);
  }

  lemma CommitMid(d: Disk, mem: Disk, lh: seq<nat>, k: nat)
    requires CanCommit(d, mem, lh) && lh != [] && |lh| < k <= 2 * |lh| + 1
    ensures MidWrites(d, mem, lh, CommitWrites(d, mem, lh)[..k])
  {
  }

  lemma MidDisk(d: Disk, mem: Disk, lh: seq<nat>, ws: seq<Write>)
    requires MidWrites(d, mem, lh, ws)
    ensures var r := Apply(d, ws);
            && r[LOGSTART] == PutHead(d[LOGSTART], lh, |lh|)
            && (forall i :: 0 <= i < |lh| ==> r[LOGSTART + 1 + i] == mem[lh[i]])
            && (forall b: nat :: IsHome(|d|, b) && b !in lh ==> r[b] == d[b])
            && (forall i :: 0 <= i < |ws| - |lh| - 1 ==> r[lh[i]] == mem[lh[i]])
  {
    forall i | 0 <= i < |lh| ensures Apply(d, ws)[LOGSTART + 1 + i] == mem[lh[i]] {
      MidLogged(d, mem, lh, ws, i);
    }
    forall b: nat | IsHome(|d|, b) && b !in lh ensures Apply(d, ws)[b] == d[b] {
      MidUntouched(d, mem, lh, ws, b);
    }
    forall i | 0 <= i < |ws| - |lh| - 1 ensures Apply(d, ws)[lh[i]] == mem[lh[i]] {
      MidHome(d, mem, lh, ws, i);
    }
    MidHead(d, mem, lh, ws);
  }

  ghost predicate MidWrites(d: Disk, mem: Disk, lh: seq<nat>, ws: seq<Write>) {
    && CanCommit(d, mem, lh) && |lh| < |ws| <= 2 * |lh| + 1 && InRange(d, ws)
    && forall i :: 0 <= i < |ws| ==> ws[i] == CommitWrite(d, mem, lh, i)
  }

  lemma MidHead(d: Disk, mem: Disk, lh: seq<nat>, ws: seq<Write>)
    requires MidWrites(d, mem, lh, ws)
    ensures Apply(d, ws)[LOGSTART] == PutHead(d[LOGSTART], lh, |lh|)
  {
    LastWrite(d, ws, |lh|);
  }

  lemma MidLogged(d: Disk, mem: Disk, lh: seq<nat>, ws: seq<Write>, i: nat)
    requires MidWrites(d, mem, lh, ws) && i < |lh|
    ensures Apply(d, ws)[LOGSTART + 1 + i] == mem[lh[i]]
  {
    LastWrite(d, ws, i);
  }

  lemma MidUntouched(d: Disk, mem: Disk, lh: seq<nat>, ws: seq<Write>, b: nat)
    requires MidWrites(d, mem, lh, ws) && IsHome(|d|, b) && b !in lh
    ensures Apply(d, ws)[b] == d[b]
  {
    Untouched(d, ws, b);
  }

  lemma MidHome(d: Disk, mem: Disk, lh: seq<nat>, ws: seq<Write>, i: nat)
    requires MidWrites(d, mem, lh, ws) && i < |ws| - |lh| - 1
    ensures Apply(d, ws)[lh[i]] == mem[lh[i]]
  {
    assert ws[|lh| + 1 + i] == CommitWrite(d, mem, lh, |lh| + 1 + i);
    LastWrite(d, ws, |lh| + 1 + i);
  }

  /** Phase 3: the whole commit. */
  lemma CommitDone(d: Disk, mem: Disk, lh: seq<nat>)
    requires CanCommit(d, mem, lh)
    ensures var r := Apply(d, CommitWrites(d, mem, lh));
            GoodDisk(r) && HeadN(r[LOGSTART]) == 0 && HomeEq(r, mem)
  {
    if lh != [] {
      var k := 2 * |lh| + 1;
      CommitInstalled(d, mem, lh, k);
      CommitLast(d, mem, lh);
      ClearedHome(d, mem, lh, Apply(d, CommitWrites(d, mem, lh)[..k]));
    }
  }

  lemma CommitLast(d: Disk, mem: Disk, lh: seq<nat>)
    requires CanCommit(d, mem, lh) && lh != []
    ensures Apply(d, CommitWrites(d, mem, lh)) ==
            Apply(d, CommitWrites(d, mem, lh)[..2 * |lh| + 1])[LOGSTART := ClearHead(PutHead(d[LOGSTART], lh, |lh|))]
  {
    var ws := CommitWrites(d, mem, lh);
    assert ws[2 * |lh| + 1] == CommitWrite(d, mem, lh, 2 * |lh| + 1);
  }

  lemma ClearedHome(d: Disk, mem: Disk, lh: seq<nat>, e: Disk)
    requires CanCommit(d, mem, lh) && |e| == |d|
    requires forall b: nat :: IsHome(|d|, b) && b !in lh ==> e[b] == d[b]
    requires forall i :: 0 <= i < |lh| ==> e[lh[i]] == mem[lh[i]]
    ensures var r := e[LOGSTART := ClearHead(PutHead(d[LOGSTART], lh, |lh|))];
            GoodDisk(r) && HeadN(r[LOGSTART]) == 0 && HomeEq(r, mem)
  {
    ClearHeadIdempotent(PutHead(d[LOGSTART], lh, |lh|));
    forall b: nat | IsHome(|d|, b) ensures e[b] == mem[b] {
      if b in lh {
        var i :| 0 <= i < |lh| && lh[i] == b;
        assert e[lh[i]] == mem[lh[i]];
      }
    }
  }

  /** Crash during commit: after any prefix of its writes, recovery yields every home block as
      it was before the transaction or every home block as the cache has it, and the new ones
      exactly when the header had reached the disk. */
  lemma CommitCrash(d: Disk, mem: Disk, lh: seq<nat>, k: nat)
    requires CanCommit(d, mem, lh) && k <= |CommitWrites(d, mem, lh)|
    ensures var e := Apply(d, CommitWrites(d, mem, lh)[..k]);
            GoodDisk(e) && HomeEq(Recover(e), if k <= |lh| then d else mem)
  {
    var n := |lh|;
    var ws := CommitWrites(d, mem, lh);
    var e := Apply(d, ws[..k]);
    if lh == [] {
      ClearRecovers(d);
    } else if k <= n {
      CommitLogged(d, mem, lh, k);
      ClearRecovers(e);
    } else if k == 2 * n + 2 {
      assert ws[..k] == ws;
      CommitDone(d, mem, lh);
      ClearRecovers(e);
    } else {
      CommitInstalled(d, mem, lh, k);
      LoggedRecovers(d, mem, lh, e);
    }
  }

  lemma LoggedRecovers(d: Disk, mem: Disk, lh: seq<nat>, e: Disk)
    requires CanCommit(d, mem, lh) && |e| == |d|
    requires e[LOGSTART] == PutHead(d[LOGSTART], lh, |lh|)
    requires forall i :: 0 <= i < |lh| ==> e[LOGSTART + 1 + i] == mem[lh[i]]
    requires forall b: nat :: IsHome(|d|, b) && b !in lh ==> e[b] == d[b]
    ensures GoodDisk(e) && HomeEq(Recover(e), mem)
  {
    HeadRoundTrip(d[LOGSTART], lh);
    assert Head(e[LOGSTART]) == lh;
    RecoverAt(e);
    forall b: nat | IsHome(|d|, b) ensures Recover(e)[b] == mem[b] {
      if b in lh {
        var i :| 0 <= i < |lh| && lh[i] == b;
        assert Recover(e)[lh[i]] == e[LOGSTART + 1 + i];
      }
    }
  }
}
