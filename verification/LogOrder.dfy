/** The order in which sync and operations must come for the log to do its work, and what every
    step then keeps. */
module LogOrder {
  import opened Blocks
  import opened LogSpec
  import opened LogRun

  /** Some commit() has not yet written its last header. */
  ghost predicate Pending(s: State) { exists c :: 0 <= c < |s.commits| && !s.commits[c].pc.Finished? }

  /** sync finds nothing to commit or nothing outstanding, and no operation starts while a commit
      that log.committing does not announce is under way. */
  ghost predicate Allowed(s: State, e: Event) {
    s.phase.Running? ==>
      match e
      case Sync => s.lh == [] || s.ops == []
      case BeginOp(_) => Admits(|s.lh|, |s.ops|, s.committing) ==> !Pending(s)
      case _ => true
  }

  // ---- the invariant ----

  /** Away from the transaction the cache has nothing that the disk has not. */
  ghost predicate Outside(disk: Disk, mem: Disk, lh: seq<nat>) {
    |mem| == |disk| && forall b: nat :: IsHome(|disk|, b) && b !in lh ==> mem[b] == disk[b]
  }

  /** The log blocks that the header on disk counts hold what is cached. */
  ghost predicate HeadHolds(disk: Disk, mem: Disk) {
    && GoodDisk(disk) && |mem| == |disk|
    && forall i :: 0 <= i < HeadN(disk[LOGSTART]) ==> disk[LOGSTART + 1 + i] == mem[Head(disk[LOGSTART])[i]]
  }

  /** The first t blocks of the transaction are in the log. */
  ghost predicate InLogTo(disk: Disk, mem: Disk, lh: seq<nat>, t: nat) {
    && GoodDisk(disk) && |mem| == |disk| && GoodLh(|disk|, lh) && t <= |lh|
    && forall i :: 0 <= i < t ==> disk[LOGSTART + 1 + i] == mem[lh[i]]
  }

  /** The first t blocks of the transaction are at home. */
  ghost predicate HomeTo(disk: Disk, mem: Disk, lh: seq<nat>, t: nat) {
    && |mem| == |disk| && GoodLh(|disk|, lh) && t <= |lh|
    && forall i :: 0 <= i < t ==> disk[lh[i]] == mem[lh[i]]
  }

  /** What a commit that has come to pc has done. Once the transaction is gone, nothing is left to do. */
  ghost predicate Progress(disk: Disk, mem: Disk, lh: seq<nat>, pc: Pc)
    requires GoodDisk(disk)
  {
    match pc
    case Logging(t) => lh != [] ==> InLogTo(disk, mem, lh, t)
    case Installing(t) => lh != [] ==> Head(disk[LOGSTART]) == lh && HomeTo(disk, mem, lh, t)
    case Clearing => lh == []
    case Finished => true
  }

  ghost predicate CommitInv(s: State)
    requires Steppable(s)
  {
    && Outside(s.disk, s.mem, s.lh) && HeadHolds(s.disk, s.mem)
    && (HeadN(s.disk[LOGSTART]) > 0 ==>
          Pending(s) && (s.lh == [] || Head(s.disk[LOGSTART]) == s.lh) && s.durable == |s.hist|)
    && (forall c :: 0 <= c < |s.commits| ==> Progress(s.disk, s.mem, s.lh, s.commits[c].pc))
    && (Pending(s) ==> s.ops == [])
  }

  ghost predicate OpsInv(s: State) {
    && (forall i, j :: 0 <= i < j < |s.ops| ==> s.ops[i].pid != s.ops[j].pid)
    && (forall p: nat :: p in Open(s.hist) <==> Pids(s.ops, p))
  }

  /** The durable part of the history is closed, and is what recovery brings back. */
  ghost predicate DurableInv(base: Disk, s: State) {
    && s.durable <= |s.hist| && Open(s.hist[..s.durable]) == {}
    && GoodDisk(s.disk) && |s.disk| == |base|
    && HomeEq(Recover(s.disk), Replay(base, s.hist[..s.durable]))
  }

  ghost predicate RunningInv(base: Disk, s: State)
    requires Steppable(s)
  {
    CommitInv(s) && SleepInv(s) && OpsInv(s) && HomeEq(s.mem, Replay(base, s.hist))
  }

  ghost predicate Inv(base: Disk, s: State) {
    var inv := Steppable(s) && SpaceInv(s) && DurableInv(base, s) &&
               (s.phase.Running? ==> RunningInv(base, s)) &&
               (s.phase.Recovery? ==> s.durable == |s.hist| && s.asleep == {});
    inv
  }

  // ---- operations ----

  lemma Snoc(base: Disk, h: seq<Entry>, e: Entry)
    ensures Replay(base, h + [e]) ==
            if e.Wrote? && e.blockno < |base| then Replay(base, h)[e.blockno := e.data] else Replay(base, h)
    ensures Open(h + [e]) ==
            if e.Begun? then Open(h) + {e.pid} else if e.Ended? then Open(h) - {e.pid} else Open(h)
  {
    assert (h + [e])[..|h|] == h;
  }

  lemma Extended(base: Disk, s: State, e: Entry, t: State)
    requires DurableInv(base, s)
    requires t.hist == s.hist + [e] && t.durable == s.durable && t.disk == s.disk
    ensures DurableInv(base, t)
  {
    assert t.hist[..t.durable] == s.hist[..s.durable];
  }

  lemma BeginOps(s: State, pid: nat)
    requires OpsInv(s) && !Pids(s.ops, pid)
    ensures OpsInv(s.(ops := s.ops + [Op(pid, {})], hist := s.hist + [Begun(pid)]))
  {
    var t := s.(ops := s.ops + [Op(pid, {})], hist := s.hist + [Begun(pid)]);
    assert t.hist[..|s.hist|] == s.hist;
    forall p: nat ensures p in Open(t.hist) <==> Pids(t.ops, p) {
      if Pids(s.ops, p) {
        var i :| 0 <= i < |s.ops| && s.ops[i].pid == p;
        assert t.ops[i].pid == p;
      }
      if p == pid { assert t.ops[|s.ops|].pid == p; }
    }
  }

  /** With nothing pending, CommitInv does not look at the operations or the history. */
  lemma QuietCommit(s: State, t: State)
    requires Steppable(s) && Steppable(t) && CommitInv(s) && !Pending(s)
    requires t.disk == s.disk && t.commits == s.commits && Outside(t.disk, t.mem, t.lh)
    ensures CommitInv(t)
  {
  }

  lemma BeginKeeps(base: Disk, s: State, pid: nat)
    requires Inv(base, s) && s.phase.Running? && Allowed(s, BeginOp(pid))
    ensures Inv(base, Begin(s, pid))
  {
    BeginSpace(s, pid);
    if pid !in s.asleep && !Pids(s.ops, pid) && Admits(|s.lh|, |s.ops|, s.committing) {
      var t := Begin(s, pid);
      Snoc(base, s.hist, Begun(pid));
      Extended(base, s, Begun(pid), t);
      BeginOps(s, pid);
      QuietCommit(s, t);
    }
  }

  lemma LogOps(s: State, i: nat, b: nat, data: Block)
    requires OpsInv(s) && i < |s.ops| && b < |s.mem| && !TooBig(|s.lh|)
    ensures OpsInv(Log(s, i, b, data))
  {
    var t := Log(s, i, b, data);
    assert t.hist[..|s.hist|] == s.hist;
    forall p: nat ensures Pids(t.ops, p) <==> Pids(s.ops, p) {
      if Pids(s.ops, p) {
        var j :| 0 <= j < |s.ops| && s.ops[j].pid == p;
        assert t.ops[j].pid == p;
      }
    }
  }

  lemma LogOutside(disk: Disk, mem: Disk, lh: seq<nat>, b: nat, data: Block)
    requires Outside(disk, mem, lh) && b < |mem|
    ensures Outside(disk, mem[b := data], Absorb(lh, b))
  {
    assert forall x :: x in lh || x == b ==> x in Absorb(lh, b);
  }

  lemma LogMem(base: Disk, s: State, i: nat, b: nat, data: Block)
    requires HomeEq(s.mem, Replay(base, s.hist)) && i < |s.ops| && b < |s.mem| && !TooBig(|s.lh|)
    ensures var t := Log(s, i, b, data); HomeEq(t.mem, Replay(base, t.hist))
  {
    Snoc(base, s.hist, Wrote(s.ops[i].pid, b, data));
  }

  lemma LogKeeps(base: Disk, s: State, i: nat, b: nat, data: Block)
    requires Inv(base, s) && s.phase.Running? && WithinBudget(s, i, b)
    ensures Inv(base, Log(s, i, b, data))
  {
    var t := Log(s, i, b, data);
    LogSpace(s, i, b, data);
    LogSteppable(s, i, b, data);
    if !TooBig(|s.lh|) {
      Extended(base, s, Wrote(s.ops[i].pid, b, data), t);
      LogMem(base, s, i, b, data);
      LogOps(s, i, b, data);
      LogOutside(s.disk, s.mem, s.lh, b, data);
      QuietCommit(s, t);
    }
  }

  lemma EndOps(s: State, i: nat, t: State)
    requires OpsInv(s) && i < |s.ops|
    requires t.ops == s.ops[..i] + s.ops[i + 1..] && t.hist == s.hist + [Ended(s.ops[i].pid)]
    ensures OpsInv(t)
  {
    assert t.hist[..|s.hist|] == s.hist;
    forall p: nat ensures p in Open(t.hist) <==> Pids(t.ops, p) {
      if Pids(s.ops, p) && p != s.ops[i].pid {
        var j :| 0 <= j < |s.ops| && s.ops[j].pid == p;
        assert t.ops[if j < i then j else j - 1].pid == p;
      }
      if Pids(t.ops, p) {
        var j :| 0 <= j < |t.ops| && t.ops[j].pid == p;
        assert s.ops[if j < i then j else j + 1].pid == p;
      }
    }
  }

  /** A commit joins those under way, if any. */
  lemma StartCommitInv(s: State, guarded: bool)
    requires Steppable(s) && CommitInv(s) && s.ops == []
    ensures Steppable(StartCommit(s, guarded)) && CommitInv(StartCommit(s, guarded))
  {
    var t := StartCommit(s, guarded);
    if Pending(s) {
      var c :| 0 <= c < |s.commits| && !s.commits[c].pc.Finished?;
      assert !t.commits[c].pc.Finished?;
    }
  }

  /** The operation is gone, and whether a commit starts is still to be decided. */
  lemma EndParts(base: Disk, s: State, i: nat, t: State)
    requires Inv(base, s) && s.phase.Running? && i < |s.ops|
    requires t == s.(ops := s.ops[..i] + s.ops[i + 1..], hist := s.hist + [Ended(s.ops[i].pid)])
    ensures Steppable(t) && CommitInv(t) && !Pending(t) && DurableInv(base, t) && OpsInv(t)
    ensures HomeEq(t.mem, Replay(base, t.hist))
  {
    Snoc(base, s.hist, Ended(s.ops[i].pid));
    Extended(base, s, Ended(s.ops[i].pid), t);
    EndOps(s, i, t);
    QuietCommit(s, t);
  }

  lemma EndKeeps(base: Disk, s: State, i: nat)
    requires Inv(base, s) && s.phase.Running? && i < |s.ops|
    ensures Inv(base, End(s, i))
  {
    EndSpace(s, i);
    var t := s.(ops := s.ops[..i] + s.ops[i + 1..], hist := s.hist + [Ended(s.ops[i].pid)]);
    EndParts(base, s, i, t);
    if CommitsAtEnd(|t.ops|, |t.lh|) {
      QuietCommit(t, t.(committing := true));
      StartCommitInv(t.(committing := true), true);
    } else {
      QuietCommit(t, t.(asleep := {}));
    }
  }

  lemma SyncKeeps(base: Disk, s: State)
    requires Inv(base, s) && s.phase.Running? && Allowed(s, Sync)
    ensures Inv(base, StartCommit(s, false))
  {
    SyncGuard(s);
    if s.lh != [] { StartCommitInv(s, false); }
  }

  // ---- commits ----

  lemma QuietClosed(s: State)
    requires OpsInv(s) && s.ops == []
    ensures Open(s.hist) == {} && s.hist[..|s.hist|] == s.hist
  {
    forall p: nat ensures p !in Open(s.hist) { assert !Pids(s.ops, p); }
  }

  /** What the header on disk stands for, when it counts some blocks or when all is at home. */
  lemma HeadRecovers(disk: Disk, mem: Disk)
    requires HeadHolds(disk, mem) && Outside(disk, mem, Head(disk[LOGSTART]))
    ensures HomeEq(Recover(disk), mem)
  {
    RecoverAt(disk);
    var lh := Head(disk[LOGSTART]);
    forall b: nat | IsHome(|disk|, b) ensures Recover(disk)[b] == mem[b] {
      if b in lh {
        var i :| 0 <= i < |lh| && lh[i] == b;
        assert Recover(disk)[lh[i]] == disk[LOGSTART + 1 + i];
      }
    }
  }

  /** A pending commit of c, and still one after c's next step. */
  lemma StillPending(s: State, c: nat, t: State)
    requires c < |s.commits| == |t.commits| && t.commits == s.commits[c := t.commits[c]]
    requires !t.commits[c].pc.Finished? || s.commits[c].pc.Finished?
    ensures Pending(s) ==> Pending(t)
    ensures !s.commits[c].pc.Finished? ==> Pending(s)
  {
    if Pending(s) {
      var e :| 0 <= e < |s.commits| && !s.commits[e].pc.Finished?;
      assert e != c ==> !t.commits[e].pc.Finished?;
    }
  }

  /** The log block being written is new, or holds this already. */
  lemma LogNextDisk(s: State, c: nat, k: nat)
    requires Steppable(s) && CommitInv(s) && c < |s.commits| && s.commits[c].pc == Logging(k) && k < |s.lh|
    ensures var t := LogNext(s, c, k);
            && (HeadN(s.disk[LOGSTART]) == 0 || t.disk == s.disk)
            && (forall b: nat :: b < |s.disk| && b != LOGSTART + 1 + k ==> t.disk[b] == s.disk[b])
            && t.disk[LOGSTART + 1 + k] == s.mem[s.lh[k]]
  {
    StillPending(s, c, LogNext(s, c, k));
  }

  lemma LogNextProgress(s: State, k: nat, disk: Disk, pc: Pc)
    requires Steppable(s) && GoodDisk(disk) && |disk| == |s.disk| && k < |s.lh| && Progress(s.disk, s.mem, s.lh, pc)
    requires forall b: nat :: b < |s.disk| && b != LOGSTART + 1 + k ==> disk[b] == s.disk[b]
    requires disk[LOGSTART + 1 + k] == s.mem[s.lh[k]]
    ensures Progress(disk, s.mem, s.lh, pc)
    ensures pc == Logging(k) ==> Progress(disk, s.mem, s.lh, Logging(k + 1))
  {
  }

  lemma LogNextInv(s: State, c: nat, k: nat)
    requires Steppable(s) && CommitInv(s) && s.phase.Running?
    requires c < |s.commits| && s.commits[c].pc == Logging(k) && k < |s.lh|
    ensures var t := LogNext(s, c, k); Steppable(t) && CommitInv(t) && HomeEq(Recover(t.disk), Recover(s.disk))
  {
    var t := LogNext(s, c, k);
    LogNextDisk(s, c, k);
    StillPending(s, c, t);
    forall e | 0 <= e < |t.commits| ensures Progress(t.disk, t.mem, t.lh, t.commits[e].pc) {
      LogNextProgress(s, k, t.disk, s.commits[e].pc);
    }
    if HeadN(s.disk[LOGSTART]) == 0 {
      ClearRecovers(s.disk);
      ClearRecovers(t.disk);
    }
  }

  /** The header is written: the transaction, or what is left of it, is what recovery brings back. */
  lemma HeadWrittenInv(s: State)
    requires Steppable(s) && Outside(s.disk, s.mem, s.lh) && (s.lh != [] ==> InLogTo(s.disk, s.mem, s.lh, |s.lh|))
    ensures var e := HeadWritten(s);
            && GoodDisk(e) && Head(e[LOGSTART]) == s.lh && Outside(e, s.mem, s.lh) && HeadHolds(e, s.mem)
            && HomeEq(Recover(e), s.mem)
  {
    HeadWrittenGood(s);
    HeadRecovers(HeadWritten(s), s.mem);
  }

  lemma HeadProgress(s: State, pc: Pc)
    requires Steppable(s) && Progress(s.disk, s.mem, s.lh, pc)
    ensures GoodDisk(HeadWritten(s)) && Progress(HeadWritten(s), s.mem, s.lh, pc)
    ensures Progress(HeadWritten(s), s.mem, s.lh, Installing(0))
  {
    HeadWrittenGood(s);
  }

  lemma FirstHeadInv(s: State, c: nat, k: nat)
    requires Steppable(s) && CommitInv(s) && s.phase.Running?
    requires c < |s.commits| && s.commits[c].pc == Logging(k) && k >= |s.lh|
    ensures var t := Advance(s, c); Steppable(t) && CommitInv(t) && HomeEq(Recover(t.disk), t.mem)
  {
    var t := Advance(s, c);
    HeadWrittenInv(s);
    StillPending(s, c, t);
    forall e | 0 <= e < |t.commits| ensures Progress(t.disk, t.mem, t.lh, t.commits[e].pc) {
      HeadProgress(s, s.commits[e].pc);
    }
  }

  lemma InstallDisk(s: State, c: nat, k: nat)
    requires Steppable(s) && CommitInv(s) && c < |s.commits| && s.commits[c].pc == Installing(k) && k < |s.lh|
    ensures var t := InstallNext(s, c, k);
            && t.mem == s.mem && t.disk == s.disk[s.lh[k] := s.mem[s.lh[k]]]
            && Outside(t.disk, t.mem, s.lh) && HeadHolds(t.disk, t.mem) && Head(t.disk[LOGSTART]) == s.lh
  {
    assert Progress(s.disk, s.mem, s.lh, s.commits[c].pc);
  }

  lemma InstallProgress(disk: Disk, mem: Disk, lh: seq<nat>, k: nat, pc: Pc)
    requires GoodDisk(disk) && |mem| == |disk| && GoodLh(|disk|, lh) && k < |lh| && Progress(disk, mem, lh, pc)
    ensures var e := disk[lh[k] := mem[lh[k]]];
            && GoodDisk(e) && Progress(e, mem, lh, pc)
            && (pc == Installing(k) ==> Progress(e, mem, lh, Installing(k + 1)))
  {
  }

  lemma InstallNextInv(s: State, c: nat, k: nat)
    requires Steppable(s) && CommitInv(s) && s.phase.Running?
    requires c < |s.commits| && s.commits[c].pc == Installing(k) && k < |s.lh|
    ensures var t := InstallNext(s, c, k);
            Steppable(t) && CommitInv(t) && t.mem == s.mem && HomeEq(Recover(t.disk), Recover(s.disk))
  {
    var t := InstallNext(s, c, k);
    InstallDisk(s, c, k);
    StillPending(s, c, t);
    forall e | 0 <= e < |t.commits| ensures Progress(t.disk, t.mem, t.lh, t.commits[e].pc) {
      InstallProgress(s.disk, s.mem, s.lh, k, s.commits[e].pc);
    }
    HeadRecovers(s.disk, s.mem);
    HeadRecovers(t.disk, t.mem);
  }

  lemma AllHome(disk: Disk, mem: Disk, lh: seq<nat>, t: nat)
    requires Outside(disk, mem, lh) && (lh != [] ==> HomeTo(disk, mem, lh, t) && t == |lh|)
    ensures Outside(disk, mem, []) && HomeEq(disk, mem)
  {
    forall b: nat | IsHome(|disk|, b) ensures mem[b] == disk[b] {
      if b in lh {
        var i :| 0 <= i < |lh| && lh[i] == b;
        assert disk[lh[i]] == mem[lh[i]];
      }
    }
  }

  lemma DropInv(s: State, c: nat, k: nat)
    requires Steppable(s) && CommitInv(s) && s.phase.Running?
    requires c < |s.commits| && s.commits[c].pc == Installing(k) && k >= |s.lh|
    ensures var t := Advance(s, c); Steppable(t) && CommitInv(t)
  {
    var t := Advance(s, c);
    assert Progress(s.disk, s.mem, s.lh, s.commits[c].pc);
    AllHome(s.disk, s.mem, s.lh, k);
    StillPending(s, c, t);
  }

  lemma LastHeadInv(s: State, c: nat)
    requires Steppable(s) && CommitInv(s) && s.phase.Running? && c < |s.commits| && s.commits[c].pc.Clearing?
    ensures var t := Advance(s, c); Steppable(t) && CommitInv(t) && HomeEq(Recover(t.disk), Recover(s.disk))
  {
    var t := Advance(s, c);
    assert s.lh == [] by { assert Progress(s.disk, s.mem, s.lh, s.commits[c].pc); }
    HeadWrittenInv(s);
    HeadRecovers(s.disk, s.mem);
    forall e | 0 <= e < |t.commits| ensures Progress(t.disk, t.mem, t.lh, t.commits[e].pc) {
      HeadProgress(s, s.commits[e].pc);
    }
    assert Pending(s);
  }

  /** A step of a commit that keeps what recovery brings back. */
  lemma SameDurable(base: Disk, s: State, t: State)
    requires DurableInv(base, s) && t.hist == s.hist && t.durable == s.durable
    requires GoodDisk(t.disk) && |t.disk| == |s.disk| && HomeEq(Recover(t.disk), Recover(s.disk))
    ensures DurableInv(base, t)
  {
  }

  /** A commit goes on, with the same transaction over the same cache. */
  lemma SameKeeps(base: Disk, s: State, t: State)
    requires Inv(base, s) && s.phase.Running? && Steppable(t) && CommitInv(t) && SpaceInv(t) && DurableInv(base, t)
    requires t == s.(disk := t.disk, commits := t.commits, durable := t.durable)
    ensures Inv(base, t)
  {
    assert SleepInv(t) && OpsInv(t);
  }

  lemma LogNextKeeps(base: Disk, s: State, c: nat, k: nat)
    requires Inv(base, s) && s.phase.Running? && c < |s.commits| && s.commits[c].pc == Logging(k) && k < |s.lh|
    requires SpaceInv(LogNext(s, c, k))
    ensures Inv(base, LogNext(s, c, k))
  {
    LogNextInv(s, c, k);
    SameDurable(base, s, LogNext(s, c, k));
    SameKeeps(base, s, LogNext(s, c, k));
  }

  lemma FirstHeadKeeps(base: Disk, s: State, c: nat, k: nat, t: State)
    requires Inv(base, s) && s.phase.Running? && c < |s.commits| && s.commits[c].pc == Logging(k) && k >= |s.lh|
    requires t == Advance(s, c) && SpaceInv(t)
    ensures Inv(base, t)
  {
    FirstHeadInv(s, c, k);
    assert Pending(s);
    QuietClosed(s);
    SameKeeps(base, s, t);
  }

  lemma InstallKeeps(base: Disk, s: State, c: nat, k: nat)
    requires Inv(base, s) && s.phase.Running? && c < |s.commits| && s.commits[c].pc == Installing(k) && k < |s.lh|
    requires SpaceInv(InstallNext(s, c, k))
    ensures Inv(base, InstallNext(s, c, k))
  {
    InstallNextInv(s, c, k);
    SameDurable(base, s, InstallNext(s, c, k));
    SameKeeps(base, s, InstallNext(s, c, k));
  }

  lemma DropKeeps(base: Disk, s: State, c: nat, k: nat, t: State)
    requires Inv(base, s) && s.phase.Running? && c < |s.commits| && s.commits[c].pc == Installing(k) && k >= |s.lh|
    requires t == Advance(s, c) && SpaceInv(t)
    ensures Inv(base, t)
  {
    DropInv(s, c, k);
    assert Pending(s);
    assert s.asleep != {} ==> s.committing;
  }

  lemma LastHeadKeeps(base: Disk, s: State, c: nat, t: State)
    requires Inv(base, s) && s.phase.Running? && c < |s.commits| && s.commits[c].pc.Clearing?
    requires t == Advance(s, c) && SpaceInv(t)
    ensures Inv(base, t)
  {
    LastHeadInv(s, c);
    SameDurable(base, s, t);
    SameKeeps(base, s, t);
  }

  lemma AdvanceKeeps(base: Disk, s: State, c: nat)
    requires Inv(base, s) && s.phase.Running? && c < |s.commits|
    ensures Inv(base, Advance(s, c))
  {
    AdvanceSpace(s, c);
    var t := Advance(s, c);
    match s.commits[c].pc
    case Logging(k) => if k < |s.lh| { LogNextKeeps(base, s, c, k); } else { FirstHeadKeeps(base, s, c, k, t); }
    case Installing(k) => if k < |s.lh| { InstallKeeps(base, s, c, k); } else { DropKeeps(base, s, c, k, t); }
    case Clearing => LastHeadKeeps(base, s, c, t);
    case Finished =>
  }

  lemma FinishCommit(s: State, c: nat)
    requires Steppable(s) && CommitInv(s) && c < |s.commits| && s.commits[c].pc.Finished?
    ensures Steppable(Finish(s, c)) && CommitInv(Finish(s, c))
  {
    var t := Finish(s, c);
    assert forall e :: 0 <= e < |t.commits| ==> t.commits[e] == s.commits[if e < c then e else e + 1];
    if Pending(s) {
      var e :| 0 <= e < |s.commits| && !s.commits[e].pc.Finished?;
      assert !t.commits[if e < c then e else e - 1].pc.Finished?;
    }
  }

  lemma FinishKeeps(base: Disk, s: State, c: nat)
    requires Inv(base, s) && s.phase.Running? && c < |s.commits|
    ensures Inv(base, Finish(s, c))
  {
    FinishSpace(s, c);
    if s.commits[c].pc.Finished? { FinishCommit(s, c); }
  }

  // ---- recovery, power failure, and all of them together ----

  lemma RecoverKeeps(base: Disk, s: State)
    requires Inv(base, s) && s.phase.Recovery?
    ensures Inv(base, RecoverNext(s))
  {
    RecoverSteppable(s);
    var d, k := s.phase.before, s.phase.done;
    if k < |RecoverWrites(d)| {
      ApplyNext(d, RecoverWrites(d), k);
      RecoverRestart(d, k);
      RecoverRestart(d, k + 1);
    } else {
      RecoverEnds(base, s);
    }
  }

  lemma RecoverEnds(base: Disk, s: State)
    requires Inv(base, s) && s.phase.Recovery? && s.phase.done == |RecoverWrites(s.phase.before)|
    ensures Inv(base, RecoverNext(s))
  {
    var d := s.phase.before;
    assert RecoverWrites(d)[..|RecoverWrites(d)|] == RecoverWrites(d);
    assert s.disk == Recover(d);
    RecoverAt(d);
    ClearHeadIdempotent(d[LOGSTART]);
    ClearRecovers(s.disk);
    assert s.hist[..|s.hist|] == s.hist;
    forall p: nat ensures !Pids(s.ops, p) && p !in Open(s.hist) {}
  }

  lemma CrashKeeps(base: Disk, s: State)
    requires Inv(base, s)
    ensures Inv(base, PowerFail(s))
  {
    CrashSteppable(s);
    var t := PowerFail(s);
    assert t.hist[..t.durable] == t.hist == s.hist[..s.durable];
  }

  lemma StepKeeps(base: Disk, s: State, e: Event)
    requires Inv(base, s) && Allowed(s, e)
    ensures Inv(base, Step(s, e))
  {
    match e
    case Crash => CrashKeeps(base, s);
    case RecoverStep => if s.phase.Recovery? { RecoverKeeps(base, s); }
    case BeginOp(pid) => if s.phase.Running? { BeginKeeps(base, s, pid); }
    case LogWrite(i, b, data) => if s.phase.Running? && WithinBudget(s, i, b) { LogKeeps(base, s, i, b, data); }
    case EndOp(i) => if s.phase.Running? && i < |s.ops| { EndKeeps(base, s, i); }
    case Sync => if s.phase.Running? { SyncKeeps(base, s); }
    case CommitStep(c) => if s.phase.Running? && c < |s.commits| { AdvanceKeeps(base, s, c); }
    case Return(c) => if s.phase.Running? && c < |s.commits| { FinishKeeps(base, s, c); }
  }

  lemma BootInv(d: Disk)
    requires GoodDisk(d)
    ensures Inv(Recover(d), Boot(d))
  {
    assert RecoverWrites(d)[..0] == [];
  }
}
