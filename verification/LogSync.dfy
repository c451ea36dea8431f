/** Exactly when sync is safe: breaking the order of LogOrder once, and never again, is enough for a
    crash to bring back half an operation. */
module LogSync {
  import opened Blocks
  import opened LogSpec
  import opened LogRun
  import opened LogOrder
  import opened LogSafety

  /** After the run es, the events `more` keep the order. */
  ghost predicate Continues(d: Disk, es: seq<Event>, more: seq<Event>) {
    forall j :: 0 <= j < |more| ==> Allowed(Run(d, es + more[..j]), more[j])
  }

  ghost predicate IntactAfter(d: Disk, es: seq<Event>)
    requires GoodDisk(d)
  {
    GoodDisk(Run(d, es).disk) && Intact(Recover(d), Run(d, es))
  }

  /** An orderly way from the run es to t. */
  ghost predicate Leads(d: Disk, es: seq<Event>, more: seq<Event>, t: State) {
    Continues(d, es, more) && Run(d, es + more) == t && Steppable(t) && SpaceInv(t)
  }

  lemma LeadsOn(d: Disk, es: seq<Event>, more: seq<Event>, t: State, e: Event, u: State)
    requires GoodDisk(d) && Leads(d, es, more, t) && Allowed(t, e) && u == Step(t, e)
    ensures Leads(d, es, more + [e], u)
  {
    assert es + (more + [e]) == (es + more) + [e];
    RunSnoc(d, es + more, e);
    RunSpace(d, es + more + [e]);
    forall j | 0 <= j <= |more| ensures Allowed(Run(d, es + (more + [e])[..j]), (more + [e])[j]) {
      assert (more + [e])[..j] == more[..j];
      if j == |more| { assert more[..j] == more; }
    }
  }

  // ---- a commit runs on to where it has dropped the transaction ----

  function Left(n: nat, pc: Pc): nat {
    match pc
    case Logging(t) => if t < n then 2 * n + 3 - t else n + 2
    case Installing(t) => if t < n then n + 1 - t else 1
    case _ => 0
  }

  /** t differs from s by steps of commits only. */
  ghost predicate OnlyCommits(s: State, t: State) {
    && t.ops == s.ops && t.hist == s.hist && t.phase == s.phase && t.committing == s.committing
    && |t.commits| == |s.commits| && |t.disk| == |s.disk|
  }

  lemma AdvanceOnly(s: State, c: nat)
    requires Steppable(s) && s.phase.Running? && c < |s.commits| && !Cleared(s.commits[c].pc)
    ensures var t := Advance(s, c);
            OnlyCommits(s, t) && !t.commits[c].pc.Finished? && (t.commits[c].pc.Clearing? ==> t.lh == [])
    ensures Left(|Advance(s, c).lh|, Advance(s, c).commits[c].pc) < Left(|s.lh|, s.commits[c].pc)
  {
  }

  lemma {:induction false} ToClearing(d: Disk, es: seq<Event>, more: seq<Event>, s: State, c: nat)
    returns (more': seq<Event>, t: State)
    requires GoodDisk(d) && Leads(d, es, more, s) && s.phase.Running? && c < |s.commits|
    requires !Cleared(s.commits[c].pc) || (s.commits[c].pc.Clearing? && s.lh == [])
    ensures Leads(d, es, more', t) && OnlyCommits(s, t) && t.commits[c].pc.Clearing? && t.lh == []
    decreases Left(|s.lh|, s.commits[c].pc)
  {
    if s.commits[c].pc.Clearing? {
      more', t := more, s;
    } else {
      AdvanceOnly(s, c);
      LeadsOn(d, es, more, s, CommitStep(c), Advance(s, c));
      more', t := ToClearing(d, es, more + [CommitStep(c)], Advance(s, c), c);
    }
  }

  // ---- the blocks of an operation are home blocks ----

  ghost predicate LoggedHome(s: State) {
    forall i, b :: 0 <= i < |s.ops| && b in s.ops[i].logged ==> IsHome(|s.disk|, b)
  }

  lemma StepHome(s: State, e: Event)
    requires Steppable(s) && LoggedHome(s)
    ensures LoggedHome(Step(s, e))
  {
    var t := Step(s, e);
    if e.EndOp? && s.phase.Running? && e.op < |s.ops| {
      assert forall j :: 0 <= j < |t.ops| ==> t.ops[j] == s.ops[if j < e.op then j else j + 1];
    }
  }

  lemma {:induction false} RunHome(d: Disk, es: seq<Event>)
    requires GoodDisk(d)
    ensures LoggedHome(Run(d, es))
  {
    if es != [] {
      RunHome(d, es[..|es| - 1]);
      RunSpace(d, es[..|es| - 1]);
      StepHome(Run(d, es[..|es| - 1]), es[|es| - 1]);
    }
  }

  /** An operation that may log b may log another block besides. */
  lemma SecondBlock(s: State, i: nat, b: nat) returns (b2: nat)
    requires Steppable(s) && LoggedHome(s) && WithinBudget(s, i, b)
    ensures b2 != b && IsHome(|s.disk|, b2) && |s.ops[i].logged + {b} + {b2}| <= MAXOPBLOCKS
  {
    var known := s.ops[i].logged + {b};
    if known == {b} {
      b2 := if b == 0 then 1 else 0;
    } else {
      b2 :| b2 in known && b2 != b;
      assert known + {b2} == known;
    }
  }

  // ---- the torn transaction ----

  /** The block had other contents at every moment of the history. */
  ghost predicate New(base: Disk, h: seq<Entry>, b: nat, data: Block) {
    b < |base| && forall k :: 0 <= k <= |h| ==> Replay(base, h[..k])[b] != data
  }

  /** The header on disk counts block b alone, whose log block is stale: lh is [b, b2], and nothing of
      either is at home. */
  ghost predicate Poisoned(s: State, b: nat, data: Block, b2: nat, data2: Block) {
    && s.phase.Running? && !s.committing && s.lh == [b, b2] && Steppable(s)
    && IsHome(|s.disk|, b) && IsHome(|s.disk|, b2) && b2 != b
    && Head(s.disk[LOGSTART]) == [b] && s.mem[b] == data && s.disk[b2] != data2
  }

  /** Operation i logs b into the empty transaction. */
  lemma FirstWrite(s: State, c: nat, i: nat, b: nat, data: Block)
    requires Steppable(s) && s.phase.Running? && c < |s.commits| && s.commits[c].pc.Clearing? && s.lh == []
    requires WithinBudget(s, i, b)
    ensures var t := Log(s, i, b, data);
            && Step(s, LogWrite(i, b, data)) == t && Steppable(t) && t.lh == [b] && t.mem[b] == data
  {
    LogSteppable(s, i, b, data);
  }

  /** Commit c writes its last header, which now counts b. */
  lemma HeadTaken(s: State, c: nat, b: nat)
    requires Steppable(s) && s.phase.Running? && c < |s.commits| && s.commits[c].pc.Clearing? && s.lh == [b]
    ensures var t := Advance(s, c);
            && Step(s, CommitStep(c)) == t && Steppable(t) && Head(t.disk[LOGSTART]) == [b]
            && t == s.(disk := t.disk, commits := t.commits) && t.disk == s.disk[LOGSTART := t.disk[LOGSTART]]
  {
    HeadWrittenGood(s);
  }

  /** Operation i logs b2 as well. */
  lemma SecondWrite(s: State, i: nat, b: nat, data: Block, b2: nat, data2: Block)
    requires Steppable(s) && s.phase.Running? && !s.committing && s.lh == [b] && Head(s.disk[LOGSTART]) == [b]
    requires IsHome(|s.disk|, b) && s.mem[b] == data && WithinBudget(s, i, b2) && b2 != b && s.disk[b2] != data2
    ensures var t := Log(s, i, b2, data2); Step(s, LogWrite(i, b2, data2)) == t && Poisoned(t, b, data, b2, data2)
  {
    LogSteppable(s, i, b2, data2);
    assert Absorb([b], b2) == [b, b2];
  }

  /** While commit c is about to write its last header, operation i logs two blocks around that write. */
  lemma Poison(d: Disk, es: seq<Event>, more: seq<Event>, s: State, c: nat, i: nat,
               b: nat, data: Block, b2: nat, data2: Block)
    returns (more': seq<Event>, t: State)
    requires GoodDisk(d) && Leads(d, es, more, s) && s.phase.Running? && c < |s.commits|
    requires s.commits[c].pc.Clearing? && s.lh == []
    requires WithinBudget(s, i, b) && b2 != b && IsHome(|s.disk|, b2) && |s.ops[i].logged + {b} + {b2}| <= MAXOPBLOCKS
    requires s.disk[b2] != data2
    ensures Leads(d, es, more', t) && Poisoned(t, b, data, b2, data2) && |t.disk| == |s.disk|
    ensures t.hist == s.hist + [Wrote(s.ops[i].pid, b, data)] + [Wrote(s.ops[i].pid, b2, data2)]
  {
    var s1 := Log(s, i, b, data);
    FirstWrite(s, c, i, b, data);
    LeadsOn(d, es, more, s, LogWrite(i, b, data), s1);
    var s2 := Advance(s1, c);
    HeadTaken(s1, c, b);
    LeadsOn(d, es, more + [LogWrite(i, b, data)], s1, CommitStep(c), s2);
    t := Log(s2, i, b2, data2);
    SecondWrite(s2, i, b, data, b2, data2);
    more' := more + [LogWrite(i, b, data)] + [CommitStep(c)] + [LogWrite(i, b2, data2)];
    LeadsOn(d, es, more + [LogWrite(i, b, data)] + [CommitStep(c)], s2, LogWrite(i, b2, data2), t);
  }

  /** An operation ends, with too little logged for a commit. */
  lemma EndOne(s: State, b: nat, data: Block, b2: nat, data2: Block)
    requires Poisoned(s, b, data, b2, data2) && s.ops != []
    ensures var t := End(s, 0);
            && Step(s, EndOp(0)) == t && Poisoned(t, b, data, b2, data2) && |t.ops| == |s.ops| - 1
            && t.disk == s.disk && t.hist == s.hist + [Ended(s.ops[0].pid)]
  {
  }

  lemma {:induction false} EndAll(d: Disk, es: seq<Event>, more: seq<Event>, s: State,
                                  b: nat, data: Block, b2: nat, data2: Block)
    returns (more': seq<Event>, t: State, ends: seq<Entry>)
    requires GoodDisk(d) && Leads(d, es, more, s) && Poisoned(s, b, data, b2, data2)
    ensures Leads(d, es, more', t) && Poisoned(t, b, data, b2, data2) && t.ops == [] && |t.disk| == |s.disk|
    ensures t.hist == s.hist + ends && AllEnded(ends)
    decreases |s.ops|
  {
    if s.ops == [] {
      more', t, ends := more, s, [];
      assert t.hist == s.hist + ends;
    } else {
      var u := End(s, 0);
      EndOne(s, b, data, b2, data2);
      LeadsOn(d, es, more, s, EndOp(0), u);
      var rest;
      more', t, rest := EndAll(d, es, more + [EndOp(0)], u, b, data, b2, data2);
      ends := [Ended(s.ops[0].pid)] + rest;
      ConsEnded(s.hist, s.ops[0].pid, rest);
    }
  }

  ghost predicate AllEnded(ends: seq<Entry>) { forall j :: 0 <= j < |ends| ==> ends[j].Ended? }

  lemma ConsEnded(h: seq<Entry>, p: nat, rest: seq<Entry>)
    requires AllEnded(rest)
    ensures AllEnded([Ended(p)] + rest) && h + [Ended(p)] + rest == h + ([Ended(p)] + rest)
  {
  }

  /** The next commit fills the stale log block first. */
  lemma FillStale(s: State, b: nat, data: Block, b2: nat, data2: Block)
    requires Poisoned(s, b, data, b2, data2)
    ensures var s1 := StartCommit(s, false); var c := |s.commits|;
            && Step(s, Sync) == s1 && Steppable(s1) && c < |s1.commits|
            && Step(s1, CommitStep(c)) == Advance(s1, c)
            && Advance(s1, c).disk == s.disk[LOGSTART + 1 := data] && Advance(s1, c).hist == s.hist
  {
  }

  /** A crash right then brings back b without b2. */
  lemma Strike(d: Disk, es: seq<Event>, more: seq<Event>, s: State, b: nat, data: Block, b2: nat, data2: Block)
    returns (more': seq<Event>, t: State)
    requires GoodDisk(d) && Leads(d, es, more, s) && Poisoned(s, b, data, b2, data2) && s.ops == []
    ensures Leads(d, es, more', t) && t.hist == s.hist && |t.disk| == |s.disk|
    ensures GoodDisk(t.disk) && b < |t.disk| && Recover(t.disk)[b] == data
    ensures b2 < |t.disk| && Recover(t.disk)[b2] != data2
  {
    var c := |s.commits|;
    var s1 := StartCommit(s, false);
    FillStale(s, b, data, b2, data2);
    LeadsOn(d, es, more, s, Sync, s1);
    t := Advance(s1, c);
    more' := more + [Sync] + [CommitStep(c)];
    LeadsOn(d, es, more + [Sync], s1, CommitStep(c), t);
    TornRecovers(s, t.disk, b, data, b2);
  }

  lemma TornRecovers(s: State, disk: Disk, b: nat, data: Block, b2: nat)
    requires Steppable(s) && Head(s.disk[LOGSTART]) == [b] && b2 != b && IsHome(|s.disk|, b2)
    requires disk == s.disk[LOGSTART + 1 := data]
    ensures GoodDisk(disk) && b < |disk| && Recover(disk)[b] == data && Recover(disk)[b2] == s.disk[b2]
  {
    assert Head(disk[LOGSTART]) == [b] && [b][0] == b;
    RecoverAt(disk);
  }

  lemma {:induction false} OpenThrough(h: seq<Entry>, p: nat, e: Entry)
    requires p in Open(h) && e.Wrote?
    ensures Open(h + [e]) != {}
  {
    assert (h + [e])[..|h|] == h;
  }

  lemma {:induction false} EndsReplay(base: Disk, h: seq<Entry>, ends: seq<Entry>, k: nat)
    requires |h| <= k <= |h + ends| && AllEnded(ends)
    ensures Replay(base, (h + ends)[..k]) == Replay(base, h)
  {
    if k == |h| {
      assert (h + ends)[..k] == h;
    } else {
      EndsReplay(base, h, ends, k - 1);
      assert (h + ends)[..k][..k - 1] == (h + ends)[..k - 1];
    }
  }

  /** No prefix of the history has the one block without the other. */
  lemma NotIntact(base: Disk, h: seq<Entry>, p: nat, b: nat, data: Block, b2: nat, data2: Block, ends: seq<Entry>,
                  t: State)
    requires New(base, h, b, data) && p in Open(h) && b2 < |base| && b2 != b && IsHome(|base|, b) && IsHome(|base|, b2)
    requires AllEnded(ends)
    requires t.hist == h + [Wrote(p, b, data)] + [Wrote(p, b2, data2)] + ends
    requires GoodDisk(t.disk) && |t.disk| == |base| && Recover(t.disk)[b] == data && Recover(t.disk)[b2] != data2
    ensures !Intact(base, t)
  {
    var h1 := h + [Wrote(p, b, data)];
    var h2 := h1 + [Wrote(p, b2, data2)];
    forall k | 0 <= k <= |t.hist| && Open(t.hist[..k]) == {}
      ensures !HomeEq(Recover(t.disk), Replay(base, t.hist[..k]))
    {
      if k <= |h| {
        assert t.hist[..k] == h[..k];
      } else if k == |h1| {
        assert t.hist[..k] == h1;
        OpenThrough(h, p, Wrote(p, b, data));
        assert false;
      } else {
        EndsReplay(base, h2, ends, k);
        Snoc(base, h1, Wrote(p, b2, data2));
      }
    }
  }

  ghost predicate OpenOp(s: State, i: nat) { i < |s.ops| && s.ops[i].pid in Open(s.hist) }

  /** From a commit that has not dropped its transaction, with an operation under way. */
  lemma TornAfter(d: Disk, es: seq<Event>, s: State, c: nat, i: nat, b: nat, data: Block) returns (more: seq<Event>)
    requires GoodDisk(d) && s == Run(d, es) && s.phase.Running? && c < |s.commits|
    requires !Cleared(s.commits[c].pc) || (s.commits[c].pc.Clearing? && s.lh == [])
    requires OpenOp(s, i) && WithinBudget(s, i, b) && New(Recover(d), s.hist, b, data) && |s.disk| == |d|
    ensures Continues(d, es, more) && !IntactAfter(d, es + more)
  {
    RunSpace(d, es);
    assert es + [] == es;
    var s1, s2, s3, t, ends;
    more, s1 := ToClearing(d, es, [], s, c);
    RunHome(d, es + more);
    var b2 := SecondBlock(s1, i, b);
    var data2: Block := if s1.disk[b2] == ZeroBlock() then ZeroBlock()[0 := 1] else ZeroBlock();
    assert data2 != s1.disk[b2] by { assert ZeroBlock()[0 := 1][0] == 1; }
    more, s2 := Poison(d, es, more, s1, c, i, b, data, b2, data2);
    more, s3, ends := EndAll(d, es, more, s2, b, data, b2, data2);
    more, t := Strike(d, es, more, s3, b, data, b2, data2);
    NotIntact(Recover(d), s.hist, s.ops[i].pid, b, data, b2, data2, ends, t);
  }

  lemma OpsOpen(s: State, i: nat)
    requires OpsInv(s) && i < |s.ops|
    ensures OpenOp(s, i)
  {
    assert Pids(s.ops, s.ops[i].pid);
  }

  /** A sync in the middle of an operation. */
  lemma SyncTears(d: Disk, es: seq<Event>, i: nat, b: nat, data: Block) returns (more: seq<Event>)
    requires GoodDisk(d) && Disciplined(d, es) && Run(d, es).phase.Running? && !Allowed(Run(d, es), Sync)
    requires WithinBudget(Run(d, es), i, b) && New(Recover(d), Run(d, es).hist, b, data)
    ensures Continues(d, es + [Sync], more) && !IntactAfter(d, es + [Sync] + more)
  {
    var s := Run(d, es);
    RunInv(d, es);
    RunSnoc(d, es, Sync);
    OpsOpen(s, i);
    more := TornAfter(d, es + [Sync], StartCommit(s, false), |s.commits|, i, b, data);
  }

  /** An operation that starts before a sync is through. */
  lemma BeginTears(d: Disk, es: seq<Event>, pid: nat, b: nat, data: Block) returns (more: seq<Event>)
    requires GoodDisk(d) && Disciplined(d, es) && Run(d, es).phase.Running? && !Allowed(Run(d, es), BeginOp(pid))
    requires IsHome(|d|, b) && New(Recover(d), Run(d, es).hist, b, data)
    ensures Continues(d, es + [BeginOp(pid)], more) && !IntactAfter(d, es + [BeginOp(pid)] + more)
  {
    var s := Run(d, es);
    RunInv(d, es);
    RunSnoc(d, es, BeginOp(pid));
    var t := Begin(s, pid);
    BeginOps(s, pid);
    OpsOpen(t, 0);
    NewBegun(Recover(d), s.hist, b, data, pid);
    var c :| 0 <= c < |s.commits| && !s.commits[c].pc.Finished?;
    assert Progress(s.disk, s.mem, s.lh, s.commits[c].pc);
    more := TornAfter(d, es + [BeginOp(pid)], t, c, 0, b, data);
  }

  lemma NewBegun(base: Disk, h: seq<Entry>, b: nat, data: Block, pid: nat)
    requires New(base, h, b, data)
    ensures New(base, h + [Begun(pid)], b, data)
  {
    var h' := h + [Begun(pid)];
    Snoc(base, h, Begun(pid));
    forall k | 0 <= k <= |h'| ensures Replay(base, h'[..k])[b] != data {
      if k <= |h| { assert h'[..k] == h[..k]; } else { assert h'[..k] == h' && h[..|h|] == h; }
    }
  }

  lemma EarlierEvent(es: seq<Event>, rest: seq<Event>, i: nat)
    requires i < |es|
    ensures (es + rest)[..i] == es[..i] && (es + rest)[i] == es[i]
  {
  }

  lemma LaterEvent(es: seq<Event>, more: seq<Event>, i: nat, j: nat)
    requires i == |es| + j && j < |more|
    ensures (es + more)[..i] == es + more[..j] && (es + more)[i] == more[j]
  {
  }

  lemma DisciplinedOn(d: Disk, es: seq<Event>, more: seq<Event>)
    requires Disciplined(d, es) && Continues(d, es, more)
    ensures Disciplined(d, es + more)
  {
    var all := es + more;
    forall i | 0 <= i < |all| ensures Allowed(Run(d, all[..i]), all[i]) {
      if i < |es| {
        EarlierEvent(es, more, i);
      } else {
        LaterEvent(es, more, i, i - |es|);
      }
    }
  }

  lemma StaysDisciplined(d: Disk, es: seq<Event>, e: Event, more: seq<Event>)
    requires Disciplined(d, es) && Allowed(Run(d, es), e) && Continues(d, es + [e], more)
    ensures Disciplined(d, es + [e] + more)
  {
    assert Continues(d, es, [e]) by { assert es + [e][..0] == es; }
    DisciplinedOn(d, es, [e]);
    DisciplinedOn(d, es + [e], more);
  }

  /** The order is exact. After any orderly run, a sync or a begin_op keeps the order if and only if
      every orderly continuation can be cut by a crash at any point without showing half an
      operation. (The contents `data` that block b never had make the difference visible.) */
  lemma {:induction false} OrderExact(d: Disk, es: seq<Event>, e: Event, i: nat, b: nat, data: Block)
    requires GoodDisk(d) && Disciplined(d, es) && Run(d, es).phase.Running?
    requires IsHome(|d|, b) && New(Recover(d), Run(d, es).hist, b, data)
    requires e.BeginOp? || (e.Sync? && (Run(d, es).ops != [] ==> WithinBudget(Run(d, es), i, b)))
    ensures Allowed(Run(d, es), e) <==> forall more :: Continues(d, es + [e], more) ==> IntactAfter(d, es + [e] + more)
  {
    if Allowed(Run(d, es), e) {
      forall more | Continues(d, es + [e], more) ensures IntactAfter(d, es + [e] + more) {
        StaysDisciplined(d, es, e, more);
        CrashSafe(d, es + [e] + more);
      }
    } else {
      var more;
      if e.Sync? {
        more := SyncTears(d, es, i, b, data);
      } else {
        more := BeginTears(d, es, e.pid, b, data);
      }
    }
  }
}
