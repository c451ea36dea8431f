/** Two runs in full: a sync that lets half an operation reach the disk, and one that forgets a process asleep. */
module LogHalf {
  import opened Blocks
  import opened LogSpec
  import opened LogRun
  import opened LogSafety

  /** Everything but the disk and the cache, after recovery has found an empty log. */
  ghost predicate Settled(s: State, lh: seq<nat>, ops: seq<Op>, commits: seq<Commit>, hist: seq<Entry>) {
    && s.phase.Running? && Steppable(s) && !s.committing && s.asleep == {}
    && s.lh == lh && s.ops == ops && s.commits == commits && s.hist == hist
  }

  lemma SettledBegin(s: State, lh: seq<nat>, commits: seq<Commit>, hist: seq<Entry>, pid: nat)
    requires Settled(s, lh, [], commits, hist) && |lh| <= 1
    ensures Step(s, BeginOp(pid)) == Begin(s, pid) && Begin(s, pid).disk == s.disk
    ensures Settled(Begin(s, pid), lh, [Op(pid, {})], commits, hist + [Begun(pid)])
  {
  }

  lemma SettledLog(s: State, lh: seq<nat>, pid: nat, commits: seq<Commit>, hist: seq<Entry>, b: nat, data: Block)
    requires Settled(s, lh, [Op(pid, {})], commits, hist) && |lh| <= 1 && b !in lh && b < LOGSTART
    ensures var t := Log(s, 0, b, data);
            && Step(s, LogWrite(0, b, data)) == t && t.disk == s.disk && |t.mem| == |s.mem| && t.mem[b] == data
            && Settled(t, lh + [b], [Op(pid, {b})], commits, hist + [Wrote(pid, b, data)])
  {
    LogSteppable(s, 0, b, data);
    assert {} + {b} == {b};
  }

  lemma SettledEnd(s: State, lh: seq<nat>, o: Op, commits: seq<Commit>, hist: seq<Entry>)
    requires Settled(s, lh, [o], commits, hist) && |lh| <= 2
    ensures Step(s, EndOp(0)) == End(s, 0) && End(s, 0).disk == s.disk
    ensures Settled(End(s, 0), lh, [], commits, hist + [Ended(o.pid)])
  {
  }

  lemma SettledSync(s: State, lh: seq<nat>, ops: seq<Op>, commits: seq<Commit>, hist: seq<Entry>)
    requires Settled(s, lh, ops, commits, hist) && lh != []
    ensures var t := StartCommit(s, false);
            Step(s, Sync) == t && t.disk == s.disk && Settled(t, lh, ops, commits + [Commit(false, Logging(0))], hist)
  {
  }

  lemma RecoverClear(s: State)
    requires Steppable(s) && s.phase.Recovery? && s.phase == Recovery(s.disk, 0) && HeadN(s.disk[LOGSTART]) == 0
    ensures var t := RecoverNext(s);
            && Steppable(t) && t == s.(disk := t.disk, phase := Recovery(s.disk, 1)) && HomeEq(t.disk, s.disk)
            && HeadN(t.disk[LOGSTART]) == 0 && RecoverNext(t) == t.(mem := t.disk, phase := Running)
            && Steppable(RecoverNext(t))
  {
    var d := s.disk;
    assert RecoverWrites(d)[0] == Write(LOGSTART, ClearHead(d[LOGSTART]));
    ClearHeadIdempotent(d[LOGSTART]);
    RecoverSteppable(s);
    RecoverSteppable(RecoverNext(s));
  }

  lemma BootsClear(d: Disk) returns (s: State)
    requires GoodDisk(d) && HeadN(d[LOGSTART]) == 0
    ensures s == Run(d, FIRST) && Settled(s, [], [], [], [])
    ensures HomeEq(s.disk, d) && HeadN(s.disk[LOGSTART]) == 0
  {
    assert Run(d, []) == Boot(d);
    RunSnoc(d, [], RecoverStep);
    RecoverClear(Boot(d));
    RunSnoc(d, [] + [RecoverStep], RecoverStep);
    s := RecoverNext(RecoverNext(Boot(d)));
    assert FIRST == [] + [RecoverStep] + [RecoverStep];
  }

  const FIRST: seq<Event> := [RecoverStep, RecoverStep]

  /** Operation 0 logs block 0 and ends; sync starts. */
  ghost function Quiet(x: Block): seq<Event> { FIRST + [BeginOp(0)] + [LogWrite(0, 0, x)] + [EndOp(0)] + [Sync] }

  /** Operation 1 begins and logs block 1 meanwhile. */
  ghost function Meanwhile(x: Block, data: Block): seq<Event> { Quiet(x) + [BeginOp(1)] + [LogWrite(0, 1, data)] }

  /** The commit of the sync goes on past its header. */
  ghost function Half(x: Block, data: Block): seq<Event> {
    Meanwhile(x, data) + [CommitStep(0)] + [CommitStep(0)] + [CommitStep(0)]
  }

  lemma AfterQuiet(d: Disk, x: Block) returns (s: State)
    requires GoodDisk(d) && HeadN(d[LOGSTART]) == 0
    ensures s == Run(d, Quiet(x)) && HomeEq(s.disk, d) && HeadN(s.disk[LOGSTART]) == 0
    ensures Settled(s, [0], [], [Commit(false, Logging(0))], [Begun(0), Wrote(0, 0, x), Ended(0)])
  {
    s := BootsClear(d);
    RunSnoc(d, FIRST, BeginOp(0));
    SettledBegin(s, [], [], [], 0);
    s := Begin(s, 0);
    RunSnoc(d, FIRST + [BeginOp(0)], LogWrite(0, 0, x));
    SettledLog(s, [], 0, [], [] + [Begun(0)], 0, x);
    s := Log(s, 0, 0, x);
    RunSnoc(d, FIRST + [BeginOp(0)] + [LogWrite(0, 0, x)], EndOp(0));
    SettledEnd(s, [0], Op(0, {0}), [], [] + [Begun(0)] + [Wrote(0, 0, x)]);
    s := End(s, 0);
    RunSnoc(d, FIRST + [BeginOp(0)] + [LogWrite(0, 0, x)] + [EndOp(0)], Sync);
    SettledSync(s, [0], [], [], [] + [Begun(0)] + [Wrote(0, 0, x)] + [Ended(0)]);
    s := StartCommit(s, false);
  }

  lemma AfterMeanwhile(d: Disk, x: Block, data: Block) returns (s: State)
    requires GoodDisk(d) && HeadN(d[LOGSTART]) == 0
    ensures s == Run(d, Meanwhile(x, data)) && |s.mem| == |s.disk| == |d| && s.mem[1] == data
    ensures Settled(s, [0, 1], [Op(1, {1})], [Commit(false, Logging(0))], History(x, data))
  {
    s := AfterQuiet(d, x);
    var commits, h := [Commit(false, Logging(0))], [Begun(0), Wrote(0, 0, x), Ended(0)];
    RunSnoc(d, Quiet(x), BeginOp(1));
    SettledBegin(s, [0], commits, h, 1);
    s := Begin(s, 1);
    RunSnoc(d, Quiet(x) + [BeginOp(1)], LogWrite(0, 1, data));
    SettledLog(s, [0], 1, commits, h + [Begun(1)], 1, data);
    s := Log(s, 0, 1, data);
    assert h + [Begun(1)] + [Wrote(1, 1, data)] == History(x, data) && [0] + [1] == [0, 1 as nat];
  }

  /** Two log blocks and the header. */
  lemma HeaderOut(s: State) returns (t: State)
    requires Steppable(s) && s.phase.Running? && s.lh == [0, 1] && s.commits == [Commit(false, Logging(0))]
    ensures var s1 := Step(s, CommitStep(0));
            && Steppable(s1) && var s2 := Step(s1, CommitStep(0));
            && Steppable(s2) && t == Step(s2, CommitStep(0))
    ensures Steppable(t) && t.hist == s.hist && |t.disk| == |s.disk| && Recover(t.disk)[1] == s.mem[1]
  {
    var s1 := Advance(s, 0);
    AdvanceSteppable(s, 0);
    var s2 := Advance(s1, 0);
    AdvanceSteppable(s1, 0);
    t := Advance(s2, 0);
    HeadWrittenGood(s2);
    assert t.disk[LOGSTART + 2] == s.mem[s.lh[1]];
    assert Head(t.disk[LOGSTART])[1] == 1;
    RecoverAt(t.disk);
  }

  ghost function History(x: Block, data: Block): seq<Entry> {
    [Begun(0), Wrote(0, 0, x), Ended(0), Begun(1), Wrote(1, 1, data)]
  }

  lemma OpenNext(h: seq<Entry>, k: nat)
    requires k < |h|
    ensures Open(h[..k + 1]) == if h[k].Begun? then Open(h[..k]) + {h[k].pid}
                                else if h[k].Ended? then Open(h[..k]) - {h[k].pid} else Open(h[..k])
  {
    assert h[..k + 1][..k] == h[..k];
  }

  /** Operation 1 never ends. */
  lemma HalfOpen(x: Block, data: Block, k: nat)
    requires k <= 5
    ensures var h := History(x, data); Open(h) == {1} && (Open(h[..k]) == {} ==> k <= 3)
  {
    var h := History(x, data);
    OpenNext(h, 0);
    OpenNext(h, 1);
    OpenNext(h, 2);
    OpenNext(h, 3);
    OpenNext(h, 4);
    assert h[..5] == h;
  }

  lemma {:induction false} HalfReplay(base: Disk, x: Block, data: Block, k: nat)
    requires 2 <= |base| && k <= 3
    ensures Replay(base, History(x, data)[..k])[1] == base[1]
  {
    if k > 0 {
      var h := History(x, data);
      HalfReplay(base, x, data, k - 1);
      assert h[..k][..k - 1] == h[..k - 1];
    }
  }

  lemma HalfNotIntact(d: Disk, x: Block, data: Block, t: State)
    requires GoodDisk(d) && HeadN(d[LOGSTART]) == 0 && data != d[1]
    requires t.hist == History(x, data) && GoodDisk(t.disk) && |t.disk| == |d| && Recover(t.disk)[1] == data
    ensures !Intact(Recover(d), t)
  {
    ClearRecovers(d);
    forall k | 0 <= k <= |t.hist| && Open(t.hist[..k]) == {}
      ensures !HomeEq(Recover(t.disk), Replay(Recover(d), t.hist[..k]))
    {
      HalfOpen(x, data, k);
      HalfReplay(Recover(d), x, data, k);
    }
  }

  /** A sync that starts with nothing outstanding, and one operation that begins before it returns: the
      recovered disk shows a write of that operation, which has not ended. */
  lemma {:induction false} SyncShowsHalf(d: Disk, x: Block, data: Block)
    requires GoodDisk(d) && HeadN(d[LOGSTART]) == 0 && data != d[1]
    ensures var s := Run(d, Half(x, data));
            && GoodDisk(s.disk) && |s.disk| == |d| && Recover(s.disk)[1] == data && Open(s.hist) == {1}
            && !Intact(Recover(d), s)
  {
    var s := AfterMeanwhile(d, x, data);
    var t := HeaderOut(s);
    ThreeSteps(d, Meanwhile(x, data), CommitStep(0));
    HalfOpen(x, data, 5);
    HalfNotIntact(d, x, data, t);
  }

  lemma ThreeSteps(d: Disk, m: seq<Event>, e: Event)
    requires GoodDisk(d)
    ensures Steppable(Run(d, m)) && var s1 := Step(Run(d, m), e);
            Steppable(s1) && var s2 := Step(s1, e); Steppable(s2) && Run(d, m + [e] + [e] + [e]) == Step(s2, e)
  {
    RunSnoc(d, m, e);
    RunSnoc(d, m + [e], e);
    RunSnoc(d, m + [e] + [e], e);
  }

  // ---- a forgotten sleeper ----

  /** Operations 0 and 1 are outstanding with one block logged, process 2 finds no room and sleeps, sync starts. */
  ghost function Crowded(x: Block): seq<Event> {
    FIRST + [BeginOp(0)] + [LogWrite(0, 0, x)] + [BeginOp(1)] + [BeginOp(2)] + [Sync]
  }

  /** Its commit writes the log block, the header and the home block, and resets lh.n. */
  ghost function Roomy(x: Block): seq<Event> { Crowded(x) + [CommitStep(0)] + [CommitStep(0)] + [CommitStep(0)] }

  ghost predicate Waiting(s: State, commits: seq<Commit>, lh: seq<nat>) {
    && s.phase.Running? && Steppable(s) && !s.committing && s.asleep == {2} && |s.ops| == 2
    && s.lh == lh && s.commits == commits
  }

  ghost predicate OneWriting(s: State) {
    && s.phase.Running? && Steppable(s) && !s.committing && s.asleep == {} && s.ops == [Op(0, {0})]
    && s.lh == [0] && s.commits == []
  }

  lemma OneWrites(d: Disk, x: Block) returns (s: State)
    requires GoodDisk(d) && HeadN(d[LOGSTART]) == 0
    ensures s == Run(d, FIRST + [BeginOp(0)] + [LogWrite(0, 0, x)]) && OneWriting(s)
  {
    s := BootsClear(d);
    RunSnoc(d, FIRST, BeginOp(0));
    SettledBegin(s, [], [], [], 0);
    s := Begin(s, 0);
    RunSnoc(d, FIRST + [BeginOp(0)], LogWrite(0, 0, x));
    SettledLog(s, [], 0, [], [] + [Begun(0)], 0, x);
    s := Log(s, 0, 0, x);
  }

  /** A second operation is admitted, a third process is not, and a sync starts its commit. */
  lemma TwoMoreBegin(s: State)
    requires OneWriting(s)
    ensures Waiting(StartCommit(Begin(Begin(s, 1), 2), false), [Commit(false, Logging(0))], [0])
  {
    assert Begin(s, 1).ops == [Op(0, {0}), Op(1, {})];
  }

  lemma AfterCrowded(d: Disk, x: Block) returns (s: State)
    requires GoodDisk(d) && HeadN(d[LOGSTART]) == 0
    ensures s == Run(d, Crowded(x)) && Waiting(s, [Commit(false, Logging(0))], [0])
  {
    var es := FIRST + [BeginOp(0)] + [LogWrite(0, 0, x)];
    s := OneWrites(d, x);
    TwoMoreBegin(s);
    RunSnoc(d, es, BeginOp(1));
    RunSnoc(d, es + [BeginOp(1)], BeginOp(2));
    RunSnoc(d, es + [BeginOp(1)] + [BeginOp(2)], Sync);
    s := StartCommit(Begin(Begin(s, 1), 2), false);
  }

  lemma WaitingStep(s: State, pc: Pc, next: Pc)
    requires Waiting(s, [Commit(false, pc)], [0])
    requires (pc == Logging(0) && next == Logging(1)) || (pc == Logging(1) && next == Installing(0)) ||
             (pc == Installing(0) && next == Installing(1))
    ensures Step(s, CommitStep(0)) == Advance(s, 0) && Waiting(Advance(s, 0), [Commit(false, next)], [0])
  {
    AdvanceSteppable(s, 0);
  }

  lemma WaitingForgotten(s: State)
    requires Waiting(s, [Commit(false, Installing(1))], [0])
    ensures ForgetsSleeper(s, CommitStep(0)) && Step(s, CommitStep(0)) == Advance(s, 0)
    ensures var t := Advance(s, 0); 2 in t.asleep && Admits(|t.lh|, |t.ops|, t.committing)
  {
  }

  /** A sync with operations outstanding: its commit makes room for a process asleep in begin_op, which sleeps on. */
  lemma {:induction false} SyncForgets(d: Disk, x: Block)
    requires GoodDisk(d) && HeadN(d[LOGSTART]) == 0
    ensures var s, t := Run(d, Roomy(x)), Run(d, Roomy(x) + [CommitStep(0)]);
            && ForgetsSleeper(s, CommitStep(0))
            && 2 in t.asleep && Admits(|t.lh|, |t.ops|, t.committing)
  {
    var s := AfterCrowded(d, x);
    ThreeSteps(d, Crowded(x), CommitStep(0));
    WaitingStep(s, Logging(0), Logging(1));
    s := Advance(s, 0);
    WaitingStep(s, Logging(1), Installing(0));
    s := Advance(s, 0);
    WaitingStep(s, Installing(0), Installing(1));
    s := Advance(s, 0);
    WaitingForgotten(s);
    RunSnoc(d, Roomy(x), CommitStep(0));
  }
}
