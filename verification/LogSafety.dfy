/** What holds of every run of the log, from any disk it was used on. */
module LogSafety {
  import opened Common
  import opened Blocks
  import opened LogSpec
  import opened LogRun
  import opened LogOrder

  /** The state after booting from disk d and the given events, oldest first. */
  ghost function Run(d: Disk, es: seq<Event>): State {
    if es == [] then Boot(d)
    else
      var s, e := Run(d, es[..|es| - 1]), es[|es| - 1];
      if Steppable(s) then Step(s, e) else s
  }

  /** Every run is defined throughout and never over-reserves the log. */
  lemma {:induction false} RunSpace(d: Disk, es: seq<Event>)
    requires GoodDisk(d)
    ensures Steppable(Run(d, es)) && SpaceInv(Run(d, es))
  {
    if es == [] {
      BootInv(d);
    } else {
      var s, e := Run(d, es[..|es| - 1]), es[|es| - 1];
      RunSpace(d, es[..|es| - 1]);
      StepSteppable(s, e);
      StepSpace(s, e);
    }
  }

  /** In every run a process asleep in begin_op has somebody to wake it. */
  lemma {:induction false} RunRest(d: Disk, es: seq<Event>)
    requires GoodDisk(d)
    ensures RestInv(Run(d, es))
  {
    if es != [] {
      RunRest(d, es[..|es| - 1]);
      RunSpace(d, es[..|es| - 1]);
      StepRest(Run(d, es[..|es| - 1]), es[|es| - 1]);
    }
  }

  lemma RunSnoc(d: Disk, es: seq<Event>, e: Event)
    requires GoodDisk(d)
    ensures Steppable(Run(d, es)) && Run(d, es + [e]) == Step(Run(d, es), e)
  {
    RunSpace(d, es);
    assert (es + [e])[..|es|] == es;
  }

  /** Every sync comes when nothing is outstanding or nothing is logged, and no operation starts
      before its commit is through. */
  ghost predicate Disciplined(d: Disk, es: seq<Event>) {
    forall i :: 0 <= i < |es| ==> Allowed(Run(d, es[..i]), es[i])
  }

  lemma DisciplinedPrefix(d: Disk, es: seq<Event>, n: nat)
    requires Disciplined(d, es) && n <= |es|
    ensures Disciplined(d, es[..n])
  {
    assert forall i :: 0 <= i < n ==> es[..n][..i] == es[..i];
  }

  lemma {:induction false} RunInv(d: Disk, es: seq<Event>)
    requires GoodDisk(d) && Disciplined(d, es)
    ensures Inv(Recover(d), Run(d, es))
  {
    if es == [] {
      BootInv(d);
    } else {
      var rest := es[..|es| - 1];
      DisciplinedPrefix(d, es, |rest|);
      RunInv(d, rest);
      StepKeeps(Recover(d), Run(d, rest), es[|es| - 1]);
    }
  }

  /** The disk recovers to the replay of a prefix of the history in which every operation begun has
      ended. */
  ghost predicate Intact(base: Disk, s: State)
    requires GoodDisk(s.disk)
  {
    exists k :: 0 <= k <= |s.hist| && Open(s.hist[..k]) == {} && HomeEq(Recover(s.disk), Replay(base, s.hist[..k]))
  }

  /** Crash safety: whenever the power fails, recovery brings back the disk of a prefix of the
      operations' history in which every operation begun has ended, and no shorter one than the
      last header write made durable. */
  lemma {:induction false} CrashSafe(d: Disk, es: seq<Event>)
    requires GoodDisk(d) && Disciplined(d, es)
    ensures var s := Run(d, es);
            && GoodDisk(s.disk) && Intact(Recover(d), s)
            && s.durable <= |s.hist| && Open(s.hist[..s.durable]) == {}
            && HomeEq(Recover(s.disk), Replay(Recover(d), s.hist[..s.durable]))
  {
    RunInv(d, es);
  }

  /** Readers of the cache see every write of the history, committed or not. */
  lemma {:induction false} CacheCurrent(d: Disk, es: seq<Event>)
    requires GoodDisk(d) && Disciplined(d, es) && Run(d, es).phase.Running?
    ensures HomeEq(Run(d, es).mem, Replay(Recover(d), Run(d, es).hist))
  {
    RunInv(d, es);
  }

  /** The commit point: from the first header write of a commit to its last, everything so far
      survives a crash. */
  lemma {:induction false} CommitDurable(d: Disk, es: seq<Event>, c: nat)
    requires GoodDisk(d) && Disciplined(d, es) && Run(d, es).phase.Running? && c < |Run(d, es).commits|
    requires Run(d, es).commits[c].pc.Installing? || Run(d, es).commits[c].pc.Clearing?
    ensures var s := Run(d, es);
            GoodDisk(s.disk) && HomeEq(Recover(s.disk), Replay(Recover(d), s.hist)) && Open(s.hist) == {}
  {
    RunInv(d, es);
    var s := Run(d, es);
    assert Pending(s);
    assert Progress(s.disk, s.mem, s.lh, s.commits[c].pc);
    HeadRecovers(s.disk, s.mem);
    QuietClosed(s);
  }

  /** With no transaction in memory, as when sys_sync returns 0, everything so far is on disk. */
  lemma {:induction false} EmptyLogDurable(d: Disk, es: seq<Event>)
    requires GoodDisk(d) && Disciplined(d, es) && Run(d, es).phase.Running? && Run(d, es).lh == []
    ensures var s := Run(d, es); GoodDisk(s.disk) && HomeEq(Recover(s.disk), Replay(Recover(d), s.hist))
  {
    RunInv(d, es);
    HeadRecovers(Run(d, es).disk, Run(d, es).mem);
  }

  /** Nothing durable in s is taken back in t. */
  ghost predicate KeepsDurable(s: State, t: State) {
    && s.durable <= t.durable && s.durable <= |s.hist| && t.durable <= |t.hist|
    && s.hist[..s.durable] == t.hist[..s.durable]
  }

  /** Once durable, always durable: no later event, crash included, takes back a durable entry. */
  lemma {:induction false} DurableForever(d: Disk, es: seq<Event>, more: seq<Event>)
    requires GoodDisk(d)
    ensures KeepsDurable(Run(d, es), Run(d, es + more))
  {
    if more == [] {
      assert es + more == es;
      RunSpace(d, es);
    } else {
      var rest, e := more[..|more| - 1], more[|more| - 1];
      DurableForever(d, es, rest);
      assert es + more == (es + rest) + [e];
      RunDurable(d, es + rest, e);
      DurableTransitive(Run(d, es), Run(d, es + rest), Run(d, es + more));
    }
  }

  /** On disk: whatever a header write made durable in an orderly run, recovery brings back after every
      orderly continuation, cut by a crash or not, as the start of a longer history. */
  lemma {:induction false} DurableOnDisk(d: Disk, es: seq<Event>, more: seq<Event>)
    requires GoodDisk(d) && Disciplined(d, es + more)
    ensures var s, t := Run(d, es), Run(d, es + more);
            && s.durable <= |s.hist| && s.durable <= t.durable <= |t.hist| && s.hist[..s.durable] <= t.hist[..t.durable]
            && GoodDisk(t.disk) && HomeEq(Recover(t.disk), Replay(Recover(d), t.hist[..t.durable]))
  {
    DurableForever(d, es, more);
    CrashSafe(d, es + more);
  }

  lemma RunDurable(d: Disk, es: seq<Event>, e: Event)
    requires GoodDisk(d)
    ensures KeepsDurable(Run(d, es), Run(d, es + [e]))
  {
    RunSnoc(d, es, e);
    StepDurable(Run(d, es), e);
  }

  lemma DurableTransitive(s: State, t: State, u: State)
    requires KeepsDurable(s, t) && KeepsDurable(t, u)
    ensures KeepsDurable(s, u)
  {
    assert s.hist[..s.durable] == t.hist[..t.durable][..s.durable] == u.hist[..s.durable];
  }

  lemma StepDurable(s: State, e: Event)
    requires Steppable(s)
    ensures KeepsDurable(s, Step(s, e))
  {
    var t := Step(s, e);
    if e.BeginOp? || e.LogWrite? || e.EndOp? {
      assert t.hist == s.hist || (|t.hist| == |s.hist| + 1 && s.hist == t.hist[..|s.hist|]);
    }
  }

  /** The log is never over-reserved, whatever the interleaving and whenever sync is called; logged
      block numbers are distinct and fit the log; and the panics of end_op and of a log_write
      outside an operation are out of reach. */
  lemma {:induction false} SpaceSafe(d: Disk, es: seq<Event>)
    requires GoodDisk(d)
    ensures var s := Run(d, es);
            && |s.lh| + Budget(s.ops, s.lh) <= LOGSIZE && 0 <= Budget(s.ops, s.lh)
            && Distinct(s.lh) && |s.lh| <= SLOTS
            && (s.ops != [] ==> !s.committing)
  {
    RunSpace(d, es);
    BudgetBounds(Run(d, es).ops, Run(d, es).lh);
  }

  /** In every run: with nothing outstanding and no end_op committing, the log is at most half full and
      admits the next operation, and nobody is left asleep. */
  lemma {:induction false} QuietAdmits(d: Disk, es: seq<Event>)
    requires GoodDisk(d)
    requires Run(d, es).phase.Running? && Run(d, es).ops == [] && !Run(d, es).committing
    ensures var s := Run(d, es);
            |s.lh| <= NLOG / 2 && Admits(|s.lh|, |s.ops|, s.committing) && s.asleep == {}
  {
    RunSpace(d, es);
    RunRest(d, es);
  }

  ghost predicate NoneForgotten(d: Disk, es: seq<Event>) {
    forall i :: 0 <= i < |es| ==> !ForgetsSleeper(Run(d, es[..i]), es[i])
  }

  lemma NoneForgottenPrefix(d: Disk, es: seq<Event>, n: nat)
    requires NoneForgotten(d, es) && n <= |es|
    ensures NoneForgotten(d, es[..n])
  {
    assert forall i :: 0 <= i < n ==> es[..n][..i] == es[..i];
  }

  lemma {:induction false} RunSleep(d: Disk, es: seq<Event>)
    requires GoodDisk(d) && NoneForgotten(d, es)
    ensures SleepInv(Run(d, es))
  {
    if es != [] {
      var k := |es| - 1;
      NoneForgottenPrefix(d, es, k);
      RunSleep(d, es[..k]);
      RunSpace(d, es[..k]);
      SleepStepIff(Run(d, es[..k]), es[k]);
    }
  }

  lemma Forgotten(d: Disk, es: seq<Event>, i: nat, next: nat)
    requires GoodDisk(d) && i < |es| && next == i + 1 && ForgetsSleeper(Run(d, es[..i]), es[i])
    ensures SleepInv(Run(d, es[..i])) ==> !SleepInv(Run(d, es[..next]))
  {
    var s := Run(d, es[..i]);
    assert es[..next] == es[..i] + [es[i]];
    RunSnoc(d, es[..i], es[i]);
    RunSpace(d, es[..i]);
    if SleepInv(s) { SleepStepIff(s, es[i]); }
  }

  /** Exactly which runs lose no wakeup: whoever sleeps in begin_op would be turned away again at every moment
      if and only if no commit of a sync makes room while somebody sleeps. */
  lemma {:induction false} SleepRunIff(d: Disk, es: seq<Event>)
    requires GoodDisk(d)
    ensures NoneForgotten(d, es) <==> forall i :: 0 <= i <= |es| ==> SleepInv(Run(d, es[..i]))
  {
    if NoneForgotten(d, es) {
      forall i | 0 <= i <= |es| ensures SleepInv(Run(d, es[..i])) {
        NoneForgottenPrefix(d, es, i);
        RunSleep(d, es[..i]);
      }
    } else {
      var i :| 0 <= i < |es| && ForgetsSleeper(Run(d, es[..i]), es[i]);
      Forgotten(d, es, i, i + 1);
    }
  }

  /** So it is in orderly runs. */
  lemma {:induction false} SleepersMustWait(d: Disk, es: seq<Event>, pid: nat)
    requires GoodDisk(d) && Disciplined(d, es) && Run(d, es).phase.Running? && pid in Run(d, es).asleep
    ensures var s := Run(d, es); !Admits(|s.lh|, |s.ops|, s.committing)
  {
    RunInv(d, es);
  }

  // ---- a commit by itself ----

  /** The state after j steps of commit c and nothing else. */
  ghost function Alone(s: State, c: nat, j: nat): (t: State)
    requires Steppable(s) && s.phase.Running? && c < |s.commits|
    ensures Steppable(t) && t.phase == s.phase && |t.commits| == |s.commits|
  {
    if j == 0 then s
    else
      var t := Alone(s, c, j - 1);
      AdvanceSteppable(t, c);
      Advance(t, c)
  }

  /** Where a commit of n blocks is after j steps, of which the one that resets lh.n writes nothing. */
  function PcAfter(n: nat, j: nat): Pc {
    if j <= n then Logging(j)
    else if j <= 2 * n + 1 then Installing(j - n - 1)
    else if j == 2 * n + 2 then Clearing else Finished
  }

  function WritesAfter(n: nat, j: nat): nat { if j <= 2 * n + 1 then j else j - 1 }

  ghost predicate CommitsAs(s: State, c: nat, j: nat, t: State)
    requires CanCommit(s.disk, s.mem, s.lh)
  {
    && |t.commits| == |s.commits| && c < |s.commits| && s.lh != [] && j <= 2 * |s.lh| + 3
    && t.commits[c].pc == PcAfter(|s.lh|, j) && t.mem == s.mem
    && t.lh == (if j <= 2 * |s.lh| + 1 then s.lh else [])
    && t.disk == Apply(s.disk, CommitWrites(s.disk, s.mem, s.lh)[..WritesAfter(|s.lh|, j)])
  }

  /** One more write of an undisturbed commit. */
  lemma CommitsWrite(s: State, c: nat, j: nat, t: State, k: nat)
    requires CanCommit(s.disk, s.mem, s.lh) && CommitsAs(s, c, j, t) && Steppable(t)
    requires j < 2 * |s.lh| + 3 && j != 2 * |s.lh| + 1 && k == WritesAfter(|s.lh|, j)
    ensures var w := CommitWrite(s.disk, s.mem, s.lh, k);
            t.disk[w.blockno := w.data] == Apply(s.disk, CommitWrites(s.disk, s.mem, s.lh)[..k + 1])
  {
    CommitWriteAt(s.disk, s.mem, s.lh, k);
    ApplyNext(s.disk, CommitWrites(s.disk, s.mem, s.lh), k);
  }

  lemma CommitsLog(s: State, c: nat, j: nat, t: State)
    requires CanCommit(s.disk, s.mem, s.lh) && CommitsAs(s, c, j, t) && Steppable(t) && j <= |s.lh|
    ensures CommitsAs(s, c, j + 1, Advance(t, c))
  {
    CommitsWrite(s, c, j, t, j);
    CommitLogged(s.disk, s.mem, s.lh, j);
  }

  /** The log block that is copied home next holds what is cached. */
  lemma InstallData(s: State, c: nat, j: nat, i: nat, t: State)
    requires CanCommit(s.disk, s.mem, s.lh) && CommitsAs(s, c, j, t) && i < |s.lh| && j == |s.lh| + 1 + i
    ensures |t.disk| == |s.disk| && t.disk[LOGSTART + 1 + i] == s.mem[s.lh[i]]
  {
    CommitInstalled(s.disk, s.mem, s.lh, j);
  }

  /** So the cache stays as it is. */
  lemma InstallSame(t: State, c: nat, i: nat, home: nat, data: Block)
    requires Steppable(t) && c < |t.commits| && t.commits[c].pc == Installing(i) && i < |t.lh| && home == t.lh[i]
    requires t.disk[LOGSTART + 1 + i] == data && t.mem[home] == data
    ensures Advance(t, c) == Goto(t, c, Installing(i + 1)).(disk := t.disk[home := data])
  {
    assert t.mem[home := data] == t.mem;
  }

  /** CommitsAs while the blocks go home, with the numbers worked out. */
  ghost predicate InstallsAs(s: State, c: nat, i: nat, j: nat, t: State)
    requires CanCommit(s.disk, s.mem, s.lh) && j <= |CommitWrites(s.disk, s.mem, s.lh)|
  {
    && |t.commits| == |s.commits| && c < |s.commits| && s.lh != []
    && t.commits[c].pc == Installing(i) && t.mem == s.mem && t.lh == s.lh
    && t.disk == Apply(s.disk, CommitWrites(s.disk, s.mem, s.lh)[..j])
  }

  lemma InstallsIff(s: State, c: nat, i: nat, j: nat, t: State)
    requires CanCommit(s.disk, s.mem, s.lh) && i <= |s.lh| && j == |s.lh| + 1 + i && s.lh != []
    ensures j <= |CommitWrites(s.disk, s.mem, s.lh)| && (CommitsAs(s, c, j, t) <==> InstallsAs(s, c, i, j, t))
  {
  }

  lemma InstallsNext(s: State, c: nat, i: nat, j: nat, t: State, next: nat, home: nat)
    requires CanCommit(s.disk, s.mem, s.lh) && Steppable(t) && i < |s.lh| && home == s.lh[i]
    requires j < |CommitWrites(s.disk, s.mem, s.lh)| && InstallsAs(s, c, i, j, t) && next == j + 1
    requires t.disk[LOGSTART + 1 + i] == s.mem[home] && CommitWrites(s.disk, s.mem, s.lh)[j] == Write(home, s.mem[home])
    ensures InstallsAs(s, c, i + 1, next, Advance(t, c))
  {
    InstallSame(t, c, i, home, s.mem[home]);
    ApplyNext(s.disk, CommitWrites(s.disk, s.mem, s.lh), j);
  }

  lemma CommitsInstall(s: State, c: nat, j: nat, i: nat, t: State, next: nat)
    requires CanCommit(s.disk, s.mem, s.lh) && CommitsAs(s, c, j, t) && Steppable(t)
    requires i < |s.lh| && j == |s.lh| + 1 + i && next == j + 1
    ensures CommitsAs(s, c, next, Advance(t, c))
  {
    InstallsIff(s, c, i, j, t);
    InstallData(s, c, j, i, t);
    CommitWriteAt(s.disk, s.mem, s.lh, j);
    CommitWriteHome(s.disk, s.mem, s.lh, i, j);
    InstallsNext(s, c, i, j, t, next, s.lh[i]);
    InstallsIff(s, c, i + 1, next, Advance(t, c));
  }

  /** lh.n is reset; nothing is written. */
  lemma CommitsDrop(s: State, c: nat, j: nat, t: State)
    requires CanCommit(s.disk, s.mem, s.lh) && CommitsAs(s, c, j, t) && Steppable(t) && j == 2 * |s.lh| + 1
    ensures CommitsAs(s, c, j + 1, Advance(t, c))
  {
    DropCounts(|s.lh|, j);
    assert Advance(t, c) == Goto(t, c, Clearing).(lh := []);
  }

  lemma DropCounts(n: nat, j: nat)
    requires 0 < n && j == 2 * n + 1
    ensures PcAfter(n, j) == Installing(n) && PcAfter(n, j + 1) == Clearing &&
            WritesAfter(n, j) == WritesAfter(n, j + 1) == j
  {
  }

  lemma CommitsLast(s: State, c: nat, j: nat, t: State, k: nat)
    requires CanCommit(s.disk, s.mem, s.lh) && CommitsAs(s, c, j, t) && Steppable(t)
    requires k == 2 * |s.lh| + 1 && j == k + 1
    ensures CommitsAs(s, c, j + 1, Advance(t, c))
  {
    CommitsWrite(s, c, j, t, k);
    CommitInstalled(s.disk, s.mem, s.lh, k);
  }

  lemma CommitsNext(s: State, c: nat, j: nat, t: State, next: nat, u: State)
    requires CanCommit(s.disk, s.mem, s.lh) && CommitsAs(s, c, j, t) && Steppable(t) && j < 2 * |s.lh| + 3
    requires next == j + 1 && u == Advance(t, c)
    ensures CommitsAs(s, c, next, u)
  {
    if j <= |s.lh| {
      CommitsLog(s, c, j, t);
    } else if j < 2 * |s.lh| + 1 {
      CommitsInstall(s, c, j, j - |s.lh| - 1, t, next);
    } else if j == 2 * |s.lh| + 1 {
      CommitsDrop(s, c, j, t);
    } else {
      CommitsLast(s, c, j, t, 2 * |s.lh| + 1);
    }
  }

  /** Run by itself, a commit writes exactly CommitWrites, in order. */
  lemma {:induction false} CommitAlone(s: State, c: nat, j: nat)
    requires Steppable(s) && s.phase.Running? && CanCommit(s.disk, s.mem, s.lh) && s.lh != []
    requires c < |s.commits| && s.commits[c].pc == Logging(0) && j <= 2 * |s.lh| + 3
    ensures CommitsAs(s, c, j, Alone(s, c, j))
  {
    if j == 0 {
      CommitsNone(s, c);
    } else {
      var i := j - 1;
      CommitAlone(s, c, i);
      CommitsNext(s, c, i, Alone(s, c, i), j, Alone(s, c, j));
    }
  }

  lemma CommitsNone(s: State, c: nat)
    requires CanCommit(s.disk, s.mem, s.lh) && s.lh != [] && c < |s.commits| && s.commits[c].pc == Logging(0)
    ensures CommitsAs(s, c, 0, s)
  {
    assert CommitWrites(s.disk, s.mem, s.lh)[..0] == [];
  }

  // ---- one operation at a time ----

  ghost predicate Serial(d: Disk, es: seq<Event>) {
    forall i :: 0 <= i < |es| && es[i].BeginOp? ==> Run(d, es[..i]).ops == []
  }

  ghost predicate SerialInv(s: State) {
    var inv := !s.phase.Stopped? && |s.ops| <= 1 &&
               (s.ops != [] ==> |s.lh| <= NLOG / 2 + |Kept(s.ops[0].logged, s.lh)|) &&
               |s.lh| <= NLOG / 2 + MAXOPBLOCKS;
    inv
  }

  lemma SerialLog(s: State, b: nat, data: Block)
    requires SpaceInv(s) && SerialInv(s) && s.phase.Running? && |s.mem| == |s.disk| && WithinBudget(s, 0, b)
    ensures SerialInv(Log(s, 0, b, data))
  {
    var o, t := s.ops[0], Log(s, 0, b, data);
    KeptGrows(o.logged, b, s.lh);
    SubsetSize(Kept(t.ops[0].logged, t.lh), t.ops[0].logged);
  }

  lemma SerialBegin(s: State, pid: nat)
    requires SpaceInv(s) && SerialInv(s) && s.ops == []
    ensures SerialInv(Begin(s, pid))
  {
  }

  lemma SerialEnd(s: State, i: nat)
    requires SerialInv(s) && i < |s.ops|
    ensures SerialInv(End(s, i))
  {
  }

  lemma SerialSame(s: State, t: State)
    requires SerialInv(s) && !t.phase.Stopped?
    requires (t.ops == s.ops && (t.lh == s.lh || t.lh == [])) || (t.ops == [] && t.lh == [])
    ensures SerialInv(t)
  {
  }

  lemma SerialAdvance(s: State, c: nat)
    requires Steppable(s) && SerialInv(s) && s.phase.Running? && c < |s.commits|
    ensures SerialInv(Advance(s, c))
  {
    SerialSame(s, Advance(s, c));
  }

  lemma SerialFinish(s: State, c: nat)
    requires SerialInv(s) && s.phase.Running? && c < |s.commits|
    ensures SerialInv(Finish(s, c))
  {
    SerialSame(s, Finish(s, c));
  }

  lemma SerialReboot(s: State)
    requires Steppable(s) && SerialInv(s)
    ensures SerialInv(PowerFail(s)) && (s.phase.Recovery? ==> SerialInv(RecoverNext(s)))
  {
    SerialSame(s, PowerFail(s));
    if s.phase.Recovery? { SerialSame(s, RecoverNext(s)); }
  }

  lemma SerialStep(s: State, e: Event)
    requires Steppable(s) && SpaceInv(s) && SerialInv(s) && (e.BeginOp? ==> s.ops == [])
    ensures SerialInv(Step(s, e))
  {
    match e
    case BeginOp(pid) => SerialBegin(s, pid);
    case LogWrite(i, b, data) => if s.phase.Running? && WithinBudget(s, i, b) { SerialLog(s, b, data); }
    case EndOp(i) => if i < |s.ops| { SerialEnd(s, i); }
    case CommitStep(c) => if s.phase.Running? && c < |s.commits| { SerialAdvance(s, c); }
    case Return(c) => if s.phase.Running? && c < |s.commits| { SerialFinish(s, c); }
    case Sync => SerialSame(s, StartCommit(s, false));
    case RecoverStep => SerialReboot(s);
    case Crash => SerialReboot(s);
  }

  /** One operation at a time: the log never stops the machine, and at most 25 blocks are logged,
      whenever sync is called. */
  lemma {:induction false} SerialSafe(d: Disk, es: seq<Event>)
    requires GoodDisk(d) && Serial(d, es)
    ensures SerialInv(Run(d, es))
  {
    if es != [] {
      var rest, e := es[..|es| - 1], es[|es| - 1];
      forall i | 0 <= i < |rest| && rest[i].BeginOp? ensures Run(d, rest[..i]).ops == [] {
        assert rest[..i] == es[..i];
      }
      SerialSafe(d, rest);
      RunSpace(d, rest);
      SerialStep(Run(d, rest), e);
    }
  }

  /** Exactly when a log_write within budget stops the machine: the log's 29 data blocks are used up. */
  lemma {:induction false} StopsIff(d: Disk, es: seq<Event>, i: nat, b: nat, data: Block)
    requires GoodDisk(d) && Run(d, es).phase.Running? && WithinBudget(Run(d, es), i, b)
    ensures Run(d, es + [LogWrite(i, b, data)]).phase.Stopped? <==> |Run(d, es).lh| == SLOTS
  {
    RunSpace(d, es);
    RunSnoc(d, es, LogWrite(i, b, data));
  }

  /** The reservation, in numbers: begin_op goes ahead exactly if no end_op is committing and the log has room for ten
      blocks of each operation outstanding and of this one. Otherwise the process sleeps. */
  lemma {:induction false} BeginsIff(d: Disk, es: seq<Event>, pid: nat)
    requires GoodDisk(d) && Run(d, es).phase.Running?
    requires pid !in Run(d, es).asleep && !Pids(Run(d, es).ops, pid)
    ensures var s, t := Run(d, es), Run(d, es + [BeginOp(pid)]);
            if !s.committing && |s.lh| + 10 * (|s.ops| + 1) <= 30
            then t == s.(ops := s.ops + [Op(pid, {})], hist := s.hist + [Begun(pid)])
            else t == s.(asleep := s.asleep + {pid})
  {
    RunSnoc(d, es, BeginOp(pid));
  }

  /** Group commit, in numbers: an end_op starts a commit exactly if no other operation is outstanding and at least 16
      blocks are logged. Otherwise it wakes the sleepers. Either way the transaction, the cache and the disk stay. */
  lemma {:induction false} EndsIff(d: Disk, es: seq<Event>, i: nat)
    requires GoodDisk(d) && Run(d, es).phase.Running? && i < |Run(d, es).ops|
    ensures var s, t := Run(d, es), Run(d, es + [EndOp(i)]);
            && t.lh == s.lh && t.disk == s.disk && t.mem == s.mem && !s.committing
            && |t.ops| == |s.ops| - 1 && t.hist == s.hist + [Ended(s.ops[i].pid)]
            && (if |s.ops| == 1 && |s.lh| >= 16
                then t.commits == s.commits + [Commit(true, Logging(0))] && t.committing && t.asleep == s.asleep
                else t.commits == s.commits && !t.committing && t.asleep == {})
  {
    RunSpace(d, es);
    RunSnoc(d, es, EndOp(i));
  }
}
