/** The reservation of begin_op and the guard of log_write differ by one block. */
module LogLimit {
  import opened Blocks
  import opened LogSpec
  import opened LogRun
  import opened LogSafety

  /** Some run leads from the boot on d to s. */
  ghost predicate Reachable(d: Disk, s: State) { exists es :: Run(d, es) == s }

  lemma ReachStep(d: Disk, s: State, e: Event, t: State)
    requires GoodDisk(d) && Reachable(d, s)
    requires Steppable(s) ==> t == Step(s, e)
    ensures Reachable(d, t) && Steppable(s)
  {
    var es :| Run(d, es) == s;
    RunSnoc(d, es, e);
  }

  ghost predicate Filled(s: State, i: nat, first: nat, k: nat, t: State) {
    && t.phase.Running? && |t.ops| == |s.ops| && i < |s.ops| && |t.disk| == |s.disk|
    && (forall j :: 0 <= j < |s.ops| && j != i ==> t.ops[j] == s.ops[j])
    && |t.ops[i].logged| == k && (forall b :: b in t.ops[i].logged ==> first <= b < first + k)
    && |t.lh| == |s.lh| + k && (forall b :: b in t.lh ==> b in s.lh || first <= b < first + k)
  }

  lemma FillStep(s: State, i: nat, first: nat, k: nat, t: State, b: nat, next: nat)
    requires Filled(s, i, first, k, t) && |t.mem| == |t.disk| && k < MAXOPBLOCKS && LOGSTART + NLOG <= first
    requires |s.lh| + k < SLOTS && first + k < |s.disk| && forall b :: b in s.lh ==> b < first
    requires b == first + k && next == k + 1
    ensures WithinBudget(t, i, b) && Filled(s, i, first, next, Log(t, i, b, ZeroBlock()))
  {
    assert b !in t.ops[i].logged && b !in t.lh;
  }

  lemma ReachSizes(d: Disk, s: State)
    requires GoodDisk(d) && Reachable(d, s)
    ensures |s.mem| == |s.disk|
  {
    ReachSteppable(d, s);
  }

  lemma ReachLog(d: Disk, s: State, i: nat, b: nat, data: Block)
    requires GoodDisk(d) && Reachable(d, s) && |s.mem| == |s.disk| && s.phase.Running? && WithinBudget(s, i, b)
    ensures Reachable(d, Log(s, i, b, data))
  {
    ReachStep(d, s, LogWrite(i, b, data), Log(s, i, b, data));
  }

  /** k log_writes by operation i, of consecutive blocks. */
  lemma {:induction false} FillLog(d: Disk, s: State, i: nat, first: nat, k: nat) returns (t: State)
    requires GoodDisk(d) && Reachable(d, s) && Filled(s, i, first, 0, s)
    requires k <= MAXOPBLOCKS && LOGSTART + NLOG <= first
    requires |s.lh| + k <= SLOTS && first + k <= |s.disk| && forall b :: b in s.lh ==> b < first
    ensures Reachable(d, t) && Filled(s, i, first, k, t)
  {
    if k == 0 {
      t := s;
    } else {
      var j, b := k - 1, first + k - 1;
      var u := FillLog(d, s, i, first, j);
      ReachSizes(d, u);
      FillStep(s, i, first, j, u, b, k);
      t := Log(u, i, b, ZeroBlock());
      ReachLog(d, u, i, b, ZeroBlock());
    }
  }

  lemma ReachSteppable(d: Disk, s: State)
    requires GoodDisk(d) && Reachable(d, s)
    ensures Steppable(s)
  {
    var es :| Run(d, es) == s;
    RunSpace(d, es);
  }

  ghost predicate Fresh(s: State, ops: seq<Op>) {
    s.phase.Running? && s.lh == [] && s.ops == ops && !s.committing && s.asleep == {}
  }

  lemma Booted(d: Disk) returns (t: State)
    requires GoodDisk(d) && HeadN(d[LOGSTART]) == 0
    ensures Reachable(d, t) && Fresh(t, []) && |t.disk| == |d|
  {
    var s := Boot(d);
    assert Run(d, []) == s;
    ReachSteppable(d, s);
    var u := RecoverNext(s);
    ReachStep(d, s, RecoverStep, u);
    ReachSteppable(d, u);
    t := RecoverNext(u);
    ReachStep(d, u, RecoverStep, t);
  }

  lemma BeginFresh(d: Disk, s: State, ops: seq<Op>, pid: nat) returns (t: State)
    requires GoodDisk(d) && Reachable(d, s) && Fresh(s, ops) && |ops| < 3 && !Pids(ops, pid)
    ensures Reachable(d, t) && Fresh(t, ops + [Op(pid, {})]) && t.disk == s.disk
  {
    ReachSteppable(d, s);
    t := Begin(s, pid);
    ReachStep(d, s, BeginOp(pid), t);
  }

  lemma ThreeBegun(d: Disk) returns (s: State)
    requires GoodDisk(d) && HeadN(d[LOGSTART]) == 0
    ensures Reachable(d, s) && Fresh(s, [Op(0, {}), Op(1, {}), Op(2, {})]) && |s.disk| == |d|
  {
    s := Booted(d);
    s := BeginFresh(d, s, [], 0);
    s := BeginFresh(d, s, [Op(0, {})], 1);
    s := BeginFresh(d, s, [Op(0, {}), Op(1, {})], 2);
  }

  lemma ThreeFilled(d: Disk, s: State) returns (t: State)
    requires GoodDisk(d) && Reachable(d, s) && 62 <= |s.disk|
    requires Fresh(s, [Op(0, {}), Op(1, {}), Op(2, {})])
    ensures Reachable(d, t) && t.phase.Running? && |t.lh| == SLOTS && WithinBudget(t, 2, 61)
  {
    t := FillLog(d, s, 0, 32, 10);
    t := FillLog(d, t, 1, 42, 10);
    t := FillLog(d, t, 2, 52, 9);
  }

  /** begin_op admits three operations of MAXOPBLOCKS blocks into an empty log, but log_write
      gives up one block early: writing the thirtieth distinct block, still within every budget,
      panics. */
  lemma ReservedWriteStops(d: Disk) returns (s: State)
    requires GoodDisk(d) && HeadN(d[LOGSTART]) == 0 && 62 <= |d|
    ensures Reachable(d, s) && s.phase.Running? && WithinBudget(s, 2, 61)
    ensures Steppable(s) && Step(s, LogWrite(2, 61, ZeroBlock())).phase.Stopped?
  {
    s := ThreeBegun(d);
    s := ThreeFilled(d, s);
    ReachSteppable(d, s);
  }

  // ---- how much of the log may be in use between operations ----

  ghost predicate Leaving(s: State, ops: nat, k: nat) {
    s.phase.Running? && !s.committing && |s.ops| == ops && |s.lh| == k
  }

  lemma EndLeaving(d: Disk, s: State, ops: nat, k: nat) returns (t: State)
    requires GoodDisk(d) && Reachable(d, s) && Leaving(s, ops + 1, k) && k <= 15
    ensures Reachable(d, t) && Leaving(t, ops, k)
  {
    ReachSteppable(d, s);
    t := End(s, 0);
    ReachStep(d, s, EndOp(0), t);
  }

  lemma TwoFilled(d: Disk, s: State, k: nat) returns (t: State)
    requires GoodDisk(d) && Reachable(d, s) && 47 <= |s.disk| && k <= 15 && Fresh(s, [Op(0, {}), Op(1, {})])
    ensures Reachable(d, t) && t.phase.Running? && |t.ops| == 2 && |t.lh| == k
  {
    var j := if k < 10 then k else 10;
    t := FillLog(d, s, 0, 32, j);
    t := FillLog(d, t, 1, 32 + j, k - j);
  }

  /** The bound of QuietAdmits is exact: from any cleanly shut disk and for every k up to 15, some run comes to rest
      with k blocks logged and not committed. */
  lemma {:induction false} QuietWith(d: Disk, k: nat) returns (s: State)
    requires GoodDisk(d) && HeadN(d[LOGSTART]) == 0 && 47 <= |d| && k <= 15
    ensures Reachable(d, s) && s.phase.Running? && s.ops == [] && !s.committing && |s.lh| == k
  {
    s := Booted(d);
    s := BeginFresh(d, s, [], 0);
    s := BeginFresh(d, s, [Op(0, {})], 1);
    s := TwoFilled(d, s, k);
    BusyUnguarded(d, s);
    s := EndLeaving(d, s, 1, k);
    s := EndLeaving(d, s, 0, k);
  }

  lemma BusyUnguarded(d: Disk, s: State)
    requires GoodDisk(d) && Reachable(d, s) && s.ops != []
    ensures !s.committing
  {
    var es :| Run(d, es) == s;
    SpaceSafe(d, es);
  }
}
