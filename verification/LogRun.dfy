/** Every run of the logging system: operations and commits interleave, commits and recoveries reach
    the disk one block write at a time, and the machine may lose power between any two of them. */
module LogRun {
  import opened Common
  import opened Blocks
  import opened LogSpec

  /** One entry of the history of what operations did, oldest first. */
  datatype Entry = Begun(pid: nat) | Wrote(pid: nat, blockno: nat, data: Block) | Ended(pid: nat)

  /** The disk contents a history of completed writes stands for. */
  ghost function Replay(base: Disk, h: seq<Entry>): (r: Disk)
    ensures |r| == |base|
  {
    if h == [] then base
    else
      var r, e := Replay(base, h[..|h| - 1]), h[|h| - 1];
      if e.Wrote? && e.blockno < |base| then r[e.blockno := e.data] else r
  }

  /** The processes inside an operation at the end of a history. */
  ghost function Open(h: seq<Entry>): set<nat> {
    if h == [] then {}
    else
      var r, e := Open(h[..|h| - 1]), h[|h| - 1];
      match e
      case Begun(p) => r + {p}
      case Ended(p) => r - {p}
      case Wrote(_, _, _) => r
  }

  /** An operation between begin_op and end_op, and the distinct blocks it has logged. */
  datatype Op = Op(pid: nat, logged: set<nat>)

  /** How far a call of commit() has come: in the loop of write_log, in the loop of install_trans,
      before the second write_head, or done and about to return. */
  datatype Pc = Logging(tail: nat) | Installing(tail: nat) | Clearing | Finished

  /** The call has reset lh.n. */
  predicate Cleared(pc: Pc) { pc.Clearing? || pc.Finished? }

  /** A call of commit(). Only end_op sets log.committing around it; sys_sync does not. */
  datatype Commit = Commit(guarded: bool, pc: Pc)

  datatype Phase =
    | Running
    | Recovery(before: Disk, done: nat) // `done` writes of recover_from_log() are on disk
    | Stopped                           // panic("too big a transaction")

  /** The log as log.c keeps it, over the contents `mem` that the buffer cache presents, together
      with the history of the operations and the length of its durable part. */
  datatype State = State(disk: Disk, mem: Disk, lh: seq<nat>, ops: seq<Op>, committing: bool, asleep: set<nat>,
                         commits: seq<Commit>, phase: Phase, hist: seq<Entry>, durable: nat)

  datatype Event =
    | BeginOp(pid: nat)
    | LogWrite(op: nat, blockno: nat, data: Block)
    | EndOp(op: nat)
    | Sync
    | CommitStep(c: nat)
    | Return(c: nat)
    | RecoverStep
    | Crash

  /** begin_op goes ahead. */
  predicate Admits(n: nat, outstanding: nat, committing: bool) {
    !committing && n + (outstanding + 1) * MAXOPBLOCKS <= LOGSIZE
  }

  /** end_op commits. */
  predicate CommitsAtEnd(outstanding: nat, n: nat) { outstanding == 0 && n > NLOG / 2 }

  /** log_write stops the machine. */
  predicate TooBig(n: nat) { n >= LOGSIZE || n >= NLOG - 1 }

  /** log_write's absorption. */
  function Absorb(lh: seq<nat>, b: nat): (r: seq<nat>)
  {
    if b in lh then lh else lh + [b]
  }

  predicate Pids(ops: seq<Op>, p: nat) { exists i :: 0 <= i < |ops| && ops[i].pid == p }

  /** What a client of the log promises: to log home blocks only, at most MAXOPBLOCKS distinct
      ones per operation. */
  predicate WithinBudget(s: State, i: nat, b: nat) {
    i < |s.ops| && IsHome(|s.disk|, b) && |s.ops[i].logged + {b}| <= MAXOPBLOCKS
  }

  /** The shape of every state of a run. */
  ghost predicate Steppable(s: State) {
    && GoodDisk(s.disk) && |s.mem| == |s.disk| && GoodLh(|s.disk|, s.lh) && s.durable <= |s.hist|
    && (s.phase.Recovery? ==> Recovering(s.disk, s.phase.before, s.phase.done))
  }

  ghost predicate Recovering(disk: Disk, d: Disk, k: nat) {
    GoodDisk(d) && k <= |RecoverWrites(d)| && disk == Apply(d, RecoverWrites(d)[..k])
  }

  ghost function Begin(s: State, pid: nat): State {
    if pid in s.asleep || Pids(s.ops, pid) then s
    else if Admits(|s.lh|, |s.ops|, s.committing) then
      s.(ops := s.ops + [Op(pid, {})], hist := s.hist + [Begun(pid)])
    else s.(asleep := s.asleep + {pid})
  }

  ghost function Log(s: State, i: nat, b: nat, data: Block): State
    requires i < |s.ops| && b < |s.mem|
  {
    if TooBig(|s.lh|) then s.(phase := Stopped)
    else
      var o := s.ops[i];
      s.(mem := s.mem[b := data], lh := Absorb(s.lh, b), ops := s.ops[i := Op(o.pid, o.logged + {b})],
         hist := s.hist + [Wrote(o.pid, b, data)])
  }

  ghost function StartCommit(s: State, guarded: bool): State {
    if s.lh == [] then s else s.(commits := s.commits + [Commit(guarded, Logging(0))])
  }

  ghost function End(s: State, i: nat): State
    requires i < |s.ops|
  {
    var t := s.(ops := s.ops[..i] + s.ops[i + 1..], hist := s.hist + [Ended(s.ops[i].pid)]);
    if CommitsAtEnd(|t.ops|, |t.lh|) then StartCommit(t.(committing := true), true)
    else t.(asleep := {})
  }

  ghost function Goto(s: State, c: nat, pc: Pc): State
    requires c < |s.commits|
  {
    s.(commits := s.commits[c := s.commits[c].(pc := pc)])
  }

  /** write_log copies the next block into the log. */
  ghost function LogNext(s: State, c: nat, t: nat): State
    requires Steppable(s) && c < |s.commits| && t < |s.lh|
  {
    Goto(s, c, Logging(t + 1)).(disk := s.disk[LOGSTART + 1 + t := s.mem[s.lh[t]]])
  }

  /** write_head, as the transaction now stands. */
  ghost function HeadWritten(s: State): Disk
    requires Steppable(s)
  {
    s.disk[LOGSTART := PutHead(s.disk[LOGSTART], s.lh, |s.lh|)]
  }

  /** install_trans copies the next log block over the home block and its buffer. */
  ghost function InstallNext(s: State, c: nat, t: nat): State
    requires Steppable(s) && c < |s.commits| && t < |s.lh|
  {
    var data := s.disk[LOGSTART + 1 + t];
    Goto(s, c, Installing(t + 1)).(disk := s.disk[s.lh[t] := data], mem := s.mem[s.lh[t] := data])
  }

  /** A call of commit() goes on to its next assignment of a disk block or of lh.n. It reads the
      transaction as it is at that moment. */
  ghost function Advance(s: State, c: nat): State
    requires Steppable(s) && c < |s.commits|
  {
    match s.commits[c].pc
    case Logging(t) =>
      if t < |s.lh| then LogNext(s, c, t)
      else Goto(s, c, Installing(0)).(disk := HeadWritten(s), durable := |s.hist|)
    case Installing(t) =>
      if t < |s.lh| then InstallNext(s, c, t) else Goto(s, c, Clearing).(lh := [])
    case Clearing => Goto(s, c, Finished).(disk := HeadWritten(s))
    case Finished => s
  }

  /** commit() returns, in end_op with log.committing reset and everyone woken. */
  ghost function Finish(s: State, c: nat): State
    requires c < |s.commits|
  {
    if !s.commits[c].pc.Finished? then s
    else
      var t := s.(commits := s.commits[..c] + s.commits[c + 1..]);
      if s.commits[c].guarded then t.(committing := false, asleep := {}) else t
  }

  /** The next write of recover_from_log(), or its return. */
  ghost function RecoverNext(s: State): State
    requires Steppable(s) && s.phase.Recovery?
  {
    var d, k := s.phase.before, s.phase.done;
    var ws := RecoverWrites(d);
    if k == |ws| then s.(mem := s.disk, phase := Running)
    else s.(disk := s.disk[ws[k].blockno := ws[k].data], phase := Recovery(d, k + 1))
  }

  /** Power fails and the machine reboots into recovery: only the disk survives. */
  ghost function PowerFail(s: State): State
    requires s.durable <= |s.hist|
  {
    State(s.disk, s.disk, [], [], false, {}, [], Recovery(s.disk, 0), s.hist[..s.durable], s.durable)
  }

  /** One step. An event that is not enabled leaves the state alone. */
  ghost function Step(s: State, e: Event): State
    requires Steppable(s)
  {
    match e
    case Crash => PowerFail(s)
    case RecoverStep => if s.phase.Recovery? then RecoverNext(s) else s
    case BeginOp(pid) => if s.phase.Running? then Begin(s, pid) else s
    case LogWrite(i, b, data) => if s.phase.Running? && WithinBudget(s, i, b) then Log(s, i, b, data) else s
    case EndOp(i) => if s.phase.Running? && i < |s.ops| then End(s, i) else s
    case Sync => if s.phase.Running? then StartCommit(s, false) else s
    case CommitStep(c) => if s.phase.Running? && c < |s.commits| then Advance(s, c) else s
    case Return(c) => if s.phase.Running? && c < |s.commits| then Finish(s, c) else s
  }

  ghost function Boot(d: Disk): State {
    State(d, d, [], [], false, {}, [], Recovery(d, 0), [], 0)
  }

  // ---- what holds in every run: the shape of the state and the space in the log ----

  lemma ApplyNext(d: Disk, ws: seq<Write>, k: nat)
    requires InRange(d, ws) && k < |ws|
    ensures Apply(d, ws[..k + 1]) == Apply(d, ws[..k])[ws[k].blockno := ws[k].data]
  {
    assert ws[..k + 1][..k] == ws[..k];
  }

  lemma AbsorbGood(size: nat, lh: seq<nat>, b: nat)
    requires GoodLh(size, lh) && IsHome(size, b) && !TooBig(|lh|)
    ensures GoodLh(size, Absorb(lh, b)) && b in Absorb(lh, b)
    ensures forall x :: x in lh ==> x in Absorb(lh, b)
  {
  }

  lemma HeadWrittenGood(s: State)
    requires Steppable(s)
    ensures GoodDisk(HeadWritten(s)) && Head(HeadWritten(s)[LOGSTART]) == s.lh
  {
    HeadRoundTrip(s.disk[LOGSTART], s.lh);
  }

  lemma AdvanceSteppable(s: State, c: nat)
    requires Steppable(s) && s.phase.Running? && c < |s.commits|
    ensures Steppable(Advance(s, c))
  {
    HeadWrittenGood(s);
  }

  lemma RecoverSteppable(s: State)
    requires Steppable(s) && s.phase.Recovery?
    ensures Steppable(RecoverNext(s))
  {
    var d, k := s.phase.before, s.phase.done;
    if k < |RecoverWrites(d)| {
      ApplyNext(d, RecoverWrites(d), k);
      RecoverRestart(d, k + 1);
    }
  }

  lemma CrashSteppable(s: State)
    requires Steppable(s)
    ensures Steppable(PowerFail(s))
  {
    assert RecoverWrites(s.disk)[..0] == [];
  }

  lemma LogSteppable(s: State, i: nat, b: nat, data: Block)
    requires Steppable(s) && s.phase.Running? && WithinBudget(s, i, b)
    ensures Steppable(Log(s, i, b, data))
  {
    if !TooBig(|s.lh|) { AbsorbGood(|s.disk|, s.lh, b); }
  }

  lemma StepSteppable(s: State, e: Event)
    requires Steppable(s)
    ensures Steppable(Step(s, e))
  {
    match e
    case Crash => CrashSteppable(s);
    case RecoverStep => if s.phase.Recovery? { RecoverSteppable(s); }
    case LogWrite(i, b, data) => if s.phase.Running? && WithinBudget(s, i, b) { LogSteppable(s, i, b, data); }
    case CommitStep(c) => if s.phase.Running? && c < |s.commits| { AdvanceSteppable(s, c); }
    case _ =>
  }

  /** The blocks of an operation that are in the transaction. */
  ghost function Kept(logged: set<nat>, lh: seq<nat>): set<nat> { set b | b in logged && b in lh }

  /** The space that outstanding operations may still ask of the transaction. */
  ghost function Budget(ops: seq<Op>, lh: seq<nat>): int {
    if ops == [] then 0
    else Budget(ops[..|ops| - 1], lh) + MAXOPBLOCKS - |Kept(ops[|ops| - 1].logged, lh)|
  }

  lemma {:induction false} BudgetBounds(ops: seq<Op>, lh: seq<nat>)
    requires Frugal(ops)
    ensures 0 <= Budget(ops, lh) <= |ops| * MAXOPBLOCKS
  {
    if ops != [] {
      BudgetBounds(ops[..|ops| - 1], lh);
      var o := ops[|ops| - 1];
      SubsetSize(Kept(o.logged, lh), o.logged);
    }
  }

  lemma {:induction false} BudgetSplit(a: seq<Op>, o: Op, b: seq<Op>, lh: seq<nat>)
    ensures Budget(a + [o] + b, lh) == Budget(a + b, lh) + MAXOPBLOCKS - |Kept(o.logged, lh)|
  {
    var s := a + [o] + b;
    if b == [] {
      assert a + b == a && s[..|s| - 1] == a;
    } else {
      BudgetSplit(a, o, b[..|b| - 1], lh);
      assert s[..|s| - 1] == a + [o] + b[..|b| - 1];
      assert (a + b)[..|a + b| - 1] == a + b[..|b| - 1];
    }
  }

  /** A longer transaction leaves less to be asked for. */
  lemma {:induction false} BudgetShrinks(ops: seq<Op>, lh: seq<nat>, more: seq<nat>)
    requires forall b :: b in lh ==> b in more
    ensures Budget(ops, more) <= Budget(ops, lh)
  {
    if ops != [] {
      BudgetShrinks(ops[..|ops| - 1], lh, more);
      var o := ops[|ops| - 1];
      SubsetSize(Kept(o.logged, lh), Kept(o.logged, more));
    }
  }

  lemma EmptyBudget(ops: seq<Op>, pid: nat, lh: seq<nat>)
    ensures Budget(ops + [Op(pid, {})], lh) == Budget(ops, lh) + MAXOPBLOCKS
  {
    assert (ops + [Op(pid, {})])[..|ops|] == ops;
    assert Kept({}, lh) == {};
  }

  ghost predicate Frugal(ops: seq<Op>) { forall i :: 0 <= i < |ops| ==> |ops[i].logged| <= MAXOPBLOCKS }

  /** The log never promises more space than it has, and is at most half full when nothing is
      outstanding and end_op is not committing. */
  ghost predicate SpaceInv(s: State) {
    && Frugal(s.ops) && |s.ops| * MAXOPBLOCKS <= LOGSIZE && |s.lh| + Budget(s.ops, s.lh) <= LOGSIZE
    && (s.committing ==> s.ops == [])
    && (s.ops == [] && !s.committing ==> |s.lh| <= NLOG / 2)
    && GuardInv(s)
    && (s.phase.Recovery? ==> s.lh == [] && s.ops == [] && s.commits == [])
  }

  ghost predicate Guarded(commits: seq<Commit>) { exists c :: 0 <= c < |commits| && commits[c].guarded }

  /** end_op runs one commit at a time, marked by log.committing until its transaction is gone. */
  ghost predicate GuardInv(s: State) {
    && (s.committing <==> Guarded(s.commits))
    && (forall c, e :: 0 <= c < e < |s.commits| ==> !(s.commits[c].guarded && s.commits[e].guarded))
    && (forall c :: 0 <= c < |s.commits| && s.commits[c].guarded && Cleared(s.commits[c].pc) ==> s.lh == [])
  }

  lemma BeginSpace(s: State, pid: nat)
    requires SpaceInv(s) && s.phase.Running?
    ensures SpaceInv(Begin(s, pid))
  {
    BudgetBounds(s.ops, s.lh);
    EmptyBudget(s.ops, pid, s.lh);
  }

  /** One more block of one operation, in a transaction that may grow by it. */
  lemma LogBudget(ops: seq<Op>, i: nat, b: nat, lh: seq<nat>)
    requires i < |ops|
    ensures var o := ops[i]; var more := Absorb(lh, b);
            |more| + Budget(ops[i := Op(o.pid, o.logged + {b})], more) <= |lh| + Budget(ops, lh)
  {
    var o, more := ops[i], Absorb(lh, b);
    var o' := Op(o.pid, o.logged + {b});
    var left, right := ops[..i], ops[i + 1..];
    assert ops == left + [o] + right && ops[i := o'] == left + [o'] + right;
    BudgetSplit(left, o, right, lh);
    BudgetSplit(left, o', right, more);
    BudgetShrinks(left + right, lh, more);
    KeptGrows(o.logged, b, lh);
  }

  lemma KeptGrows(logged: set<nat>, b: nat, lh: seq<nat>)
    ensures |Absorb(lh, b)| - |lh| <= |Kept(logged + {b}, Absorb(lh, b))| - |Kept(logged, lh)|
  {
    var k, k' := Kept(logged, lh), Kept(logged + {b}, Absorb(lh, b));
    SubsetSize(k + {b}, k');
    if b in lh { SubsetSize(k, k'); }
  }

  lemma LogSpace(s: State, i: nat, b: nat, data: Block)
    requires SpaceInv(s) && s.phase.Running? && |s.mem| == |s.disk| && WithinBudget(s, i, b)
    ensures SpaceInv(Log(s, i, b, data))
  {
    LogBudget(s.ops, i, b, s.lh);
  }

  lemma Around(ops: seq<Op>, i: nat)
    requires i < |ops|
    ensures ops == ops[..i] + [ops[i]] + ops[i + 1..]
  {
  }

  lemma EndBudget(ops: seq<Op>, i: nat, lh: seq<nat>)
    requires i < |ops| && Frugal(ops)
    ensures Budget(ops[..i] + ops[i + 1..], lh) <= Budget(ops, lh)
  {
    var o, left, right := ops[i], ops[..i], ops[i + 1..];
    Around(ops, i);
    BudgetSplit(left, o, right, lh);
    SubsetSize(Kept(o.logged, lh), o.logged);
  }

  lemma EndFrugal(ops: seq<Op>, i: nat)
    requires i < |ops| && Frugal(ops)
    ensures Frugal(ops[..i] + ops[i + 1..])
  {
    var rest := ops[..i] + ops[i + 1..];
    forall j | 0 <= j < |rest| ensures |rest[j].logged| <= MAXOPBLOCKS {
      assert rest[j] == ops[if j < i then j else j + 1];
    }
  }

  /** end_op leaves, without or with a commit of its own. */
  lemma EndSpace(s: State, i: nat)
    requires SpaceInv(s) && s.phase.Running? && i < |s.ops|
    ensures SpaceInv(End(s, i))
  {
    EndBudget(s.ops, i, s.lh);
    EndFrugal(s.ops, i);
    EndGuard(s, i);
  }

  lemma EndGuard(s: State, i: nat)
    requires GuardInv(s) && !s.committing && i < |s.ops|
    ensures GuardInv(End(s, i))
  {
    var t := End(s, i);
    if t.committing { assert t.commits[|s.commits|].guarded; }
  }

  /** A commit goes on, keeping the transaction or dropping it. */
  lemma GotoGuard(s: State, c: nat, t: State)
    requires GuardInv(s) && c < |s.commits| && t.committing == s.committing && (t.lh == s.lh || t.lh == [])
    requires |t.commits| == |s.commits| && t.commits == s.commits[c := t.commits[c]] &&
             t.commits[c].guarded == s.commits[c].guarded
    requires Cleared(t.commits[c].pc) ==> t.lh == [] || Cleared(s.commits[c].pc)
    ensures GuardInv(t)
  {
    if s.committing {
      var e :| 0 <= e < |s.commits| && s.commits[e].guarded;
      assert t.commits[e].guarded;
    }
  }

  lemma AdvanceSpace(s: State, c: nat)
    requires Steppable(s) && SpaceInv(s) && s.phase.Running? && c < |s.commits|
    ensures SpaceInv(Advance(s, c))
  {
    GotoGuard(s, c, Advance(s, c));
    BudgetBounds(s.ops, []);
  }

  lemma FinishGuard(s: State, c: nat)
    requires GuardInv(s) && c < |s.commits|
    ensures GuardInv(Finish(s, c))
  {
    var t := Finish(s, c);
    if s.commits[c].pc.Finished? {
      assert forall e :: 0 <= e < |t.commits| ==> t.commits[e] == s.commits[if e < c then e else e + 1];
      if s.committing && !s.commits[c].guarded {
        var e :| 0 <= e < |s.commits| && s.commits[e].guarded;
        assert t.commits[if e < c then e else e - 1].guarded;
      }
    }
  }

  lemma FinishSpace(s: State, c: nat)
    requires SpaceInv(s) && s.phase.Running? && c < |s.commits|
    ensures SpaceInv(Finish(s, c))
  {
    FinishGuard(s, c);
  }

  lemma SyncGuard(s: State)
    requires GuardInv(s)
    ensures GuardInv(StartCommit(s, false))
  {
    var t := StartCommit(s, false);
    if s.committing {
      var e :| 0 <= e < |s.commits| && s.commits[e].guarded;
      assert t.commits[e].guarded;
    }
  }

  lemma StepSpace(s: State, e: Event)
    requires Steppable(s) && SpaceInv(s)
    ensures SpaceInv(Step(s, e))
  {
    match e
    case BeginOp(pid) => if s.phase.Running? { BeginSpace(s, pid); }
    case LogWrite(i, b, data) => if s.phase.Running? && WithinBudget(s, i, b) { LogSpace(s, i, b, data); }
    case EndOp(i) => if s.phase.Running? && i < |s.ops| { EndSpace(s, i); }
    case CommitStep(c) => if s.phase.Running? && c < |s.commits| { AdvanceSpace(s, c); }
    case Return(c) => if s.phase.Running? && c < |s.commits| { FinishSpace(s, c); }
    case Sync => SyncGuard(s);
    case _ =>
  }

  // ---- processes asleep in begin_op ----

  /** Somebody who will wake them is on the way: an operation or the commit of an end_op. */
  ghost predicate RestInv(s: State) { s.asleep != {} ==> s.ops != [] || s.committing }

  lemma BeginRest(s: State, pid: nat)
    requires SpaceInv(s) && RestInv(s)
    ensures RestInv(Begin(s, pid))
  {
  }

  lemma StepRest(s: State, e: Event)
    requires Steppable(s) && SpaceInv(s) && RestInv(s)
    ensures RestInv(Step(s, e))
  {
    match e
    case BeginOp(pid) => BeginRest(s, pid);
    case CommitStep(c) => if s.phase.Running? && c < |s.commits| { assert Advance(s, c).ops == s.ops; }
    case _ =>
  }

  /** No process sleeps in begin_op unless it would still have to. */
  ghost predicate SleepInv(s: State) { s.asleep != {} ==> !Admits(|s.lh|, |s.ops|, s.committing) }

  /** The one way to forget a sleeper: a commit of sync resets lh.n, which makes room, and wakes nobody. */
  ghost predicate ForgetsSleeper(s: State, e: Event) {
    && s.phase.Running? && e.CommitStep? && e.c < |s.commits|
    && s.commits[e.c].pc.Installing? && s.commits[e.c].pc.tail >= |s.lh|
    && s.asleep != {} && Admits(0, |s.ops|, s.committing)
  }

  lemma AdvanceSleepIff(s: State, c: nat)
    requires Steppable(s) && SleepInv(s) && s.phase.Running? && c < |s.commits|
    ensures SleepInv(Advance(s, c)) <==> !ForgetsSleeper(s, CommitStep(c))
  {
  }

  lemma BeginSleep(s: State, pid: nat)
    requires SleepInv(s)
    ensures SleepInv(Begin(s, pid))
  {
  }

  lemma LogSleep(s: State, i: nat, b: nat, data: Block)
    requires SleepInv(s) && i < |s.ops| && b < |s.mem|
    ensures SleepInv(Log(s, i, b, data))
  {
  }

  /** Exactly when a step leaves a process asleep that could go on. */
  lemma SleepStepIff(s: State, e: Event)
    requires Steppable(s) && SpaceInv(s) && SleepInv(s)
    ensures SleepInv(Step(s, e)) <==> !ForgetsSleeper(s, e)
  {
    match e
    case BeginOp(pid) => BeginSleep(s, pid);
    case LogWrite(i, b, data) => if s.phase.Running? && WithinBudget(s, i, b) { LogSleep(s, i, b, data); }
    case CommitStep(c) => if s.phase.Running? && c < |s.commits| { AdvanceSleepIff(s, c); }
    case _ =>
  }
}
