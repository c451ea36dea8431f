/** The operations that filewrite records, performed over the log: they are clients as FsCrash asks for. */
module FsClient {
  import opened Common
  import opened Blocks
  import opened LogSpec
  import opened LogRun
  import opened LogOrder
  import opened LogSafety
  import opened Fs
  import opened FsImage
  import opened FsCrash
  import FsTree

  /** Event i of the run keeps the order that the log needs, and is a file client's. */
  ghost predicate Kept(d: Disk, es: seq<Event>, made: seq<seq<Chunk>>, i: nat)
    requires GoodDisk(d) && i < |es| == |made|
  {
    var s := Run(d, es[..i]);
    Allowed(s, es[i]) && (LastEnds(s, es[i]) ==> Writes(Recover(d), s.hist, made[i]))
  }

  /** Disciplined and FileClients, event by event. */
  ghost predicate AllKept(d: Disk, es: seq<Event>, made: seq<seq<Chunk>>)
    requires GoodDisk(d)
  {
    |made| == |es| && forall i: nat {:trigger Kept(d, es, made, i)} :: i < |es| ==> Kept(d, es, made, i)
  }

  lemma AllKeptIff(d: Disk, es: seq<Event>, made: seq<seq<Chunk>>)
    requires GoodDisk(d)
    ensures AllKept(d, es, made) <==> Disciplined(d, es) && FileClients(d, es, made)
  {
    if AllKept(d, es, made) {
      forall i | 0 <= i < |es|
        ensures Allowed(Run(d, es[..i]), es[i])
        ensures LastEnds(Run(d, es[..i]), es[i]) ==> Writes(Recover(d), Run(d, es[..i]).hist, made[i])
      {
        assert Kept(d, es, made, i);
      }
    }
  }

  /** An orderly run of file clients, which have made the writes m, to state s. */
  ghost predicate Runs(d: Disk, es: seq<Event>, made: seq<seq<Chunk>>, m: seq<Chunk>, s: State) {
    var runs := GoodDisk(d) && IsImage(Recover(d)) && AllKept(d, es, made) && AllMade(d, es, made) == m &&
                s == Run(d, es);
    runs
  }

  /** One event more. */
  lemma RunsOn(d: Disk, es: seq<Event>, made: seq<seq<Chunk>>, m: seq<Chunk>, s: State, e: Event, cs: seq<Chunk>)
    requires Runs(d, es, made, m, s) && Allowed(s, e) && !e.Crash?
    requires if LastEnds(s, e) then Writes(Recover(d), s.hist, cs) else cs == []
    ensures Steppable(s) && Runs(d, es + [e], made + [cs], m + cs, Step(s, e))
  {
    var es', made', n := es + [e], made + [cs], |es|;
    RunSnoc(d, es, e);
    assert es'[..n] == es && made'[..n] == made;
    forall i: nat | i < |es'| ensures Kept(d, es', made', i) {
      if i < n {
        assert es'[..i] == es[..i];
        assert Kept(d, es, made, i);
      }
    }
  }

  /** What is known of the state that such a run leads to. */
  lemma RunsKnown(d: Disk, es: seq<Event>, made: seq<seq<Chunk>>, m: seq<Chunk>, s: State)
    requires Runs(d, es, made, m, s) && s.phase.Running?
    ensures Steppable(s) && OpsInv(s) && HomeEq(s.mem, Replay(Recover(d), s.hist))
    ensures s.ops == [] && !s.committing ==> |s.lh| <= NLOG / 2 && s.asleep == {}
  {
    AllKeptIff(d, es, made);
    RunOps(d, es);
    CacheCurrent(d, es);
    if s.ops == [] && !s.committing { QuietAdmits(d, es); }
  }

  // ---- one operation ----

  /** Since the history was h0, with nothing outstanding, pid has begun an operation and nobody has ended one. */
  ghost predicate Noted(h0: seq<Entry>, pid: nat, h: seq<Entry>) {
    var noted := Open(h) == {pid} && Ends(h) == Ends(h0) && |h0| == Quiet(h) && h[..|h0|] == h0;
    noted
  }

  /** The blocks of the operation are in the transaction, which was at most half full before. */
  ghost predicate Took(touched: set<nat>, lh: seq<nat>) {
    var took := (forall b :: b in touched ==> b in lh) && |lh| <= NLOG / 2 + |touched|;
    took
  }

  /** Process pid has performed the first i writes of ws on what was `start`. */
  ghost predicate During(h0: seq<Entry>, pid: nat, start: Disk, ws: seq<Write>, i: nat, s: State) {
    var during := i <= |ws| && InRange(start, ws) && s.phase.Running? && s.commits == [] && !s.committing &&
                  s.ops == [Op(pid, Touched(ws[..i]))] && HomeEq(Apply(start, ws[..i]), s.mem) &&
                  Noted(h0, pid, s.hist) && Took(Touched(ws[..i]), s.lh);
    during
  }

  lemma QuietSnoc(h: seq<Entry>, x: Entry)
    ensures Open(h + [x]) != {} ==> Quiet(h + [x]) == Quiet(h)
    ensures Ends(h + [x]) == Ends(h) + if x.Ended? then 1 else 0
  {
    assert (h + [x])[..|h|] == h;
  }

  lemma QuietAll(h: seq<Entry>)
    requires Open(h) == {}
    ensures Quiet(h) == |h|
  {
  }

  lemma NotedFirst(h: seq<Entry>, pid: nat)
    requires Open(h) == {}
    ensures Noted(h, pid, h + [Begun(pid)])
  {
    Snoc([], h, Begun(pid));
    QuietSnoc(h, Begun(pid));
    QuietAll(h);
    assert pid in Open(h + [Begun(pid)]);
  }

  lemma BeginsDuring(s0: State, pid: nat, start: Disk, ws: seq<Write>, s: State)
    requires s0.phase.Running? && s0.ops == [] && s0.commits == [] && !s0.committing && s0.asleep == {}
    requires |s0.lh| <= NLOG / 2 && Open(s0.hist) == {} && HomeEq(start, s0.mem) && InRange(start, ws)
    requires s == Begin(s0, pid)
    ensures During(s0.hist, pid, start, ws, 0, s)
  {
    assert ws[..0] == [] && Touched(ws[..0]) == {};
    NotedFirst(s0.hist, pid);
  }

  lemma NotedNext(h0: seq<Entry>, pid: nat, h: seq<Entry>, b: nat, data: Block)
    requires Noted(h0, pid, h)
    ensures Noted(h0, pid, h + [Wrote(pid, b, data)])
  {
    var g := h + [Wrote(pid, b, data)];
    Snoc([], h, Wrote(pid, b, data));
    QuietSnoc(h, Wrote(pid, b, data));
    assert g[..|h0|] == h[..|h0|];
  }

  lemma TookNext(touched: set<nat>, lh: seq<nat>, b: nat)
    requires Took(touched, lh)
    ensures Took(touched + {b}, Absorb(lh, b))
  {
    if b in touched { assert touched + {b} == touched; }
  }

  /** The blocks of the first writes are among all. */
  lemma TouchedNext(ws: seq<Write>, i: nat, next: nat)
    requires i < |ws| && next == i + 1
    ensures Touched(ws[..next]) == Touched(ws[..i]) + {ws[i].blockno}
    ensures |Touched(ws[..i])| <= |Touched(ws[..next])| <= |Touched(ws)|
  {
    TouchedSnoc(ws[..i], ws[i]);
    assert ws[..i] + [ws[i]] == ws[..next];
    forall b | b in Touched(ws[..next]) ensures b in Touched(ws) {
      var j :| 0 <= j < next && ws[..next][j].blockno == b;
      assert ws[j].blockno == b;
    }
    SubsetSize(Touched(ws[..next]), Touched(ws));
    SubsetSize(Touched(ws[..i]), Touched(ws[..next]));
  }

  lemma WritesDuring(h0: seq<Entry>, pid: nat, start: Disk, ws: seq<Write>, i: nat, s: State, b: nat, data: Block,
                     next: nat)
    requires During(h0, pid, start, ws, i, s) && i < |ws| && ws[i] == Write(b, data) && next == i + 1
    requires IsHome(|s.disk|, b) && |s.mem| == |s.disk| && |Touched(ws)| <= MAXOPBLOCKS
    ensures WithinBudget(s, 0, b) && During(h0, pid, start, ws, next, Log(s, 0, b, data))
  {
    TouchedNext(ws, i, next);
    TookNext(Touched(ws[..i]), s.lh, b);
    NotedNext(h0, pid, s.hist, b, data);
    ApplyNext(start, ws, i);
  }

  lemma OneMove(d: Disk, c: Chunk, e: Disk)
    requires IsImage(d) && IsImage(e) && WholeWrite(d, c, e)
    ensures Moves(d, [c], e)
  {
    assert [c][..0] == [] && [c][0] == c;
    assert PutAll(Files(d), [c]) == PutFiles(PutAll(Files(d), []), c);
    assert CanPutAll(Files(d), []);
  }

  /** When all is written, the operation has made its write. */
  lemma DuringWrites(base: Disk, h0: seq<Entry>, pid: nat, o: Operation, c: Chunk, e: FsTree.Disk, s: State)
    requires WritesAs(o, c, e) && During(h0, pid, o.start, o.trace, |o.trace|, s)
    requires HomeEq(o.start, Replay(base, h0)) && HomeEq(s.mem, Replay(base, s.hist))
    ensures Writes(base, s.hist, [c])
  {
    assert o.trace[..|o.trace|] == o.trace;
    OneMove(o.start, c, e);
    MovesHome(o.start, [c], e, Replay(base, h0), Replay(base, s.hist));
  }

  /** At rest: nothing outstanding, no commit under way, and x in the cache. */
  ghost predicate AtRest(s: State, x: Disk) {
    var rest := s.phase.Running? && s.ops == [] && s.commits == [] && !s.committing && HomeEq(x, s.mem);
    rest
  }

  /** The writes of an operation, from rest. */
  lemma {:induction false} Perform(d: Disk, es: seq<Event>, made: seq<seq<Chunk>>, m: seq<Chunk>, s0: State, pid: nat,
                                   start: Disk, ws: seq<Write>)
      returns (es': seq<Event>, made': seq<seq<Chunk>>, s: State)
    requires Runs(d, es, made, m, s0) && AtRest(s0, start)
    requires |start| == FsTree.FSSIZE && InRange(start, ws) && HomeOnly(ws) && |Touched(ws)| <= MAXOPBLOCKS
    ensures es <= es' && made <= made' && Runs(d, es', made', m, s)
    ensures During(s0.hist, pid, start, ws, |ws|, s) && HomeEq(start, Replay(Recover(d), s0.hist))
  {
    var i := 0;
    RunsKnown(d, es, made, m, s0);
    OpenIff(s0);
    RunsOn(d, es, made, m, s0, BeginOp(pid), []);
    es', made', s := es + [BeginOp(pid)], made + [[]], Begin(s0, pid);
    assert m + [] == m;
    BeginsDuring(s0, pid, start, ws, s);
    while i < |ws|
      invariant es <= es' && made <= made' && Runs(d, es', made', m, s)
      invariant i <= |ws| && During(s0.hist, pid, start, ws, i, s)
    {
      var e, next := LogWrite(0, ws[i].blockno, ws[i].data), i + 1;
      RunsKnown(d, es', made', m, s);
      WritesDuring(s0.hist, pid, start, ws, i, s, e.blockno, e.data, next);
      RunsOn(d, es', made', m, s, e, []);
      es', made', s, i := es' + [e], made' + [[]], Log(s, 0, e.blockno, e.data), next;
    }
  }

  // ---- its end, and its commit if there is one ----

  /** Nothing outstanding, and at most one commit under way, which end_op called. */
  ghost predicate Settling(s: State) {
    var settling := s.phase.Running? && s.ops == [] &&
                    if s.committing then |s.commits| == 1 && s.commits[0].guarded else s.commits == [];
    settling
  }

  lemma {:induction false} PerformEnd(d: Disk, es: seq<Event>, made: seq<seq<Chunk>>, m: seq<Chunk>, s: State,
                                      h0: seq<Entry>, pid: nat, o: Operation, c: Chunk, e: FsTree.Disk)
    requires Runs(d, es, made, m, s) && WritesAs(o, c, e)
    requires During(h0, pid, o.start, o.trace, |o.trace|, s) && HomeEq(o.start, Replay(Recover(d), h0))
    ensures |s.ops| == 1 && Runs(d, es + [EndOp(0)], made + [[c]], m + [c], End(s, 0))
    ensures Settling(End(s, 0)) && HomeEq(e, Replay(Recover(d), End(s, 0).hist))
  {
    assert o.trace[..|o.trace|] == o.trace;
    RunsKnown(d, es, made, m, s);
    DuringWrites(Recover(d), h0, pid, o, c, e, s);
    RunsOn(d, es, made, m, s, EndOp(0), [c]);
    assert End(s, 0).hist == s.hist + [Ended(pid)];
    Snoc(Recover(d), s.hist, Ended(pid));
  }

  /** The steps a commit has yet to take. */
  function Left(pc: Pc, n: nat): nat {
    match pc
    case Logging(t) => if t < n then n - t + n + 4 else n + 4
    case Installing(t) => if t < n then n - t + 3 else 3
    case Clearing => 1
    case Finished => 0
  }

  lemma CommitSettling(s: State)
    requires Steppable(s) && Settling(s) && s.committing && !s.commits[0].pc.Finished?
    ensures var t := Advance(s, 0);
            && Settling(t) && t.committing && t.hist == s.hist
            && Left(t.commits[0].pc, |t.lh|) < Left(s.commits[0].pc, |s.lh|)
  {
  }

  /** Any commit runs to its end. */
  lemma {:induction false} Settle(d: Disk, es: seq<Event>, made: seq<seq<Chunk>>, m: seq<Chunk>, s0: State, x: Disk)
      returns (es': seq<Event>, made': seq<seq<Chunk>>, s: State)
    requires Runs(d, es, made, m, s0) && Settling(s0) && HomeEq(x, Replay(Recover(d), s0.hist))
    ensures es <= es' && made <= made' && Runs(d, es', made', m, s) && AtRest(s, x)
  {
    es', made', s := es, made, s0;
    assert m + [] == m;
    while s.committing && !s.commits[0].pc.Finished?
      invariant es <= es' && made <= made' && Runs(d, es', made', m, s) && Settling(s) && s.hist == s0.hist
      decreases if s.committing then Left(s.commits[0].pc, |s.lh|) else 0
    {
      RunsOn(d, es', made', m, s, CommitStep(0), []);
      CommitSettling(s);
      es', made', s := es' + [CommitStep(0)], made' + [[]], Advance(s, 0);
    }
    if s.committing {
      RunsOn(d, es', made', m, s, Return(0), []);
      es', made', s := es' + [Return(0)], made' + [[]], Finish(s, 0);
    }
    RunsKnown(d, es', made', m, s);
  }

  // ---- a whole filewrite ----

  ghost predicate InBudget(ops: seq<Operation>) {
    forall i :: 0 <= i < |ops| ==> |Touched(ops[i].trace)| <= MAXOPBLOCKS
  }

  lemma {:induction false} PerformOne(d: Disk, es: seq<Event>, made: seq<seq<Chunk>>, m: seq<Chunk>, s0: State,
                                      pid: nat, o: Operation, c: Chunk, e: FsTree.Disk)
      returns (es': seq<Event>, made': seq<seq<Chunk>>, s: State)
    requires Runs(d, es, made, m, s0) && AtRest(s0, o.start) && WritesAs(o, c, e)
    requires |Touched(o.trace)| <= MAXOPBLOCKS
    ensures es <= es' && made <= made' && Runs(d, es', made', m + [c], s) && AtRest(s, e)
  {
    es', made', s := Perform(d, es, made, m, s0, pid, o.start, o.trace);
    PerformEnd(d, es', made', m, s, s0.hist, pid, o, c, e);
    var t := End(s, 0);
    es', made', s := Settle(d, es' + [EndOp(0)], made' + [[c]], m + [c], t, e);
  }

  lemma LastOp(x: FsTree.Disk, ops: seq<Operation>, cs: seq<Chunk>, e: FsTree.Disk, k: nat, m: seq<Chunk>)
    requires OpsFollow(x, ops, cs, e) && InBudget(ops) && |ops| == k + 1
    ensures OpsFollow(x, ops[..k], cs[..k], ops[k].start) && WritesAs(ops[k], cs[k], e)
    ensures InBudget(ops[..k]) && |Touched(ops[k].trace)| <= MAXOPBLOCKS && m + cs[..k] + [cs[k]] == m + cs
  {
  }

  /** The operations are performed one after the other, each within the budget of the log. */
  lemma {:induction false} PerformAll(d: Disk, es: seq<Event>, made: seq<seq<Chunk>>, m: seq<Chunk>, s0: State,
                                      pid: nat, x: FsTree.Disk, ops: seq<Operation>, cs: seq<Chunk>, e: FsTree.Disk)
      returns (es': seq<Event>, made': seq<seq<Chunk>>, s: State)
    requires Runs(d, es, made, m, s0) && AtRest(s0, x) && OpsFollow(x, ops, cs, e) && InBudget(ops)
    ensures es <= es' && made <= made' && Runs(d, es', made', m + cs, s) && AtRest(s, e)
    decreases |ops|
  {
    if ops == [] {
      es', made', s := es, made, s0;
      assert m + cs == m;
    } else {
      var k := |ops| - 1;
      LastOp(x, ops, cs, e, k, m);
      es', made', s := PerformAll(d, es, made, m, s0, pid, x, ops[..k], cs[..k], ops[k].start);
      es', made', s := PerformOne(d, es', made', m + cs[..k], s, pid, ops[k], cs[k], e);
    }
  }

  /** Cut after n of its events, the run recovers to the files after some of the writes m, those that had ended
      durably after i events included. */
  ghost predicate CutShort(d: Disk, es: seq<Event>, m: seq<Chunk>, i: nat, n: nat)
    requires GoodDisk(d) && i <= n <= |es|
  {
    var s, t := Run(d, es[..i]), Run(d, es[..n]);
    && GoodDisk(t.disk) && Durably(s) <= Durably(t) <= |m|
    && Moves(Recover(d), m[..Durably(t)], Recover(t.disk))
  }

  lemma {:induction false} CutAnywhere(d: Disk, es: seq<Event>, made: seq<seq<Chunk>>, m: seq<Chunk>, s: State, i: nat,
                                       n: nat)
    requires Runs(d, es, made, m, s) && i <= n <= |es|
    ensures CutShort(d, es, m, i, n)
  {
    var pre := es[..n];
    AllKeptIff(d, es, made);
    DisciplinedPrefix(d, es, n);
    FileClientsPrefix(d, es, made, n);
    CrashFiles(d, pre, made[..n]);
    WritesStay(d, es, made, n);
    assert es[..i] + pre[i..] == pre;
    DurableForever(d, es[..i], pre[i..]);
    DurablyGrows(Run(d, es[..i]), Run(d, pre));
  }

  /** A filewrite and a power failure: the recorded operations can be performed from rest, and wherever the power
      fails on the way, recovery brings back a well-formed file system with the files after all writes that had ended
      durably before, and after a whole number of this call's chunks. */
  lemma {:induction false} FilewriteCrash(d: Disk, es: seq<Event>, made: seq<seq<Chunk>>, m: seq<Chunk>, s0: State,
                                          pid: nat, x: FsTree.Disk, ops: seq<Operation>, cs: seq<Chunk>, e: FsTree.Disk)
      returns (es': seq<Event>, made': seq<seq<Chunk>>, s: State)
    requires Runs(d, es, made, m, s0) && AtRest(s0, x) && OpsFollow(x, ops, cs, e) && InBudget(ops)
    ensures es <= es' && Runs(d, es', made', m + cs, s) && AtRest(s, e)
    ensures forall n :: |es| <= n <= |es'| ==> CutShort(d, es', m + cs, |es|, n)
  {
    es', made', s := PerformAll(d, es, made, m, s0, pid, x, ops, cs, e);
    forall n | |es| <= n <= |es'| ensures CutShort(d, es', m + cs, |es|, n) {
      CutAnywhere(d, es', made', m + cs, s, |es|, n);
    }
  }
}
