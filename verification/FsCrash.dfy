/** Files across power failures: the file system's operations over the log, in every orderly run. */
module FsCrash {
  import opened Blocks
  import opened LogSpec
  import opened LogRun
  import opened LogOrder
  import opened LogSafety
  import opened FsImage
  import FsTree

  // ---- several writes ----

  /** The files after several writes, oldest first. */
  ghost function PutAll(fs: seq<seq<Byte>>, cs: seq<Chunk>): (r: seq<seq<Byte>>)
    ensures |r| == |fs|
  {
    if cs == [] then fs else PutFiles(PutAll(fs, cs[..|cs| - 1]), cs[|cs| - 1])
  }

  /** Each write starts within its file as it then is. */
  ghost predicate CanPutAll(fs: seq<seq<Byte>>, cs: seq<Chunk>) {
    cs == [] || (CanPutAll(fs, cs[..|cs| - 1]) && CanPut(PutAll(fs, cs[..|cs| - 1]), cs[|cs| - 1]))
  }

  lemma {:induction false} PutAllMore(fs: seq<seq<Byte>>, cs: seq<Chunk>, more: seq<Chunk>)
    requires CanPutAll(fs, cs) && CanPutAll(PutAll(fs, cs), more)
    ensures CanPutAll(fs, cs + more) && PutAll(fs, cs + more) == PutAll(PutAll(fs, cs), more)
  {
    if more == [] {
      assert cs + more == cs;
    } else {
      PutAllMore(fs, cs, more[..|more| - 1]);
      assert (cs + more)[..|cs + more| - 1] == cs + more[..|more| - 1];
    }
  }

  ghost predicate IsImage(d: Disk) { |d| == FsTree.FSSIZE && WellFormed(d) }

  /** Both disks hold well-formed file systems, and the writes make the files of the second from those of the first. */
  ghost predicate Moves(d: Disk, cs: seq<Chunk>, e: Disk) {
    var moves := IsImage(d) && IsImage(e) && CanPutAll(Files(d), cs) && Files(e) == PutAll(Files(d), cs);
    moves
  }

  lemma MovesNone(d: Disk)
    requires IsImage(d)
    ensures Moves(d, [], d)
  {
  }

  lemma MovesOn(d: Disk, cs: seq<Chunk>, m: Disk, more: seq<Chunk>, e: Disk)
    requires Moves(d, cs, m) && Moves(m, more, e)
    ensures Moves(d, cs + more, e)
  {
    PutAllMore(Files(d), cs, more);
  }

  lemma HomeImage(d: Disk, e: Disk)
    requires IsImage(d) && HomeEq(d, e)
    ensures IsImage(e) && Files(e) == Files(d)
  {
    assert forall b: nat :: FsTree.INODESTART <= b < FsTree.FSSIZE ==> IsHome(|d|, b);
    SameImage(d, e);
  }

  lemma MovesHome(d: Disk, cs: seq<Chunk>, e: Disk, d': Disk, e': Disk)
    requires Moves(d, cs, e) && HomeEq(d, d') && HomeEq(e, e')
    ensures Moves(d', cs, e')
  {
    HomeImage(d, d');
    HomeImage(e, e');
  }

  // ---- what the file system promises the log ----

  /** How many operations have ended. */
  ghost function Ends(h: seq<Entry>): nat {
    if h == [] then 0 else Ends(h[..|h| - 1]) + if h[|h| - 1].Ended? then 1 else 0
  }

  /** The last moment with no operation outstanding. */
  ghost function Quiet(h: seq<Entry>): (k: nat)
    ensures k <= |h| && Open(h[..k]) == {}
  {
    if h == [] then 0
    else if Open(h) == {} then
      assert h[..|h|] == h;
      |h|
    else
      var k := Quiet(h[..|h| - 1]);
      assert h[..|h| - 1][..k] == h[..k];
      k
  }

  /** Event e is the end of the only operation outstanding. */
  ghost predicate LastEnds(s: State, e: Event) {
    e.EndOp? && s.phase.Running? && e.op < |s.ops| == 1
  }

  /** What has been logged since no operation was outstanding makes the writes cs, one for the operation that is about
      to end and for each that ended since. */
  ghost predicate Writes(base: Disk, h: seq<Entry>, cs: seq<Chunk>) {
    |cs| + Ends(h[..Quiet(h)]) == Ends(h) + 1 && Moves(Replay(base, h[..Quiet(h)]), cs, Replay(base, h))
  }

  /** The clients of the log are writes of files: when the last outstanding operation ends, those that overlapped with
      it have together made one whole write each, in the order given for this event in `made`. */
  ghost predicate FileClients(d: Disk, es: seq<Event>, made: seq<seq<Chunk>>)
    requires GoodDisk(d)
  {
    && |made| == |es|
    && forall i :: 0 <= i < |es| && LastEnds(Run(d, es[..i]), es[i]) ==>
         Writes(Recover(d), Run(d, es[..i]).hist, made[i])
  }

  /** All writes of the clients so far; a power failure takes back those of operations whose end is not durable. */
  ghost function AllMade(d: Disk, es: seq<Event>, made: seq<seq<Chunk>>): seq<Chunk>
    requires |made| == |es|
  {
    if es == [] then []
    else
      var k := |es| - 1;
      MadeNext(Run(d, es[..k]), es[k], AllMade(d, es[..k], made[..k]), made[k])
  }

  ghost function MadeNext(s: State, e: Event, m: seq<Chunk>, cs: seq<Chunk>): seq<Chunk> {
    if e.Crash? && Durably(s) <= |m| then m[..Durably(s)] else if LastEnds(s, e) then m + cs else m
  }

  /** How many operations have ended durably. */
  ghost function Durably(s: State): nat { if s.durable <= |s.hist| then Ends(s.hist[..s.durable]) else 0 }

  // ---- over whole runs ----

  /** The first k entries of the history are the first writes of m, one for each operation that ended in them. */
  ghost predicate Explained(base: Disk, h: seq<Entry>, m: seq<Chunk>, k: nat)
    requires k <= |h|
  {
    var n := Ends(h[..k]);
    n <= |m| && Moves(base, m[..n], Replay(base, h[..k]))
  }

  /** So it is wherever no operation is outstanding, and m goes as far as the last such point. */
  ghost predicate AllExplained(base: Disk, h: seq<Entry>, m: seq<Chunk>) {
    && |m| == Ends(h[..Quiet(h)])
    && forall k {:trigger Explained(base, h, m, k)} :: 0 <= k <= |h| && Open(h[..k]) == {} ==> Explained(base, h, m, k)
  }

  lemma {:induction false} PrefixExplained(base: Disk, h: seq<Entry>, m: seq<Chunk>, k: nat, g: seq<Entry>,
                                           m': seq<Chunk>)
    requires k <= |h| && k <= |g| && h[..k] == g[..k] && Explained(base, h, m, k)
    requires Ends(g[..k]) <= |m'| && m'[..Ends(g[..k])] == m[..Ends(g[..k])]
    ensures Explained(base, g, m', k)
  {
  }

  lemma {:induction false} EndsGrow(h: seq<Entry>, k: nat)
    requires k <= |h|
    ensures Ends(h[..k]) <= Ends(h)
  {
    if k == |h| {
      assert h[..k] == h;
    } else {
      EndsGrow(h[..|h| - 1], k);
      assert h[..|h| - 1][..k] == h[..k];
    }
  }

  /** A power failure after n durable entries. */
  lemma {:induction false} CutExplained(base: Disk, h: seq<Entry>, m: seq<Chunk>, n: nat, g: seq<Entry>)
    requires AllExplained(base, h, m) && n <= |h| && g == h[..n] && Open(g) == {}
    ensures Ends(g) <= |m| && AllExplained(base, g, m[..Ends(g)])
  {
    assert Explained(base, h, m, n);
    var m' := m[..Ends(g)];
    assert g[..n] == g;
    forall k | 0 <= k <= n && Open(g[..k]) == {} ensures Explained(base, g, m', k) {
      assert g[..k] == h[..k];
      assert Explained(base, h, m, k);
      EndsGrow(g, k);
      PrefixExplained(base, h, m, k, g, m');
    }
  }

  /** One entry more, which leaves an operation outstanding or is explained by more writes. */
  lemma {:induction false} SnocExplained(base: Disk, h: seq<Entry>, m: seq<Chunk>, g: seq<Entry>, m': seq<Chunk>)
    requires AllExplained(base, h, m) && |g| == |h| + 1 && g[..|h|] == h && m <= m'
    requires if Open(g) == {} then |m'| == Ends(g) && Explained(base, g, m', |g|) else m' == m
    ensures AllExplained(base, g, m')
  {
    assert g[..|g|] == g;
    assert g[..Quiet(h)] == h[..Quiet(h)];
    forall k | 0 <= k <= |h| && Open(g[..k]) == {} ensures Explained(base, g, m', k) {
      assert g[..k] == h[..k];
      assert Explained(base, h, m, k);
      PrefixExplained(base, h, m, k, g, m');
    }
  }

  /** The last operation ends. */
  lemma {:induction false} EndExplained(base: Disk, h: seq<Entry>, m: seq<Chunk>, k: nat, cs: seq<Chunk>, x: Entry,
                                        g: seq<Entry>)
    requires k == Quiet(h) && |m| == Ends(h[..k]) && Explained(base, h, m, k) && Writes(base, h, cs)
    requires x.Ended? && g == h + [x]
    ensures |m + cs| == Ends(g) && Explained(base, g, m + cs, |g|)
  {
    Snoc(base, h, x);
    assert g[..|g|] == g && g[..|h|] == h && m[..|m|] == m && (m + cs)[..|m + cs|] == m + cs;
    MovesOn(base, m, Replay(base, h[..k]), cs, Replay(base, h));
  }

  /** The history grows by an entry at a time, and only an end of the last operation leaves none outstanding. */
  lemma StepHist(s: State, e: Event, t: State)
    requires Steppable(s) && t == Step(s, e) && !e.Crash? && t.hist != s.hist
    ensures |t.hist| == |s.hist| + 1 && t.hist[..|s.hist|] == s.hist && t.phase.Running?
    ensures t.ops == [] <==> LastEnds(s, e)
    ensures LastEnds(s, e) ==> t.hist[|s.hist|].Ended?
  {
  }

  lemma OpenIff(s: State)
    requires OpsInv(s)
    ensures Open(s.hist) == {} <==> s.ops == []
  {
    if s.ops == [] {
      QuietClosed(s);
    } else {
      assert Pids(s.ops, s.ops[0].pid);
    }
  }

  lemma {:induction false} StepExplained(base: Disk, s: State, e: Event, t: State, m: seq<Chunk>, cs: seq<Chunk>)
    requires Steppable(s) && Open(s.hist[..s.durable]) == {} && t == Step(s, e) && (t.phase.Running? ==> OpsInv(t))
    requires AllExplained(base, s.hist, m) && (LastEnds(s, e) ==> Writes(base, s.hist, cs))
    ensures AllExplained(base, t.hist, MadeNext(s, e, m, cs))
  {
    if e.Crash? {
      CutExplained(base, s.hist, m, s.durable, t.hist);
    } else if t.hist != s.hist {
      StepHist(s, e, t);
      OpenIff(t);
      if LastEnds(s, e) {
        assert Explained(base, s.hist, m, Quiet(s.hist));
        EndExplained(base, s.hist, m, Quiet(s.hist), cs, t.hist[|s.hist|], t.hist);
      }
      SnocExplained(base, s.hist, m, t.hist, MadeNext(s, e, m, cs));
    } else {
      assert !LastEnds(s, e);
    }
  }

  /** From the invariant of orderly runs. */
  lemma RunOps(d: Disk, es: seq<Event>)
    requires GoodDisk(d) && Disciplined(d, es)
    ensures var s := Run(d, es);
            Steppable(s) && (s.phase.Running? ==> OpsInv(s)) && Open(s.hist[..s.durable]) == {}
  {
    RunInv(d, es);
  }

  lemma {:induction false} RunExplained(d: Disk, es: seq<Event>, made: seq<seq<Chunk>>)
    requires GoodDisk(d) && IsImage(Recover(d)) && Disciplined(d, es) && FileClients(d, es, made)
    ensures AllExplained(Recover(d), Run(d, es).hist, AllMade(d, es, made))
  {
    if es == [] {
      NoneExplained(Recover(d));
    } else {
      var k := |es| - 1;
      var rest, m := es[..k], made[..k];
      FileClientsPrefix(d, es, made, k);
      DisciplinedPrefix(d, es, k);
      RunExplained(d, rest, m);
      RunOps(d, rest);
      RunOps(d, es);
      StepExplained(Recover(d), Run(d, rest), es[k], Run(d, es), AllMade(d, rest, m), made[k]);
    }
  }

  lemma NoneExplained(base: Disk)
    requires IsImage(base)
    ensures AllExplained(base, [], [])
  {
    MovesNone(base);
    var h: seq<Entry>, m: seq<Chunk> := [], [];
    assert h[..0] == [] && m[..0] == [];
    assert Explained(base, h, m, 0);
  }

  lemma FileClientsPrefix(d: Disk, es: seq<Event>, made: seq<seq<Chunk>>, n: nat)
    requires GoodDisk(d) && FileClients(d, es, made) && n <= |es|
    ensures FileClients(d, es[..n], made[..n])
  {
    assert forall i :: 0 <= i < n ==> es[..n][..i] == es[..i];
  }

  /** Files survive: whenever the power fails in an orderly run of such clients, recovery brings back a well-formed
      file system with the files as the first of the clients' whole writes left them, exactly as many as there are
      operations that ended durably. */
  lemma {:induction false} CrashFiles(d: Disk, es: seq<Event>, made: seq<seq<Chunk>>)
    requires GoodDisk(d) && IsImage(Recover(d)) && Disciplined(d, es) && FileClients(d, es, made)
    ensures var s, m := Run(d, es), AllMade(d, es, made);
            GoodDisk(s.disk) && Durably(s) <= |m| && Moves(Recover(d), m[..Durably(s)], Recover(s.disk))
  {
    var base, s, m := Recover(d), Run(d, es), AllMade(d, es, made);
    CrashSafe(d, es);
    RunExplained(d, es, made);
    assert Explained(base, s.hist, m, s.durable);
    MovesHome(base, m[..Durably(s)], Replay(base, s.hist[..s.durable]), base, Recover(s.disk));
  }

  /** With nothing outstanding, the cache shows all of the clients' writes. */
  lemma {:induction false} CachedFiles(d: Disk, es: seq<Event>, made: seq<seq<Chunk>>)
    requires GoodDisk(d) && IsImage(Recover(d)) && Disciplined(d, es) && FileClients(d, es, made)
    requires Run(d, es).phase.Running? && Run(d, es).ops == []
    ensures Moves(Recover(d), AllMade(d, es, made), Run(d, es).mem)
  {
    var base, s, m := Recover(d), Run(d, es), AllMade(d, es, made);
    RunOps(d, es);
    CacheCurrent(d, es);
    RunExplained(d, es, made);
    OpenIff(s);
    assert s.hist[..|s.hist|] == s.hist && m[..|m|] == m;
    assert Explained(base, s.hist, m, |s.hist|);
    MovesHome(base, m, Replay(base, s.hist), base, s.mem);
  }

  // ---- writes that ended durably stay ----

  /** The first n writes of m are the first of m', and n operations have ended durably. */
  ghost predicate Stay(m: seq<Chunk>, n: nat, m': seq<Chunk>, t: State) {
    n <= |m| && n <= Durably(t) && n <= |m'| && m'[..n] == m[..n]
  }

  lemma DurablyGrows(s: State, t: State)
    requires KeepsDurable(s, t)
    ensures Durably(s) <= Durably(t)
  {
    var h := t.hist[..t.durable];
    assert h[..s.durable] == s.hist[..s.durable];
    EndsGrow(h, s.durable);
  }

  lemma StayNext(d: Disk, es: seq<Event>, e: Event, m: seq<Chunk>, n: nat, m1: seq<Chunk>, cs: seq<Chunk>)
    requires GoodDisk(d) && Stay(m, n, m1, Run(d, es)) && Durably(Run(d, es)) <= |m1|
    ensures Stay(m, n, MadeNext(Run(d, es), e, m1, cs), Run(d, es + [e]))
  {
    RunDurable(d, es, e);
    DurablyGrows(Run(d, es), Run(d, es + [e]));
  }

  /** Once an operation has ended durably, no later event, crash included, takes its write back. */
  lemma {:induction false} WritesStay(d: Disk, es: seq<Event>, made: seq<seq<Chunk>>, i: nat)
    requires GoodDisk(d) && IsImage(Recover(d)) && Disciplined(d, es) && FileClients(d, es, made) && i <= |es|
    ensures var m, m' := AllMade(d, es[..i], made[..i]), AllMade(d, es, made);
            Stay(m, Durably(Run(d, es[..i])), m', Run(d, es))
  {
    if i == |es| {
      assert es[..i] == es && made[..i] == made;
      CrashFiles(d, es, made);
    } else {
      var k := |es| - 1;
      var rest, made1 := es[..k], made[..k];
      assert rest[..i] == es[..i] && made1[..i] == made[..i] && rest + [es[k]] == es;
      FileClientsPrefix(d, es, made, k);
      DisciplinedPrefix(d, es, k);
      WritesStay(d, rest, made1, i);
      CrashFiles(d, rest, made1);
      StayNext(d, rest, es[k], AllMade(d, es[..i], made[..i]), Durably(Run(d, es[..i])), AllMade(d, rest, made1),
               made[k]);
    }
  }
}
