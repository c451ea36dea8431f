/** Runs of the pipe: any number of threads, each critical section one step. */
module PipeRun {
  import opened Blocks
  import opened PipeSpec

  /** A thread: outside the pipe, with what its last call returned, or in pipewrite with bytes before i written, or in
      piperead; asleep or runnable. */
  datatype Thread = Idle(ret: int) | Writer(src: seq<Byte>, i: nat, asleep: bool) | Reader(n: nat, asleep: bool)

  datatype State = State(ring: Ring, threads: seq<Thread>, killed: seq<bool>, accepted: seq<Byte>, delivered: seq<Byte>)

  datatype Event =
    | StartWrite(t: nat, src: seq<Byte>)
    | StartRead(t: nat, n: nat)
    | Section(t: nat)              // t takes the lock and runs until it sleeps or returns
    | Close(writable: bool)
    | Kill(t: nat)

  /** The channels &p->nread and &p->nwrite. */
  datatype Chan = OnRead | OnWrite

  predicate SleepsOn(x: Thread, c: Chan) {
    (x.Reader? && x.asleep && c.OnRead?) || (x.Writer? && x.asleep && c.OnWrite?)
  }

  function Woken(x: Thread): Thread {
    match x
    case Idle(ret) => Idle(ret)
    case Writer(src, i, _) => Writer(src, i, false)
    case Reader(n, _) => Reader(n, false)
  }

  /** wakeup1 */
  function Wakeup(ts: seq<Thread>, c: Chan): seq<Thread> {
    seq(|ts|, k requires 0 <= k < |ts| => if SleepsOn(ts[k], c) then Woken(ts[k]) else ts[k])
  }

  predicate IsState(s: State) {
    && IsRing(s.ring) && |s.killed| == |s.threads|
    && forall k :: 0 <= k < |s.threads| && s.threads[k].Writer? ==> s.threads[k].i <= |s.threads[k].src|
  }

  /** A critical section of pipewrite. */
  function WriteSection(s: State, t: nat): State
    requires IsState(s) && t < |s.threads| && s.threads[t].Writer?
  {
    var Writer(src, i, _) := s.threads[t];
    var (ring, j) := Fill(s.ring, src, i);
    var s1 := s.(ring := ring, accepted := s.accepted + src[i..j]);
    if j == |src| then s1.(threads := Wakeup(s.threads, OnRead)[t := Idle(|src|)])
    else if !ring.readopen || s.killed[t] then s1.(threads := s.threads[t := Idle(-1)])
    else s1.(threads := Wakeup(s.threads, OnRead)[t := Writer(src, j, true)])
  }

  /** A critical section of piperead. */
  function ReadSection(s: State, t: nat): State
    requires IsState(s) && t < |s.threads| && s.threads[t].Reader?
  {
    if Empty(s.ring) && s.ring.writeopen then
      s.(threads := s.threads[t := if s.killed[t] then Idle(-1) else Reader(s.threads[t].n, true)])
    else
      var (ring, got) := Drain(s.ring, s.threads[t].n);
      s.(ring := ring, delivered := s.delivered + got, threads := Wakeup(s.threads, OnWrite)[t := Idle(|got|)])
  }

  /** pipeclose */
  function CloseEnd(s: State, writable: bool): State {
    if writable then s.(ring := s.ring.(writeopen := false), threads := Wakeup(s.threads, OnRead))
    else s.(ring := s.ring.(readopen := false), threads := Wakeup(s.threads, OnWrite))
  }

  /** The pipe is gone once both ends are closed. */
  predicate Gone(s: State) { !s.ring.readopen && !s.ring.writeopen }

  predicate Runnable(x: Thread) { !x.Idle? && !x.asleep }

  predicate Enabled(s: State, e: Event) {
    && !Gone(s)
    && match e
       case StartWrite(t, _) => t < |s.threads| && s.threads[t].Idle? && s.ring.writeopen
       case StartRead(t, _) => t < |s.threads| && s.threads[t].Idle? && s.ring.readopen
       case Section(t) => t < |s.threads| && Runnable(s.threads[t])
       case Close(writable) => if writable then s.ring.writeopen else s.ring.readopen
       case Kill(t) => t < |s.threads|
  }

  function Step(s: State, e: Event): State
    requires IsState(s)
  {
    if !Enabled(s, e) then s
    else
      match e
      case StartWrite(t, src) => s.(threads := s.threads[t := Writer(src, 0, false)])
      case StartRead(t, n) => s.(threads := s.threads[t := Reader(n, false)])
      case Section(t) => if s.threads[t].Writer? then WriteSection(s, t) else ReadSection(s, t)
      case Close(writable) => CloseEnd(s, writable)
      case Kill(t) => s.(killed := s.killed[t := true], threads := s.threads[t := Woken(s.threads[t])])
  }

  /** pipealloc, with n threads around; the page holds whatever it held. */
  function Start(page: seq<Byte>, n: nat): State
    requires |page| == PIPESIZE
  {
    State(Ring(page, 0, 0, true, true), seq(n, _ => Idle(0)), seq(n, _ => false), [], [])
  }

  lemma StepState(s: State, e: Event)
    requires IsState(s)
    ensures IsState(Step(s, e)) && |Step(s, e).threads| == |s.threads|
  {
  }

  function Run(page: seq<Byte>, n: nat, es: seq<Event>): (s: State)
    requires |page| == PIPESIZE
    ensures IsState(s) && |s.threads| == n
  {
    if es == [] then Start(page, n)
    else
      StepState(Run(page, n, es[..|es| - 1]), es[|es| - 1]);
      Step(Run(page, n, es[..|es| - 1]), es[|es| - 1])
  }

  // ---- order and capacity ----

  /** Everything accepted has been delivered or is in flight, in order; the counters count it. */
  ghost predicate Stream(q: Ring, accepted: seq<Byte>, delivered: seq<Byte>) {
    && Sound(q) && accepted == delivered + InFlight(q)
    && q.nread == |delivered| % UINT && q.nwrite == |accepted| % UINT
  }

  lemma {:induction false} FillCounts(q: Ring, src: seq<Byte>, i: nat, n: nat)
    requires IsRing(q) && i <= |src| && q.nwrite == n % UINT
    ensures var r := Fill(q, src, i); r.0.nread == q.nread && r.0.nwrite == (n + (r.1 - i)) % UINT
    decreases |src| - i
  {
    if i < |src| && !Full(q) { FillCounts(PutByte(q, src[i]), src, i + 1, n + 1); }
  }

  lemma {:induction false} DrainCounts(q: Ring, n: nat, k: nat)
    requires IsRing(q) && q.nread == k % UINT
    ensures var r := Drain(q, n); r.0.nwrite == q.nwrite && r.0.nread == (k + |r.1|) % UINT
    decreases n
  {
    if n > 0 && !Empty(q) { DrainCounts(TakeByte(q), n - 1, k + 1); }
  }

  lemma FillStream(q: Ring, accepted: seq<Byte>, delivered: seq<Byte>, src: seq<Byte>, i: nat)
    requires Stream(q, accepted, delivered) && i <= |src|
    ensures var r := Fill(q, src, i); Stream(r.0, accepted + src[i..r.1], delivered)
  {
    FillInFlight(q, src, i);
    FillCounts(q, src, i, |accepted|);
    var r := Fill(q, src, i);
    assert delivered + InFlight(q) + src[i..r.1] == delivered + (InFlight(q) + src[i..r.1]);
  }

  lemma DrainStream(q: Ring, accepted: seq<Byte>, delivered: seq<Byte>, n: nat)
    requires Stream(q, accepted, delivered)
    ensures var r := Drain(q, n); Stream(r.0, accepted, delivered + r.1)
  {
    DrainInFlight(q, n);
    DrainCounts(q, n, |delivered|);
    var r := Drain(q, n);
    assert delivered + (r.1 + InFlight(r.0)) == delivered + r.1 + InFlight(r.0);
  }

  lemma CloseStream(q: Ring, accepted: seq<Byte>, delivered: seq<Byte>, readopen: bool, writeopen: bool)
    requires Stream(q, accepted, delivered)
    ensures Stream(q.(readopen := readopen, writeopen := writeopen), accepted, delivered)
  {
    assert InFlight(q.(readopen := readopen, writeopen := writeopen)) == InFlight(q);
  }

  lemma StreamStep(s: State, e: Event)
    requires IsState(s) && Stream(s.ring, s.accepted, s.delivered)
    ensures var s' := Step(s, e); Stream(s'.ring, s'.accepted, s'.delivered)
  {
    if Enabled(s, e) {
      if e.Section? && s.threads[e.t].Writer? {
        FillStream(s.ring, s.accepted, s.delivered, s.threads[e.t].src, s.threads[e.t].i);
      } else if e.Section? && !(Empty(s.ring) && s.ring.writeopen) {
        DrainStream(s.ring, s.accepted, s.delivered, s.threads[e.t].n);
      } else if e.Close? {
        CloseStream(s.ring, s.accepted, s.delivered, s.ring.readopen && e.writable, s.ring.writeopen && !e.writable);
      }
    }
  }

  lemma {:induction false} RunStream(page: seq<Byte>, n: nat, es: seq<Event>)
    requires |page| == PIPESIZE
    ensures var s := Run(page, n, es); Stream(s.ring, s.accepted, s.delivered)
  {
    if es != [] {
      RunStream(page, n, es[..|es| - 1]);
      StreamStep(Run(page, n, es[..|es| - 1]), es[|es| - 1]);
    }
  }

  /** For any interleaving of any number of readers and writers: the bytes delivered are a prefix of the bytes
      accepted, at most 512 are in flight, and the counters stay right past 2^32. */
  lemma DeliversInOrder(page: seq<Byte>, n: nat, es: seq<Event>)
    requires |page| == PIPESIZE
    ensures var s := Run(page, n, es);
            && s.delivered <= s.accepted && |s.accepted| - |s.delivered| <= PIPESIZE
            && s.ring.nread == |s.delivered| % UINT && s.ring.nwrite == |s.accepted| % UINT
            && InFlight(s.ring) == s.accepted[|s.delivered|..]
  {
    RunStream(page, n, es);
  }

  // ---- no wakeup is lost ----

  ghost predicate SomeAsleep(s: State, c: Chan) {
    exists k :: 0 <= k < |s.threads| && SleepsOn(s.threads[k], c)
  }

  /** A reader asleep has nothing to read and may yet get something; a writer asleep has no room and may yet get
      some. */
  ghost predicate WakeInv(s: State) {
    && (SomeAsleep(s, OnRead) ==> Empty(s.ring) && s.ring.writeopen)
    && (SomeAsleep(s, OnWrite) ==> Full(s.ring) && s.ring.readopen)
  }

  /** A writer that fills the pipe and gives up, without a wakeup, because the read end is closed or it was killed. */
  predicate GivesUp(s: State, t: nat)
    requires IsState(s) && t < |s.threads| && s.threads[t].Writer?
  {
    |s.threads[t].src| - s.threads[t].i > PIPESIZE && (!s.ring.readopen || s.killed[t])
  }

  /** The one way to lose a wakeup: a writer gives up with more than a pipeful left while a reader sleeps. */
  ghost predicate LosesWakeup(s: State, e: Event)
    requires IsState(s)
  {
    Enabled(s, e) && e.Section? && s.threads[e.t].Writer? && SomeAsleep(s, OnRead) && GivesUp(s, e.t)
  }

  lemma WakeupNone(ts: seq<Thread>, c: Chan)
    ensures |Wakeup(ts, c)| == |ts|
    ensures forall k :: 0 <= k < |ts| ==> !SleepsOn(Wakeup(ts, c)[k], c)
    ensures forall k, d :: 0 <= k < |ts| && SleepsOn(Wakeup(ts, c)[k], d) ==> SleepsOn(ts[k], d)
  {
  }

  /** How far pipewrite gets in one section. */
  lemma FillAmount(q: Ring, src: seq<Byte>, i: nat)
    requires Sound(q) && i <= |src|
    ensures var r := Fill(q, src, i);
            && Sound(r.0) && Count(r.0) == Count(q) + (r.1 - i)
            && (r.1 < |src| ==> Count(r.0) == PIPESIZE)
            && (r.1 < |src| <==> |src| - i > PIPESIZE - Count(q))
  {
    FillInFlight(q, src, i);
    var r := Fill(q, src, i);
    assert |InFlight(r.0)| == |InFlight(q)| + (r.1 - i);
    Tests(r.0);
  }

  lemma WakeWrite(s: State, t: nat)
    requires IsState(s) && Sound(s.ring) && WakeInv(s) && t < |s.threads| && s.threads[t].Writer?
    ensures WakeInv(WriteSection(s, t)) <==> !(SomeAsleep(s, OnRead) && GivesUp(s, t))
  {
    var Writer(src, i, _) := s.threads[t];
    var s', r := WriteSection(s, t), Fill(s.ring, src, i);
    FillAmount(s.ring, src, i);
    Tests(s.ring);
    Tests(r.0);
    WakeupNone(s.threads, OnRead);
    if SomeAsleep(s', OnWrite) && r.1 == |src| {
      var k :| 0 <= k < |s'.threads| && SleepsOn(s'.threads[k], OnWrite);
      assert SleepsOn(s.threads[k], OnWrite);
    }
    if SomeAsleep(s, OnRead) && GivesUp(s, t) {
      var k :| 0 <= k < |s.threads| && SleepsOn(s.threads[k], OnRead);
      assert SleepsOn(s'.threads[k], OnRead);
    }
  }

  lemma WakeRead(s: State, t: nat)
    requires IsState(s) && Sound(s.ring) && WakeInv(s) && t < |s.threads| && s.threads[t].Reader?
    ensures WakeInv(ReadSection(s, t))
  {
    var s' := ReadSection(s, t);
    WakeupNone(s.threads, OnWrite);
    if SomeAsleep(s', OnWrite) {
      var k :| 0 <= k < |s'.threads| && SleepsOn(s'.threads[k], OnWrite);
      assert SleepsOn(s.threads[k], OnWrite);
    }
  }

  /** A step that puts no thread to sleep and leaves the ring and the other end as they are. */
  lemma WakeOther(s: State, s': State)
    requires WakeInv(s) && |s'.threads| == |s.threads|
    requires forall k, c :: 0 <= k < |s.threads| && SleepsOn(s'.threads[k], c) ==> SleepsOn(s.threads[k], c)
    requires Empty(s'.ring) == Empty(s.ring) && Full(s'.ring) == Full(s.ring)
    requires s'.ring.writeopen == s.ring.writeopen || !SomeAsleep(s', OnRead)
    requires s'.ring.readopen == s.ring.readopen || !SomeAsleep(s', OnWrite)
    ensures WakeInv(s')
  {
    forall c | SomeAsleep(s', c) ensures SomeAsleep(s, c) {
      var k :| 0 <= k < |s'.threads| && SleepsOn(s'.threads[k], c);
      assert SleepsOn(s.threads[k], c);
    }
  }

  /** Exactly when a step loses a wakeup. */
  lemma WakeStepIff(s: State, e: Event)
    requires IsState(s) && Sound(s.ring) && WakeInv(s)
    ensures WakeInv(Step(s, e)) <==> !LosesWakeup(s, e)
  {
    if Enabled(s, e) {
      if e.Section? && s.threads[e.t].Writer? {
        WakeWrite(s, e.t);
      } else if e.Section? {
        WakeRead(s, e.t);
      } else {
        WakeupNone(s.threads, OnRead);
        WakeupNone(s.threads, OnWrite);
        WakeOther(s, Step(s, e));
      }
    }
  }

  /** No step of the run loses a wakeup. */
  ghost predicate NoneLost(page: seq<Byte>, n: nat, es: seq<Event>)
    requires |page| == PIPESIZE
  {
    forall i :: 0 <= i < |es| ==> !LosesWakeup(Run(page, n, es[..i]), es[i])
  }

  lemma NoneLostPrefix(page: seq<Byte>, n: nat, es: seq<Event>, k: nat)
    requires |page| == PIPESIZE && k <= |es| && NoneLost(page, n, es)
    ensures NoneLost(page, n, es[..k])
  {
    assert forall i :: 0 <= i < k ==> es[..k][..i] == es[..i];
  }

  lemma {:induction false} RunWakes(page: seq<Byte>, n: nat, es: seq<Event>)
    requires |page| == PIPESIZE && NoneLost(page, n, es)
    ensures WakeInv(Run(page, n, es))
  {
    if es != [] {
      var k := |es| - 1;
      var rest, e := es[..k], es[k];
      NoneLostPrefix(page, n, es, k);
      RunWakes(page, n, rest);
      RunStream(page, n, rest);
      WakeStepIff(Run(page, n, rest), e);
    }
  }

  lemma {:induction false} Lost(page: seq<Byte>, n: nat, es: seq<Event>, i: nat, next: nat)
    requires |page| == PIPESIZE && i < |es| && next == i + 1 && LosesWakeup(Run(page, n, es[..i]), es[i])
    ensures WakeInv(Run(page, n, es[..i])) ==> !WakeInv(Run(page, n, es[..next]))
  {
    var s := Run(page, n, es[..i]);
    assert es[..next][..i] == es[..i] && Run(page, n, es[..next]) == Step(s, es[i]);
    RunStream(page, n, es[..i]);
    if WakeInv(s) { WakeStepIff(s, es[i]); }
  }

  /** Exactly which runs lose no wakeup, with threads killed and ends closed at any time: all is well between any two
      critical sections if and only if no writer ever gives up with more than a pipeful left while a reader sleeps. */
  lemma {:induction false} WakeRunIff(page: seq<Byte>, n: nat, es: seq<Event>)
    requires |page| == PIPESIZE
    ensures NoneLost(page, n, es) <==> forall i :: 0 <= i <= |es| ==> WakeInv(Run(page, n, es[..i]))
  {
    if NoneLost(page, n, es) {
      forall i | 0 <= i <= |es| ensures WakeInv(Run(page, n, es[..i])) {
        NoneLostPrefix(page, n, es, i);
        RunWakes(page, n, es[..i]);
      }
    } else {
      var i :| 0 <= i < |es| && LosesWakeup(Run(page, n, es[..i]), es[i]);
      Lost(page, n, es, i, i + 1);
    }
  }

  /** No writer is killed, and the read end is closed only when no reader is in a call. */
  ghost predicate Disciplined(page: seq<Byte>, n: nat, es: seq<Event>)
    requires |page| == PIPESIZE
  {
    forall i :: 0 <= i < |es| ==> Orderly(Run(page, n, es[..i]), es[i])
  }

  ghost predicate Orderly(s: State, e: Event)
    requires IsState(s)
  {
    match e
    case Kill(t) => t < |s.threads| ==> !s.threads[t].Writer?
    case StartWrite(t, _) => t < |s.threads| ==> !s.killed[t]
    case Close(writable) => !writable ==> forall k :: 0 <= k < |s.threads| ==> !s.threads[k].Reader?
    case _ => true
  }

  /** Then no writer is killed, and no reader is in a call once its end is closed. */
  ghost predicate EndsInv(s: State)
    requires IsState(s)
  {
    && (forall k :: 0 <= k < |s.threads| ==> s.killed[k] ==> !s.threads[k].Writer?)
    && (!s.ring.readopen ==> forall k :: 0 <= k < |s.threads| ==> !s.threads[k].Reader?)
  }

  lemma KindsSame(ts: seq<Thread>, c: Chan)
    ensures forall k :: 0 <= k < |ts| ==> Wakeup(ts, c)[k].Reader? == ts[k].Reader?
    ensures forall k :: 0 <= k < |ts| ==> Wakeup(ts, c)[k].Writer? == ts[k].Writer?
  {
  }

  lemma EndsStep(s: State, e: Event)
    requires IsState(s) && EndsInv(s) && Orderly(s, e)
    ensures IsState(Step(s, e)) && EndsInv(Step(s, e))
  {
    StepState(s, e);
    if Enabled(s, e) {
      KindsSame(s.threads, OnRead);
      KindsSame(s.threads, OnWrite);
      var s' := Step(s, e);
      assert !s'.ring.readopen && s.ring.readopen ==> e.Close?;
      assert forall k :: 0 <= k < |s.threads| && s'.threads[k].Reader? && !s.threads[k].Reader? ==> e.StartRead?;
      assert forall k :: 0 <= k < |s.threads| && s'.threads[k].Writer? && !s.threads[k].Writer? ==>
               e == StartWrite(k, e.src);
    }
  }

  lemma DisciplinedPrefix(page: seq<Byte>, n: nat, es: seq<Event>, k: nat)
    requires |page| == PIPESIZE && k <= |es| && Disciplined(page, n, es)
    ensures Disciplined(page, n, es[..k])
  {
    assert forall i :: 0 <= i < k ==> es[..k][..i] == es[..i];
  }

  lemma {:induction false} RunEnds(page: seq<Byte>, n: nat, es: seq<Event>)
    requires |page| == PIPESIZE && Disciplined(page, n, es)
    ensures EndsInv(Run(page, n, es))
  {
    if es != [] {
      var k := |es| - 1;
      var rest, e := es[..k], es[k];
      DisciplinedPrefix(page, n, es, k);
      RunEnds(page, n, rest);
      EndsStep(Run(page, n, rest), e);
    }
  }

  lemma DisciplinedLosesNone(page: seq<Byte>, n: nat, es: seq<Event>)
    requires |page| == PIPESIZE && Disciplined(page, n, es)
    ensures NoneLost(page, n, es)
  {
    forall i | 0 <= i < |es| ensures !LosesWakeup(Run(page, n, es[..i]), es[i]) {
      DisciplinedPrefix(page, n, es, i);
      RunEnds(page, n, es[..i]);
    }
  }

  /** No wakeup is lost: between critical sections, a reader asleep implies an empty pipe with its write end open and
      a writer asleep a full one with its read end open; so readers and writers are never both asleep. Readers may be
      killed and the write end closed at any time. */
  lemma {:induction false} NoLostWakeup(page: seq<Byte>, n: nat, es: seq<Event>, k: nat, m: nat)
    requires |page| == PIPESIZE && Disciplined(page, n, es) && k < n && m < n
    ensures var s := Run(page, n, es);
            && (SleepsOn(s.threads[k], OnRead) ==> s.delivered == s.accepted && s.ring.writeopen)
            && (SleepsOn(s.threads[k], OnWrite) ==> |s.accepted| == |s.delivered| + PIPESIZE && s.ring.readopen)
            && !(SleepsOn(s.threads[k], OnRead) && SleepsOn(s.threads[m], OnWrite))
  {
    DisciplinedLosesNone(page, n, es);
    RunWakes(page, n, es);
    RunStream(page, n, es);
    Tests(Run(page, n, es).ring);
  }

  /** Without the second condition a wakeup can be lost: the read end is closed under a sleeping reader, a writer
      fills the pipe and gives up, and the reader sleeps on with 512 bytes in front of it. exit() can do that: it
      closes the descriptors of all threads of the process, also of one asleep in piperead (proc.c:583-612). */
  lemma LostWakeup(page: seq<Byte>, src: seq<Byte>)
    requires |page| == PIPESIZE && |src| > PIPESIZE
    ensures var s := Run(page, 2, [StartRead(0, 1), Section(0), StartWrite(1, src), Close(false), Section(1)]);
            SleepsOn(s.threads[0], OnRead) && Count(s.ring) == PIPESIZE
  {
    var es := [StartRead(0, 1), Section(0), StartWrite(1, src), Close(false), Section(1)];
    var s0 := Start(page, 2);
    var s1, s2 := Step(s0, es[0]), s0.(threads := [Reader(1, true), Idle(0)]);
    var s3 := s0.(threads := [Reader(1, true), Writer(src, 0, false)]);
    var s4 := s3.(ring := Ring(page, 0, 0, false, true));
    assert es[..1] == [] + [es[0]] && es[..2] == es[..1] + [es[1]];
    assert es[..3] == es[..2] + [es[2]] && es[..4] == es[..3] + [es[3]];
    RunSnoc(page, 2, [], es[0], s0, s1);
    RunSnoc(page, 2, es[..1], es[1], s1, s2);
    RunSnoc(page, 2, es[..2], es[2], s2, s3);
    assert Wakeup(s3.threads, OnWrite) == s3.threads;
    RunSnoc(page, 2, es[..3], es[3], s3, s4);
    FillAmount(s4.ring, src, 0);
    RunSnoc(page, 2, es[..4], es[4], s4, Step(s4, es[4]));
    assert es == es[..4] + [es[4]];
  }

  lemma RunSnoc(page: seq<Byte>, n: nat, es: seq<Event>, e: Event, s: State, s': State)
    requires |page| == PIPESIZE && IsState(s) && Run(page, n, es) == s && s' == Step(s, e)
    ensures Run(page, n, es + [e]) == s'
  {
    assert (es + [e])[..|es|] == es;
  }
}
