/** What a call of pipewrite or piperead does, told from what goes into the pipe and comes out of it. */
module PipeCalls {
  import opened Common
  import opened Blocks
  import opened PipeSpec
  import opened PipeRun

  // ---- one critical section ----

  /** The bytes accepted and not yet delivered. */
  function Pending(s: State): int { |s.accepted| - |s.delivered| }

  /** One section of pipewrite with k bytes in the pipe: it puts in the next bytes of src, as many as there is room
      for, and returns |src| if these were the last ones; otherwise it gives up with -1 if nobody can read or its
      process is killed, and sleeps if not. */
  lemma {:induction false} WriteExactly(s: State, t: nat, k: nat, room: nat)
    requires IsState(s) && Stream(s.ring, s.accepted, s.delivered) && Enabled(s, Section(t)) && s.threads[t].Writer?
    requires k == Pending(s) && k + room == PIPESIZE
    ensures var s', Writer(src, i, _) := Step(s, Section(t)), s.threads[t];
            && s'.delivered == s.delivered && s'.killed == s.killed
            && s'.accepted == s.accepted + src[i..Min(|src|, i + room)]
            && s'.threads[t] == (if |src| - i <= room then Idle(|src|)
                                 else if !s.ring.readopen || s.killed[t] then Idle(-1)
                                 else Writer(src, i + room, true))
  {
    var Writer(src, i, _) := s.threads[t];
    FillAmount(s.ring, src, i);
    assert Count(s.ring) == |InFlight(s.ring)| == k;
  }

  /** One section of piperead of n bytes with k bytes in the pipe: it takes the oldest bytes, as many as there are but
      not more than n, and returns how many. With none there it waits while the write end is open, unless it is killed;
      then it returns -1, and 0 if no byte can come any more. */
  lemma {:induction false} ReadExactly(s: State, t: nat, k: nat)
    requires IsState(s) && Stream(s.ring, s.accepted, s.delivered) && Enabled(s, Section(t)) && s.threads[t].Reader?
    requires k == Pending(s)
    ensures var s', n := Step(s, Section(t)), s.threads[t].n;
            && s'.accepted == s.accepted && s'.killed == s.killed
            && s'.delivered == s.delivered + s.accepted[|s.delivered|..][..Min(n, k)]
            && s'.threads[t] == (if k > 0 then Idle(Min(n, k))
                                 else if !s.ring.writeopen then Idle(0)
                                 else if s.killed[t] then Idle(-1)
                                 else Reader(n, true))
  {
    var n, q := s.threads[t].n, s.ring;
    Tests(q);
    assert InFlight(q) == s.accepted[|s.delivered|..] && |InFlight(q)| == k;
    if k > 0 || !q.writeopen {
      var r := Drain(q, n);
      DrainInFlight(q, n);
      Tests(r.0);
      assert |r.1| + Count(r.0) == k;
      assert r.1 == InFlight(q)[..|r.1|];
    }
  }

  /** What a section of pipewrite leaves in the pipe and answers: as many bytes as there is room for go in; then it has
      written everything, or gives up because nobody can read or it is killed, or sleeps. */
  ghost predicate WriteAnswer(s: State, t: nat, accepted: seq<Byte>, ret: Option<int>) {
    && t < |s.threads| && t < |s.killed| && s.threads[t].Writer? && s.threads[t].i <= |s.threads[t].src|
    && var left, room := s.threads[t].src[s.threads[t].i..], 512 - Pending(s);
       && 0 <= room
       && accepted == s.accepted + (if |left| <= room then left else left[..room])
       && ret == (if |left| <= room then Some(|s.threads[t].src|)
                  else if !s.ring.readopen || s.killed[t] then Some(-1) else None)
  }

  /** What a section of piperead takes and answers: the oldest bytes, at most as many as asked for; with none there it
      is at the end, or killed, or sleeps. */
  ghost predicate ReadAnswer(s: State, t: nat, got: seq<Byte>, ret: Option<int>) {
    && t < |s.threads| && t < |s.killed| && s.threads[t].Reader? && s.delivered <= s.accepted
    && var there, n := s.accepted[|s.delivered|..], s.threads[t].n;
       && got == (if |there| <= n then there else there[..n])
       && ret == (if there != [] then Some(|got|) else if !s.ring.writeopen then Some(0)
                  else if s.killed[t] then Some(-1) else None)
  }

  ghost predicate Returned(x: Thread, ret: Option<int>) {
    if ret.Some? then x == Idle(ret.value) else !x.Idle?
  }

  lemma WriteAnswers(s: State, t: nat, ret: Option<int>)
    requires IsState(s) && Stream(s.ring, s.accepted, s.delivered) && Enabled(s, Section(t)) && s.threads[t].Writer?
    requires Returned(WriteSection(s, t).threads[t], ret)
    ensures WriteAnswer(s, t, WriteSection(s, t).accepted, ret)
  {
    var k := Pending(s);
    assert Count(s.ring) == |InFlight(s.ring)| == k;
    WriteExactly(s, t, k, PIPESIZE - k);
  }

  lemma SameRest(a: seq<Byte>, b: seq<Byte>, c: seq<Byte>)
    requires a + b == a + c
    ensures b == c
  {
    assert (a + b)[|a|..] == b && (a + c)[|a|..] == c;
  }

  lemma ReadAnswers(s: State, t: nat, got: seq<Byte>, ret: Option<int>)
    requires IsState(s) && Stream(s.ring, s.accepted, s.delivered) && Enabled(s, Section(t)) && s.threads[t].Reader?
    requires Returned(ReadSection(s, t).threads[t], ret) && ReadSection(s, t).delivered == s.delivered + got
    ensures ReadAnswer(s, t, got, ret)
  {
    var k, n, there := Pending(s), s.threads[t].n, s.accepted[|s.delivered|..];
    ReadExactly(s, t, k);
    assert s.delivered <= s.accepted && |there| == k;
    SameRest(s.delivered, got, there[..Min(n, k)]);
  }

  // ---- a whole call, over any run ----

  /** A call as seen from outside: what was asked for, and what its own sections put in or took out so far. */
  datatype Call = NoCall | Write(src: seq<Byte>, sent: seq<Byte>) | Read(n: nat, got: seq<Byte>)

  /** What thread t's last call did, after event e took the pipe from s to s'. */
  function SeenNext(c: Call, s: State, e: Event, s': State, t: nat): Call {
    if e == Section(t) && |s.accepted| <= |s'.accepted| && |s.delivered| <= |s'.delivered| then
      match c
      case NoCall => NoCall
      case Write(src, sent) => Write(src, sent + s'.accepted[|s.accepted|..])
      case Read(n, got) => Read(n, got + s'.delivered[|s.delivered|..])
    else if e.StartWrite? && e.t == t && Enabled(s, e) then Write(e.src, [])
    else if e.StartRead? && e.t == t && Enabled(s, e) then Read(e.n, [])
    else c
  }

  function Seen(page: seq<Byte>, n: nat, es: seq<Event>, t: nat): Call
    requires |page| == PIPESIZE
  {
    if es == [] then NoCall
    else
      var k := |es| - 1;
      SeenNext(Seen(page, n, es[..k], t), Run(page, n, es[..k]), es[k], Run(page, n, es), t)
  }

  /** A call in progress has sent what comes before i; a call that returned has done what its result says. */
  ghost predicate Honest(x: Thread, c: Call) {
    match x
    case Writer(src, i, _) => i <= |src| && c == Write(src, src[..i])
    case Reader(n, _) => c == Read(n, [])
    case Idle(ret) =>
      match c
      case NoCall => ret == 0
      case Write(src, sent) => (ret == |src| && sent == src) || (ret == -1 && sent < src)
      case Read(n, got) => (ret == |got| <= n) || (ret == -1 && got == [])
  }

  lemma WriteHonest(s: State, t: nat, c: Call)
    requires IsState(s) && Stream(s.ring, s.accepted, s.delivered) && Enabled(s, Section(t)) && s.threads[t].Writer?
    requires Honest(s.threads[t], c)
    ensures var s' := Step(s, Section(t)); Honest(s'.threads[t], SeenNext(c, s, Section(t), s', t))
  {
    var s', src, i := Step(s, Section(t)), s.threads[t].src, s.threads[t].i;
    var k := Pending(s);
    var room := PIPESIZE - k;
    WriteExactly(s, t, k, room);
    var j := Min(|src|, i + room);
    assert s'.accepted[|s.accepted|..] == src[i..j] && src[..i] + src[i..j] == src[..j];
    assert src[..|src|] == src;
  }

  lemma ReadHonest(s: State, t: nat, c: Call)
    requires IsState(s) && Stream(s.ring, s.accepted, s.delivered) && Enabled(s, Section(t)) && s.threads[t].Reader?
    requires Honest(s.threads[t], c)
    ensures var s' := Step(s, Section(t)); Honest(s'.threads[t], SeenNext(c, s, Section(t), s', t))
  {
    var s', k := Step(s, Section(t)), Pending(s);
    ReadExactly(s, t, k);
    assert s'.delivered[|s.delivered|..] == s.accepted[|s.delivered|..][..Min(s.threads[t].n, k)];
  }

  /** An event of somebody else leaves a thread where it is, or wakes it. */
  lemma OtherHonest(s: State, e: Event, t: nat, c: Call)
    requires IsState(s) && t < |s.threads| && e != Section(t) && Honest(s.threads[t], c)
    ensures var s' := Step(s, e); Honest(s'.threads[t], SeenNext(c, s, e, s', t))
  {
  }

  lemma StepHonest(s: State, e: Event, t: nat, c: Call)
    requires IsState(s) && Stream(s.ring, s.accepted, s.delivered) && t < |s.threads| && Honest(s.threads[t], c)
    ensures var s' := Step(s, e); Honest(s'.threads[t], SeenNext(c, s, e, s', t))
  {
    if e != Section(t) {
      OtherHonest(s, e, t, c);
    } else if Enabled(s, e) {
      if s.threads[t].Writer? { WriteHonest(s, t, c); } else { ReadHonest(s, t, c); }
    } else {
      match c {
        case NoCall =>
        case Write(src, sent) => assert sent + s.accepted[|s.accepted|..] == sent;
        case Read(n, got) => assert got + s.delivered[|s.delivered|..] == got;
      }
    }
  }

  /** In every run, whatever the other threads do: the bytes that a pipewrite of src has put in are src[..i], in order,
      when it stands at i; all of src when it has returned |src|; less than that only if it returned -1. A piperead
      has taken nothing until it returns, and then as many bytes as it says. */
  lemma {:induction false} CallsHonest(page: seq<Byte>, n: nat, es: seq<Event>, t: nat)
    requires |page| == PIPESIZE && t < n
    ensures Honest(Run(page, n, es).threads[t], Seen(page, n, es, t))
  {
    if es != [] {
      var k := |es| - 1;
      CallsHonest(page, n, es[..k], t);
      RunStream(page, n, es[..k]);
      StepHonest(Run(page, n, es[..k]), es[k], t, Seen(page, n, es[..k], t));
    }
  }

  /** A piperead ends with no byte only if none was asked for, or none was there and none could come or it was
      killed. */
  lemma {:induction false} EmptyRead(page: seq<Byte>, n: nat, es: seq<Event>, t: nat)
    requires |page| == PIPESIZE && t < n && Enabled(Run(page, n, es), Section(t)) && Run(page, n, es).threads[t].Reader?
    ensures var s := Run(page, n, es);
            var s' := Step(s, Section(t));
            s'.threads[t].Idle? && s'.delivered == s.delivered ==>
              s.threads[t].n == 0 || (s.delivered == s.accepted && (!s.ring.writeopen || s.killed[t]))
  {
    var s := Run(page, n, es);
    RunStream(page, n, es);
    ReadExactly(s, t, Pending(s));
  }

  /** Every byte accepted was put in by a section of a writer, every byte delivered taken by one of a reader. */
  lemma OnlySections(s: State, e: Event)
    requires IsState(s)
    ensures Step(s, e).accepted != s.accepted ==> e.Section? && Enabled(s, e) && s.threads[e.t].Writer?
    ensures Step(s, e).delivered != s.delivered ==> e.Section? && Enabled(s, e) && s.threads[e.t].Reader?
  {
  }

  /** Nobody sleeps on once killed. */
  lemma {:induction false} KilledAwake(page: seq<Byte>, n: nat, es: seq<Event>, t: nat)
    requires |page| == PIPESIZE && t < n && Run(page, n, es).killed[t]
    ensures var x := Run(page, n, es).threads[t]; x.Idle? || !x.asleep
  {
    if es != [] {
      var k := |es| - 1;
      var s := Run(page, n, es[..k]);
      if s.killed[t] { KilledAwake(page, n, es[..k], t); }
      if Enabled(s, es[k]) && es[k] == Section(t) {
        RunStream(page, n, es[..k]);
        if s.threads[t].Writer? {
          WriteExactly(s, t, Pending(s), PIPESIZE - Pending(s));
        } else {
          ReadExactly(s, t, Pending(s));
        }
      }
    }
  }
}
